/**
 * `pivot`: one output row per distinct row key (the texts of the row-group
 * columns joined with `|`), in ascending order; one text column per row
 * group, then one float column per distinct column key, in ascending order,
 * named after the key and the aggregation; each such cell aggregates the
 * value column over the rows with that row key and column key, or is 0 when
 * there are none.
 */
module Pivot {
  import opened Wrappers
  import opened CellValues
  import opened Columns
  import opened KeyIndexes
  import opened Tables
  import opened Ordering
  import opened CompositeKeys
  import opened Aggregation
  import Floats

  // ---------------------------------------------------------------------------
  // Names of the value columns

  /** `{:?}` of the aggregation type. */
  function AggName(agg: AggregationType): (r: string)
    ensures |r| >= 3
  {
    match agg
    case Sum => "Sum"
    case Count => "Count"
  }

  /** `format!("{}_{:?}", ck, agg_type)`: the name of the value column for a column key. */
  function HeaderName(ck: string, agg: AggregationType): string
  {
    ck + "_" + AggName(agg)
  }

  /** Different column keys give different column names. */
  lemma HeaderNameInjective(a: string, b: string, agg: AggregationType)
    ensures HeaderName(a, agg) == HeaderName(b, agg) ==> a == b
  {
    if HeaderName(a, agg) == HeaderName(b, agg) {
      assert |a| == |b|;
      assert a == HeaderName(a, agg)[..|a|];
    }
  }

  /** No value column is called "row_key", so the extra entry each row map gets names no value column. */
  lemma HeaderNameNotRowKey(ck: string, agg: AggregationType)
    ensures HeaderName(ck, agg) != "row_key"
  {
    var h := HeaderName(ck, agg);
    assert h[|h| - 1] == AggName(agg)[|AggName(agg)| - 1];
  }

  /** The value column names for the column keys, in order. */
  function Headers(cks: seq<string>, agg: AggregationType): (r: seq<string>)
    ensures |r| == |cks| && forall k :: 0 <= k < |cks| ==> r[k] == HeaderName(cks[k], agg)
  {
    seq(|cks|, k requires 0 <= k < |cks| => HeaderName(cks[k], agg))
  }

  // ---------------------------------------------------------------------------
  // Keys and groups

  /** The (row key, column key) of every row. */
  function GroupKeys(cols: seq<Column>, ridx: seq<nat>, cidx: seq<nat>): (r: seq<(string, string)>)
    requires Readable(cols, ridx, RowCount(cols)) && Readable(cols, cidx, RowCount(cols))
    ensures |r| == RowCount(cols)
    ensures forall i :: 0 <= i < RowCount(cols) ==> r[i] == (JoinKey(Tuple(cols, ridx, i)), JoinKey(Tuple(cols, cidx, i)))
  {
    seq(RowCount(cols), i requires 0 <= i < RowCount(cols) => (JoinKey(Tuple(cols, ridx, i)), JoinKey(Tuple(cols, cidx, i))))
  }

  /** Growing a prefix of t by its next element; the whole of t is its longest prefix. */
  lemma PrefixSnoc<T>(t: seq<T>, k: nat, x: T)
    requires k <= |t|
    ensures k < |t| && x == t[k] ==> t[..k] + [x] == t[..k + 1]
    ensures t[..|t|] == t
  {
  }

  /** `make_key`: the texts of the given columns at one row, joined with `|`. */
  method MakeKey(cols: seq<Column>, idxs: seq<nat>, row: nat) returns (key: string)
    requires forall k :: 0 <= k < |idxs| ==> idxs[k] < |cols| && row < cols[idxs[k]].Len()
    ensures key == JoinKey(Tuple(cols, idxs, row))
  {
    ghost var tuple := Tuple(cols, idxs, row);
    var parts: seq<string> := [];
    for k := 0 to |idxs|
      invariant parts == tuple[..k]
    {
      var text := cols[idxs[k]].GetAsString(row);
      PrefixSnoc(tuple, k, text.value);
      parts := parts + [text.value];
    }
    PrefixSnoc(tuple, |idxs|, "");
    key := JoinKey(parts);
  }

  /** The key pairs of all rows, row by row. */
  method RowKeys(cols: seq<Column>, ridx: seq<nat>, cidx: seq<nat>) returns (keys: seq<(string, string)>)
    requires Readable(cols, ridx, RowCount(cols)) && Readable(cols, cidx, RowCount(cols))
    ensures keys == GroupKeys(cols, ridx, cidx)
  {
    ghost var all := GroupKeys(cols, ridx, cidx);
    keys := [];
    for i := 0 to RowCount(cols)
      invariant keys == all[..i]
    {
      var rkey := MakeKey(cols, ridx, i);
      var ckey := MakeKey(cols, cidx, i);
      PrefixSnoc(all, i, (rkey, ckey));
      keys := keys + [(rkey, ckey)];
    }
    PrefixSnoc(all, |all|, ("", ""));
  }

  // ---------------------------------------------------------------------------
  // The output schema

  /** Empty float columns with the given names. */
  function FloatSchema(names: seq<string>): (r: seq<Column>)
    ensures |r| == |names| && forall k :: 0 <= k < |names| ==> r[k] == NewFloatColumn(names[k])
  {
    seq(|names|, k requires 0 <= k < |names| => NewFloatColumn(names[k]))
  }

  /** The columns `pivot` asks for: a text column per row group, then a float column per column key. */
  function Requested(rgs: seq<string>, cks: seq<string>, agg: AggregationType): (r: seq<Column>)
    ensures |r| == |rgs| + |cks|
    ensures forall c :: 0 <= c < |rgs| ==> r[c] == NewStringColumn(rgs[c])
    ensures forall c :: |rgs| <= c < |r| ==> r[c] == NewFloatColumn(HeaderName(cks[c - |rgs|], agg))
  {
    seq(|rgs| + |cks|, c requires 0 <= c < |rgs| + |cks| =>
      if c < |rgs| then NewStringColumn(rgs[c]) else NewFloatColumn(HeaderName(cks[c - |rgs|], agg)))
  }

  /** The requested columns are the row group columns followed by the value columns. */
  lemma RequestedParts(rgs: seq<string>, cks: seq<string>, agg: AggregationType)
    ensures Requested(rgs, cks, agg) == StringSchema(rgs) + FloatSchema(Headers(cks, agg))
  {
  }

  /**
   * The schema of the output: the requested columns added one by one; a
   * name already taken is `add_column`'s panic, which stops the call.
   */
  function PivotSchema(rgs: seq<string>, cks: seq<string>, agg: AggregationType): Result<seq<Column>>
  {
    AddColumns([], Requested(rgs, cks, agg))
  }

  lemma AddColumnsStep(cols: seq<Column>, news: seq<Column>, k: nat)
    requires k < |news|
    ensures AddColumns(cols, news[..k + 1]) ==
      match AddColumns(cols, news[..k])
      case Err(e) => Err(e)
      case Ok(c) => AppendColumn(c, news[k])
  {
    assert news[..k + 1][..k] == news[..k];
  }

  /** Adding two runs of columns is adding the first, then the second onto the result. */
  lemma {:induction false} AddColumnsConcat(cols: seq<Column>, a: seq<Column>, b: seq<Column>)
    ensures AddColumns(cols, a + b) ==
      match AddColumns(cols, a)
      case Err(e) => Err(e)
      case Ok(c) => AddColumns(c, b)
    decreases |b|
  {
    if b == [] {
      assert a + b == a;
    } else {
      var n := |b| - 1;
      assert (a + b)[..|a + b| - 1] == a + b[..n];
      AddColumnsConcat(cols, a, b[..n]);
    }
  }

  /** Once a prefix of the columns is refused, the whole run is refused the same way. */
  lemma AddColumnsStopsAtError(cols: seq<Column>, news: seq<Column>, j: nat)
    requires j <= |news| && AddColumns(cols, news[..j]).Err?
    ensures AddColumns(cols, news) == AddColumns(cols, news[..j])
  {
    assert news == news[..j] + news[j..];
    AddColumnsConcat(cols, news[..j], news[j..]);
  }

  /** The loop adding a text column per row group; the first refused name stops it. */
  method AddStringColumns(out: Table, names: seq<string>) returns (r: Outcome)
    modifies out
    ensures r.Pass? <==> AddColumns(old(out.columns), StringSchema(names)).Ok?
    ensures r.Pass? ==> AddColumns(old(out.columns), StringSchema(names)) == Ok(out.columns)
    ensures r.Fail? ==> AddColumns(old(out.columns), StringSchema(names)) == Err(r.error)
  {
    ghost var start := out.columns;
    ghost var news := StringSchema(names);
    for k := 0 to |names|
      invariant AddColumns(start, news[..k]) == Ok(out.columns)
    {
      AddColumnsStep(start, news, k);
      var added := out.AddStringColumn(names[k]);
      if added.Fail? {
        AddColumnsStopsAtError(start, news, k + 1);
        return added;
      }
    }
    assert news[..|names|] == news;
    r := Pass;
  }

  /** The loop adding a float column per value column name; the first refused name stops it. */
  method AddFloatColumns(out: Table, names: seq<string>) returns (r: Outcome)
    modifies out
    ensures r.Pass? <==> AddColumns(old(out.columns), FloatSchema(names)).Ok?
    ensures r.Pass? ==> AddColumns(old(out.columns), FloatSchema(names)) == Ok(out.columns)
    ensures r.Fail? ==> AddColumns(old(out.columns), FloatSchema(names)) == Err(r.error)
  {
    ghost var start := out.columns;
    ghost var news := FloatSchema(names);
    for k := 0 to |names|
      invariant AddColumns(start, news[..k]) == Ok(out.columns)
    {
      AddColumnsStep(start, news, k);
      var added := out.AddFloatColumn(names[k]);
      if added.Fail? {
        AddColumnsStopsAtError(start, news, k + 1);
        return added;
      }
    }
    assert news[..|names|] == news;
    r := Pass;
  }

  /** The two header loops: `add_string_column` per row group, then `add_float_column` per column key. */
  method AddPivotColumns(out: Table, rgs: seq<string>, cks: seq<string>, agg: AggregationType) returns (r: Outcome)
    requires out.columns == []
    modifies out
    ensures r.Pass? <==> PivotSchema(rgs, cks, agg).Ok?
    ensures r.Pass? ==> PivotSchema(rgs, cks, agg) == Ok(out.columns)
    ensures r.Fail? ==> PivotSchema(rgs, cks, agg) == Err(r.error)
  {
    RequestedParts(rgs, cks, agg);
    AddColumnsConcat([], StringSchema(rgs), FloatSchema(Headers(cks, agg)));
    r := AddStringColumns(out, rgs);
    if r.Fail? {
      return;
    }
    r := AddFloatColumns(out, Headers(cks, agg));
  }

  // ---------------------------------------------------------------------------
  // One output row

  /** Successive inserts into a map: a later key overwrites an earlier equal one. */
  function Inserts<K, V>(m: map<K, V>, ks: seq<K>, vs: seq<V>): map<K, V>
    requires |ks| == |vs|
  {
    if ks == [] then m
    else
      var n := |ks| - 1;
      Inserts(m, ks[..n], vs[..n])[ks[n] := vs[n]]
  }

  /** The insert loop. */
  method InsertAll<K, V>(m: map<K, V>, ks: seq<K>, vs: seq<V>) returns (r: map<K, V>)
    requires |ks| == |vs|
    ensures r == Inserts(m, ks, vs)
  {
    r := m;
    for k := 0 to |ks|
      invariant r == Inserts(m, ks[..k], vs[..k])
    {
      assert ks[..k + 1][..k] == ks[..k] && vs[..k + 1][..k] == vs[..k];
      r := r[ks[k] := vs[k]];
    }
    assert ks[..|ks|] == ks && vs[..|vs|] == vs;
  }

  /** The aggregate of one cell: over the rows with that column key, or 0.0 when there are none. */
  function CellResult(col: Column, inner: map<string, seq<nat>>, ck: string, agg: AggregationType): Result<Floats.Float>
  {
    if ck in inner then AggregateOf(agg, col, inner[ck]) else Ok(Floats.Zero)
  }

  /** The aggregate of each cell of one row, in column-key order. */
  function CellResultList(col: Column, inner: map<string, seq<nat>>, cks: seq<string>, agg: AggregationType)
    : (r: seq<Result<Floats.Float>>)
    ensures |r| == |cks| && forall k :: 0 <= k < |cks| ==> r[k] == CellResult(col, inner, cks[k], agg)
  {
    seq(|cks|, k requires 0 <= k < |cks| => CellResult(col, inner, cks[k], agg))
  }

  /** The aggregates of one row's cells in column-key order; the first failure stops the row. */
  function CellResults(col: Column, inner: map<string, seq<nat>>, cks: seq<string>, agg: AggregationType)
    : Result<seq<Floats.Float>>
  {
    Collect(CellResultList(col, inner, cks, agg))
  }

  /** `aggregate_rows`: the count of the rows, or the sum of their values. */
  method AggregateRows(col: Column, rows: seq<nat>, agg: AggregationType) returns (r: Result<Floats.Float>)
    ensures r == AggregateOf(agg, col, rows)
  {
    match agg {
      case Count => r := Ok(Floats.FromNat(|rows|));
      case Sum => r := SumRows(col, rows);
    }
  }

  /** The loop over the column keys of one row. */
  method AggregateCells(col: Column, inner: map<string, seq<nat>>, cks: seq<string>, agg: AggregationType)
    returns (r: Result<seq<Floats.Float>>)
    ensures r == CellResults(col, inner, cks, agg)
  {
    ghost var rs := CellResultList(col, inner, cks, agg);
    var vals: seq<Floats.Float> := [];
    for k := 0 to |cks|
      invariant Collect(rs[..k]) == Ok(vals)
    {
      var v: Result<Floats.Float>;
      if cks[k] in inner {
        v := AggregateRows(col, inner[cks[k]], agg);
      } else {
        v := Ok(Floats.Zero);
      }
      assert v == rs[k];
      CollectSnoc(rs, k);
      if v.Err? {
        CollectOk(rs[..k]);
        assert forall j :: 0 <= j < k ==> rs[..k][j] == rs[j];
        CollectFirstError(rs, k);
        return Err(v.error);
      }
      vals := vals + [v.value];
    }
    PrefixSnoc(rs, |rs|, Ok(Floats.Zero));
    r := Ok(vals);
  }

  /** The printed aggregates (`to_string`). */
  function FloatTexts(vals: seq<Floats.Float>): (r: seq<string>)
    ensures |r| == |vals| && forall k :: 0 <= k < |vals| ==> r[k] == Floats.FormatFloat(vals[k])
  {
    seq(|vals|, k requires 0 <= k < |vals| => Floats.FormatFloat(vals[k]))
  }

  function Min(a: nat, b: nat): nat { if a <= b then a else b }

  /**
   * The row map for a row key: each row group paired (as `zip` does, up to
   * the shorter list) with the pieces of the key split on `|`; then each
   * value column's printed aggregate; then "row_key" with the key itself.
   */
  function RowValues(rgs: seq<string>, rk: string, cks: seq<string>, agg: AggregationType, vals: seq<Floats.Float>)
    : map<string, string>
    requires |vals| == |cks|
  {
    var pieces := Split(rk);
    var m := Min(|rgs|, |pieces|);
    Inserts(Inserts(map[], rgs[..m], pieces[..m]), Headers(cks, agg), FloatTexts(vals))["row_key" := rk]
  }

  /** Building the row map. */
  method BuildRowValues(rgs: seq<string>, rk: string, cks: seq<string>, agg: AggregationType, vals: seq<Floats.Float>)
    returns (row: map<string, string>)
    requires |vals| == |cks|
    ensures row == RowValues(rgs, rk, cks, agg, vals)
  {
    var pieces := Split(rk);
    var m := Min(|rgs|, |pieces|);
    row := InsertAll(map[], rgs[..m], pieces[..m]);
    row := InsertAll(row, Headers(cks, agg), FloatTexts(vals));
    row := row["row_key" := rk];
  }

  // ---------------------------------------------------------------------------
  // The whole output

  /** Pushing the rows for the given row keys, in order; the first failing aggregate stops it. */
  function PivotRows(col: Column, g: map<string, map<string, seq<nat>>>, rgs: seq<string>, cks: seq<string>,
                     agg: AggregationType, rks: seq<string>, out: seq<Column>): Result<seq<Column>>
    requires forall k :: 0 <= k < |rks| ==> rks[k] in g
  {
    if rks == [] then Ok(out)
    else
      var n := |rks| - 1;
      match PivotRows(col, g, rgs, cks, agg, rks[..n], out)
      case Err(e) => Err(e)
      case Ok(prev) =>
        match CellResults(col, g[rks[n]], cks, agg)
        case Err(e) => Err(e)
        case Ok(vals) => Ok(AfterPush(prev, RowValues(rgs, rks[n], cks, agg, vals)))
  }

  /** A failed fold stays failed when one more row key follows. */
  lemma PivotRowsErrStays(col: Column, g: map<string, map<string, seq<nat>>>, rgs: seq<string>, cks: seq<string>,
                          agg: AggregationType, rks: seq<string>, out: seq<Column>, t: nat)
    requires forall k :: 0 <= k < |rks| ==> rks[k] in g
    requires t < |rks| && PivotRows(col, g, rgs, cks, agg, rks[..t], out).Err?
    ensures PivotRows(col, g, rgs, cks, agg, rks[..t + 1], out) == PivotRows(col, g, rgs, cks, agg, rks[..t], out)
  {
    assert rks[..t + 1][..t] == rks[..t];
  }

  lemma {:induction false} PivotRowsStopsAtError(col: Column, g: map<string, map<string, seq<nat>>>, rgs: seq<string>,
                                                cks: seq<string>, agg: AggregationType, rks: seq<string>,
                                                out: seq<Column>, j: nat)
    requires forall k :: 0 <= k < |rks| ==> rks[k] in g
    requires j <= |rks| && PivotRows(col, g, rgs, cks, agg, rks[..j], out).Err?
    ensures PivotRows(col, g, rgs, cks, agg, rks, out) == PivotRows(col, g, rgs, cks, agg, rks[..j], out)
    decreases |rks|
  {
    if j < |rks| {
      var n := |rks| - 1;
      assert rks[..n][..j] == rks[..j];
      PivotRowsStopsAtError(col, g, rgs, cks, agg, rks[..n], out, j);
      PivotRowsErrStays(col, g, rgs, cks, agg, rks, out, n);
      assert rks[..n + 1] == rks;
    } else {
      assert rks[..j] == rks;
    }
  }

  /** A row of aggregates fails only on a missing row or a text that is not a float literal. */
  lemma CellResultsErrorKind(col: Column, inner: map<string, seq<nat>>, cks: seq<string>, agg: AggregationType)
    ensures var r := CellResults(col, inner, cks, agg);
      r.Err? ==> r.error.NonNumericValue? || r.error.RowOutOfRange?
  {
    var rs := CellResultList(col, inner, cks, agg);
    CollectErrorFrom(rs);
    if Collect(rs).Err? {
      var k :| 0 <= k < |rs| && rs[k] == Err(Collect(rs).error);
      if cks[k] in inner {
        SumOfErrorKind(col, inner[cks[k]]);
      }
    }
  }

  /** The row fold fails only on a missing row or a text that is not a float literal, never on a name. */
  lemma {:induction false} PivotRowsErrorKind(col: Column, g: map<string, map<string, seq<nat>>>, rgs: seq<string>,
                                             cks: seq<string>, agg: AggregationType, rks: seq<string>, out: seq<Column>)
    requires forall k :: 0 <= k < |rks| ==> rks[k] in g
    ensures var r := PivotRows(col, g, rgs, cks, agg, rks, out);
      r.Err? ==> r.error.NonNumericValue? || r.error.RowOutOfRange?
    decreases |rks|
  {
    if rks != [] {
      var n := |rks| - 1;
      PivotRowsErrorKind(col, g, rgs, cks, agg, rks[..n], out);
      CellResultsErrorKind(col, g[rks[n]], cks, agg);
    }
  }

  /** The groups of the rows: row key -> column key -> rows. */
  function Groups(cols: seq<Column>, ridx: seq<nat>, cidx: seq<nat>): map<string, map<string, seq<nat>>>
    requires Readable(cols, ridx, RowCount(cols)) && Readable(cols, cidx, RowCount(cols))
  {
    NestedIndex(GroupKeys(cols, ridx, cidx))
  }

  /**
   * What `pivot` gives: the value column, then the row-group columns, then
   * the column-group columns are looked up, the first missing one failing
   * the call; the rows below `len` are grouped, a grouping column shorter
   * than `len` failing at its first missing row; then the output columns
   * are added, a clashing name failing the call; then the rows are pushed.
   */
  ghost function PivotOf(cols: seq<Column>, rgs: seq<string>, cgs: seq<string>, value: string, agg: AggregationType)
    : (r: Result<seq<Column>>)
    ensures ColumnIndex(cols, value).None? ==> r == Err(ColumnNotFound(value))
    ensures ColumnIndex(cols, value).Some? && ColumnIndexes(cols, rgs).Err? ==> r == Err(ColumnIndexes(cols, rgs).error)
    ensures ColumnIndex(cols, value).Some? && ColumnIndexes(cols, rgs).Ok? && ColumnIndexes(cols, cgs).Err? ==>
      r == Err(ColumnIndexes(cols, cgs).error)
    ensures ColumnIndex(cols, value).Some? && ColumnIndexes(cols, rgs).Ok? && ColumnIndexes(cols, cgs).Ok? ==>
      var idxs := ColumnIndexes(cols, rgs).value + ColumnIndexes(cols, cgs).value;
      !Readable(cols, idxs, RowCount(cols)) ==> r == Err(RowOutOfRange(FirstShortRow(cols, idxs, RowCount(cols))))
  {
    match ColumnIndex(cols, value)
    case None => Err(ColumnNotFound(value))
    case Some(v) =>
      match ColumnIndexes(cols, rgs)
      case Err(e) => Err(e)
      case Ok(ridx) =>
        match ColumnIndexes(cols, cgs)
        case Err(e) => Err(e)
        case Ok(cidx) =>
          var short := FirstShortRow(cols, ridx + cidx, RowCount(cols));
          if short < RowCount(cols) then Err(RowOutOfRange(short))
          else
            ReadableConcat(cols, ridx, cidx, RowCount(cols));
            PivotGrouped(cols[v], cols, ridx, cidx, rgs, agg)
  }

  /**
   * The part of `pivot` after the lookups: the rows are grouped, the output
   * columns added (a clashing name failing the call), then one row is pushed
   * per sorted row key.
   */
  ghost function PivotGrouped(col: Column, cols: seq<Column>, ridx: seq<nat>, cidx: seq<nat>, rgs: seq<string>,
                              agg: AggregationType): Result<seq<Column>>
    requires Readable(cols, ridx, RowCount(cols)) && Readable(cols, cidx, RowCount(cols))
  {
    var g := Groups(cols, ridx, cidx);
    var cks := SortedOf(Seconds(g));
    var schema := PivotSchema(rgs, cks, agg);
    if schema.Err? then Err(schema.error)
    else PivotRows(col, g, rgs, cks, agg, SortedOf(g.Keys), schema.value)
  }

  /** One more row key: the fold grows by that key's row, or stops at its first failing aggregate. */
  lemma PivotRowsNext(col: Column, g: map<string, map<string, seq<nat>>>, rgs: seq<string>, cks: seq<string>,
                      agg: AggregationType, rks: seq<string>, out: seq<Column>, t: nat, prev: seq<Column>)
    requires forall k :: 0 <= k < |rks| ==> rks[k] in g
    requires t < |rks| && PivotRows(col, g, rgs, cks, agg, rks[..t], out) == Ok(prev)
    ensures PivotRows(col, g, rgs, cks, agg, rks[..t + 1], out) ==
      match CellResults(col, g[rks[t]], cks, agg)
      case Err(e) => Err(e)
      case Ok(vals) => Ok(AfterPush(prev, RowValues(rgs, rks[t], cks, agg, vals)))
  {
    assert rks[..t + 1][..t] == rks[..t];
  }

  /** The loop over the sorted row keys, pushing one row each. */
  method PushPivotRows(out: Table, col: Column, g: map<string, map<string, seq<nat>>>, rgs: seq<string>,
                       cks: seq<string>, agg: AggregationType, rks: seq<string>) returns (r: Outcome)
    requires forall k :: 0 <= k < |rks| ==> rks[k] in g
    modifies out
    ensures r.Pass? <==> PivotRows(col, g, rgs, cks, agg, rks, old(out.columns)).Ok?
    ensures r.Pass? ==> PivotRows(col, g, rgs, cks, agg, rks, old(out.columns)) == Ok(out.columns)
    ensures r.Fail? ==> PivotRows(col, g, rgs, cks, agg, rks, old(out.columns)) == Err(r.error)
  {
    ghost var start := out.columns;
    for t := 0 to |rks|
      invariant PivotRows(col, g, rgs, cks, agg, rks[..t], start) == Ok(out.columns)
    {
      PivotRowsNext(col, g, rgs, cks, agg, rks, start, t, out.columns);
      var rk := rks[t];
      var rowMap := g[rk];
      var vals := AggregateCells(col, rowMap, cks, agg);
      if vals.Err? {
        PivotRowsStopsAtError(col, g, rgs, cks, agg, rks, start, t + 1);
        return Fail(vals.error);
      }
      var rowValues := BuildRowValues(rgs, rk, cks, agg, vals.value);
      var _ := out.PushRowStr(rowValues);
    }
    assert rks[..|rks|] == rks;
    r := Pass;
  }

  /** `pivot`. */
  method Pivot(table: Table, rowGroups: seq<string>, colGroups: seq<string>, valueCol: string, agg: AggregationType)
    returns (res: Result<Table>)
    ensures res.Ok? <==> PivotOf(table.columns, rowGroups, colGroups, valueCol, agg).Ok?
    ensures res.Ok? ==> fresh(res.value) && PivotOf(table.columns, rowGroups, colGroups, valueCol, agg) == Ok(res.value.columns)
    ensures res.Err? ==> PivotOf(table.columns, rowGroups, colGroups, valueCol, agg) == Err(res.error)
  {
    var cols := table.columns;
    var valueIdx := ColumnIndex(cols, valueCol);
    if valueIdx.None? {
      return Err(ColumnNotFound(valueCol));
    }
    var rowIdxs := ColumnIndexes(cols, rowGroups);
    if rowIdxs.Err? {
      return Err(rowIdxs.error);
    }
    var colIdxs := ColumnIndexes(cols, colGroups);
    if colIdxs.Err? {
      return Err(colIdxs.error);
    }
    var short := FirstShortRow(cols, rowIdxs.value + colIdxs.value, RowCount(cols));
    if short < RowCount(cols) {
      return Err(RowOutOfRange(short));
    }
    ReadableConcat(cols, rowIdxs.value, colIdxs.value, RowCount(cols));
    res := GroupAndPush(cols[valueIdx.value], cols, rowIdxs.value, colIdxs.value, rowGroups, agg);
  }

  /** The grouping, the header loops and the row loop of `pivot`. */
  method GroupAndPush(col: Column, cols: seq<Column>, ridx: seq<nat>, cidx: seq<nat>, rgs: seq<string>,
                      agg: AggregationType) returns (res: Result<Table>)
    requires Readable(cols, ridx, RowCount(cols)) && Readable(cols, cidx, RowCount(cols))
    ensures res.Ok? <==> PivotGrouped(col, cols, ridx, cidx, rgs, agg).Ok?
    ensures res.Ok? ==> fresh(res.value) && PivotGrouped(col, cols, ridx, cidx, rgs, agg) == Ok(res.value.columns)
    ensures res.Err? ==> PivotGrouped(col, cols, ridx, cidx, rgs, agg) == Err(res.error)
  {
    var keys := RowKeys(cols, ridx, cidx);
    var groups := BuildNested(keys);
    var colKeySet := CollectSeconds(groups);
    var colKeys := SortedKeys(colKeySet);
    var out := new Table();
    var added := AddPivotColumns(out, rgs, colKeys, agg);
    var rowKeyList := SortedKeys(groups.Keys);
    PivotGroupedSteps(col, cols, ridx, cidx, rgs, agg, groups, colKeys, rowKeyList);
    if added.Fail? {
      return Err(added.error);
    }
    var pushed := PushPivotRows(out, col, groups, rgs, colKeys, agg, rowKeyList);
    if pushed.Fail? {
      return Err(pushed.error);
    }
    res := Ok(out);
  }

  /**
   * After the grouping, `pivot` adds the schema and, if no name clashes,
   * folds over the sorted row keys of the groups.
   */
  lemma PivotGroupedSteps(col: Column, cols: seq<Column>, ridx: seq<nat>, cidx: seq<nat>, rgs: seq<string>,
                          agg: AggregationType, g: map<string, map<string, seq<nat>>>, cks: seq<string>, rks: seq<string>)
    requires Readable(cols, ridx, RowCount(cols)) && Readable(cols, cidx, RowCount(cols))
    requires g == Groups(cols, ridx, cidx) && cks == SortedOf(Seconds(g)) && rks == SortedOf(g.Keys)
    ensures forall k :: 0 <= k < |rks| ==> rks[k] in g
    ensures PivotSchema(rgs, cks, agg).Err? ==> PivotGrouped(col, cols, ridx, cidx, rgs, agg) == Err(PivotSchema(rgs, cks, agg).error)
    ensures PivotSchema(rgs, cks, agg).Ok? ==>
      PivotGrouped(col, cols, ridx, cidx, rgs, agg) == PivotRows(col, g, rgs, cks, agg, rks, PivotSchema(rgs, cks, agg).value)
  {
    forall k | 0 <= k < |rks| ensures rks[k] in g {
      assert rks[k] in rks;
    }
  }

  // ---------------------------------------------------------------------------
  // Map facts, independent of what the keys are

  /** With distinct keys, each key ends up with its own value. */
  lemma {:induction false} InsertsAt<K, V>(m: map<K, V>, ks: seq<K>, vs: seq<V>, k: nat)
    requires |ks| == |vs| && Distinct(ks) && k < |ks|
    ensures ks[k] in Inserts(m, ks, vs) && Inserts(m, ks, vs)[ks[k]] == vs[k]
    decreases |ks|
  {
    var n := |ks| - 1;
    if k < n {
      assert ks[..n][k] == ks[k] && vs[..n][k] == vs[k];
      assert ks[k] != ks[n];
      InsertsAt(m, ks[..n], vs[..n], k);
    }
  }

  /** A key that is not inserted keeps whatever it had. */
  lemma {:induction false} InsertsOther<K, V>(m: map<K, V>, ks: seq<K>, vs: seq<V>, x: K)
    requires |ks| == |vs| && x !in ks
    ensures x in Inserts(m, ks, vs) <==> x in m
    ensures x in m ==> Inserts(m, ks, vs)[x] == m[x]
    decreases |ks|
  {
    if ks != [] {
      var n := |ks| - 1;
      assert ks == ks[..n] + [ks[n]];
      InsertsOther(m, ks[..n], vs[..n], x);
    }
  }

  // ---------------------------------------------------------------------------
  // When all requested names differ

  /**
   * The requested columns all get added: the row groups differ from each
   * other, the column keys from each other, and no value column name is a
   * row group.
   */
  predicate Clean(rgs: seq<string>, cks: seq<string>, agg: AggregationType)
  {
    && Distinct(rgs)
    && Distinct(cks)
    && forall k :: 0 <= k < |cks| ==> HeaderName(cks[k], agg) !in rgs
  }

  /** Sorted keys are distinct. */
  lemma SortedDistinct(xs: seq<string>)
    requires StrictlySorted(xs)
    ensures Distinct(xs)
  {
    forall i, j | 0 <= i < j < |xs| ensures xs[i] != xs[j] {
      if xs[i] == xs[j] {
        LessIrreflexive(xs[i]);
      }
    }
  }

  lemma HeadersDistinct(cks: seq<string>, agg: AggregationType)
    requires Distinct(cks)
    ensures Distinct(Headers(cks, agg))
  {
    forall i, j | 0 <= i < j < |cks| ensures Headers(cks, agg)[i] != Headers(cks, agg)[j] {
      HeaderNameInjective(cks[i], cks[j], agg);
    }
  }

  /** The requested names: the row groups, then the value column names. */
  lemma RequestedNames(rgs: seq<string>, cks: seq<string>, agg: AggregationType)
    ensures Names(Requested(rgs, cks, agg)) == rgs + Headers(cks, agg)
    ensures Clean(rgs, cks, agg) ==> DistinctNames(Requested(rgs, cks, agg))
  {
    var names := Names(Requested(rgs, cks, agg));
    var hs := Headers(cks, agg);
    assert names == rgs + hs;
    if Clean(rgs, cks, agg) {
      HeadersDistinct(cks, agg);
      forall i, j | 0 <= i < j < |names| ensures names[i] != names[j] {
        if j >= |rgs| && i < |rgs| {
          assert names[j] == HeaderName(cks[j - |rgs|], agg);
          assert names[i] == rgs[i];
        }
      }
    }
  }

  /** Given distinct column keys, nothing clashes exactly when all requested names differ. */
  lemma CleanDistinct(rgs: seq<string>, cks: seq<string>, agg: AggregationType)
    requires Distinct(cks)
    ensures Clean(rgs, cks, agg) <==> Distinct(rgs + Headers(cks, agg))
  {
    RequestedNames(rgs, cks, agg);
    var names := rgs + Headers(cks, agg);
    if Distinct(names) {
      forall i, j | 0 <= i < j < |rgs| ensures rgs[i] != rgs[j] {
        assert names[i] == rgs[i] && names[j] == rgs[j];
      }
      forall k | 0 <= k < |cks| ensures HeaderName(cks[k], agg) !in rgs {
        assert names[|rgs| + k] == HeaderName(cks[k], agg);
        forall i | 0 <= i < |rgs| ensures rgs[i] != HeaderName(cks[k], agg) {
          assert names[i] == rgs[i];
        }
      }
    }
  }

  /**
   * The output schema is the requested columns when their names all differ;
   * otherwise `add_column` refuses the first name that repeats an earlier one.
   */
  lemma PivotSchemaOutcome(rgs: seq<string>, cks: seq<string>, agg: AggregationType)
    ensures var names := rgs + Headers(cks, agg);
      && (PivotSchema(rgs, cks, agg).Ok? <==> Distinct(names))
      && (Distinct(names) ==> PivotSchema(rgs, cks, agg) == Ok(Requested(rgs, cks, agg)))
      && (!Distinct(names) ==> PivotSchema(rgs, cks, agg) == Err(DuplicateColumn(names[FirstRepeat(names)])))
  {
    RequestedNames(rgs, cks, agg);
    assert [] + Requested(rgs, cks, agg) == Requested(rgs, cks, agg);
    AddColumnsOutcome([], Requested(rgs, cks, agg));
    FirstRepeatDistinct(rgs + Headers(cks, agg));
  }

  /** Without clashing names the output schema is exactly the requested columns. */
  lemma PivotSchemaClean(rgs: seq<string>, cks: seq<string>, agg: AggregationType)
    requires Clean(rgs, cks, agg)
    ensures PivotSchema(rgs, cks, agg) == Ok(Requested(rgs, cks, agg))
    ensures Names(Requested(rgs, cks, agg)) == rgs + Headers(cks, agg)
  {
    RequestedNames(rgs, cks, agg);
    PivotSchemaOutcome(rgs, cks, agg);
  }

  /**
   * The text a row group's cell gets: its piece of the key, or the whole
   * key for a row group named "row_key", whose entry the last insert
   * overwrites.
   */
  function RowGroupText(rgs: seq<string>, rk: string, k: nat): string
    requires k < |rgs| <= |Split(rk)|
  {
    if rgs[k] == "row_key" then rk else Split(rk)[k]
  }

  lemma RowValuesGroup(rgs: seq<string>, rk: string, cks: seq<string>, agg: AggregationType,
                       vals: seq<Floats.Float>, k: nat)
    requires |vals| == |cks| && Clean(rgs, cks, agg) && k < |rgs| <= |Split(rk)|
    ensures rgs[k] in RowValues(rgs, rk, cks, agg, vals)
    ensures RowValues(rgs, rk, cks, agg, vals)[rgs[k]] == RowGroupText(rgs, rk, k)
  {
    var pieces := Split(rk);
    assert Min(|rgs|, |pieces|) == |rgs| && rgs[..|rgs|] == rgs;
    InsertsAt(map[], rgs, pieces[..|rgs|], k);
    var first := Inserts(map[], rgs, pieces[..|rgs|]);
    var hs := Headers(cks, agg);
    assert rgs[k] !in hs by {
      forall j | 0 <= j < |hs| ensures hs[j] != rgs[k] {
        assert HeaderName(cks[j], agg) !in rgs;
      }
    }
    InsertsOther(first, hs, FloatTexts(vals), rgs[k]);
  }

  lemma RowValuesHeader(rgs: seq<string>, rk: string, cks: seq<string>, agg: AggregationType,
                        vals: seq<Floats.Float>, k: nat)
    requires |vals| == |cks| && Clean(rgs, cks, agg) && k < |cks|
    ensures HeaderName(cks[k], agg) in RowValues(rgs, rk, cks, agg, vals)
    ensures RowValues(rgs, rk, cks, agg, vals)[HeaderName(cks[k], agg)] == Floats.FormatFloat(vals[k])
  {
    var pieces := Split(rk);
    var m := Min(|rgs|, |pieces|);
    HeadersDistinct(cks, agg);
    InsertsAt(Inserts(map[], rgs[..m], pieces[..m]), Headers(cks, agg), FloatTexts(vals), k);
    HeaderNameNotRowKey(cks[k], agg);
  }

  /** The cells of one output row: the row group texts, then the aggregates. */
  function PivotCells(rgs: seq<string>, cks: seq<string>, agg: AggregationType, rk: string, vals: seq<Floats.Float>)
    : (r: seq<CellValue>)
    requires |rgs| <= |Split(rk)| && |vals| == |cks|
    ensures |r| == |rgs| + |cks|
    ensures forall c :: 0 <= c < |rgs| ==> r[c] == Text(RowGroupText(rgs, rk, c))
    ensures forall c :: |rgs| <= c < |r| ==> r[c] == Float(vals[c - |rgs|])
    ensures CellsFit(Requested(rgs, cks, agg), r)
  {
    seq(|rgs| + |cks|, c requires 0 <= c < |rgs| + |cks| =>
      if c < |rgs| then Text(RowGroupText(rgs, rk, c)) else Float(vals[c - |rgs|]))
  }

  /** A row group column finds its text in a fitting row map and takes it as it is. */
  lemma GroupCellParses(rgs: seq<string>, cks: seq<string>, agg: AggregationType, rk: string, vals: seq<Floats.Float>,
                        values: map<string, string>, c: nat)
    requires |rgs| <= |Split(rk)| && |vals| == |cks| && RowMapFits(rgs, cks, agg, rk, vals, values)
    requires c < |rgs|
    ensures var col := Requested(rgs, cks, agg)[c];
      col.name in values && col.Parse(values[col.name]) == Some(PivotCells(rgs, cks, agg, rk, vals)[c])
  {
    var col := Requested(rgs, cks, agg)[c];
    assert col == NewStringColumn(rgs[c]);
    assert PivotCells(rgs, cks, agg, rk, vals)[c] == Text(RowGroupText(rgs, rk, c));
  }

  /** A value column finds its printed aggregate in a fitting row map, and reads it back as the aggregate. */
  lemma HeaderCellParses(rgs: seq<string>, cks: seq<string>, agg: AggregationType, rk: string, vals: seq<Floats.Float>,
                         values: map<string, string>, c: nat)
    requires |rgs| <= |Split(rk)| && |vals| == |cks| && RowMapFits(rgs, cks, agg, rk, vals, values)
    requires |rgs| <= c < |rgs| + |cks|
    ensures var col := Requested(rgs, cks, agg)[c];
      col.name in values && col.Parse(values[col.name]) == Some(PivotCells(rgs, cks, agg, rk, vals)[c])
  {
    var k := c - |rgs|;
    var name := HeaderName(cks[k], agg);
    assert name in values && values[name] == Floats.FormatFloat(vals[k]);
    assert Requested(rgs, cks, agg)[c] == NewFloatColumn(name);
    assert PivotCells(rgs, cks, agg, rk, vals)[c] == Float(vals[k]);
    FloatCellParses(Requested(rgs, cks, agg)[c], values, name, vals[k], PivotCells(rgs, cks, agg, rk, vals)[c]);
  }

  /** A float column finds the printed text of f under its name and reads it back as f. */
  lemma FloatCellParses(col: Column, values: map<string, string>, name: string, f: Floats.Float, cell: CellValue)
    requires col == NewFloatColumn(name) && cell == Float(f)
    requires name in values && values[name] == Floats.FormatFloat(f)
    ensures col.name in values && col.Parse(values[col.name]) == Some(cell)
  {
    ParseFloatText(col, values[name], f);
  }

  /** Each requested column finds its text in a fitting row map, and the text parses to the row's cell. */
  lemma CellParses(rgs: seq<string>, cks: seq<string>, agg: AggregationType, rk: string, vals: seq<Floats.Float>,
                   values: map<string, string>, c: nat)
    requires |rgs| <= |Split(rk)| && |vals| == |cks| && RowMapFits(rgs, cks, agg, rk, vals, values)
    requires c < |rgs| + |cks|
    ensures var col := Requested(rgs, cks, agg)[c];
      col.name in values && col.Parse(values[col.name]) == Some(PivotCells(rgs, cks, agg, rk, vals)[c])
  {
    if c < |rgs| {
      GroupCellParses(rgs, cks, agg, rk, vals, values, c);
    } else {
      HeaderCellParses(rgs, cks, agg, rk, vals, values, c);
    }
  }

  /** The row map gives each row group its text and each value column its printed aggregate. */
  predicate RowMapFits(rgs: seq<string>, cks: seq<string>, agg: AggregationType, rk: string, vals: seq<Floats.Float>,
                       values: map<string, string>)
    requires |rgs| <= |Split(rk)| && |vals| == |cks|
  {
    && (forall c :: 0 <= c < |rgs| ==> rgs[c] in values && values[rgs[c]] == RowGroupText(rgs, rk, c))
    && (forall k :: 0 <= k < |cks| ==>
         HeaderName(cks[k], agg) in values && values[HeaderName(cks[k], agg)] == Floats.FormatFloat(vals[k]))
  }

  /** Without clashing names, the row map built for a row key fits it. */
  lemma RowValuesFit(rgs: seq<string>, cks: seq<string>, agg: AggregationType, rk: string, vals: seq<Floats.Float>)
    requires Clean(rgs, cks, agg) && |rgs| <= |Split(rk)| && |vals| == |cks|
    ensures RowMapFits(rgs, cks, agg, rk, vals, RowValues(rgs, rk, cks, agg, vals))
  {
    forall c | 0 <= c < |rgs| ensures var values := RowValues(rgs, rk, cks, agg, vals);
      rgs[c] in values && values[rgs[c]] == RowGroupText(rgs, rk, c)
    {
      RowValuesGroup(rgs, rk, cks, agg, vals, c);
    }
    forall k | 0 <= k < |cks| ensures var values := RowValues(rgs, rk, cks, agg, vals);
      HeaderName(cks[k], agg) in values && values[HeaderName(cks[k], agg)] == Floats.FormatFloat(vals[k])
    {
      RowValuesHeader(rgs, rk, cks, agg, vals, k);
    }
  }

  /** Pushing a fitting row map onto a table built from the requested columns pushes that row's cells. */
  lemma PivotRowStep(rgs: seq<string>, cks: seq<string>, agg: AggregationType, rows: seq<seq<CellValue>>,
                     rk: string, vals: seq<Floats.Float>, values: map<string, string>)
    requires |rgs| <= |Split(rk)| && |vals| == |cks| && RowMapFits(rgs, cks, agg, rk, vals, values)
    requires forall t :: 0 <= t < |rows| ==> |rows[t]| == |Requested(rgs, cks, agg)| && CellsFit(Requested(rgs, cks, agg), rows[t])
    ensures AfterPush(Tabulate(Requested(rgs, cks, agg), rows), values) ==
      Tabulate(Requested(rgs, cks, agg), rows + [PivotCells(rgs, cks, agg, rk, vals)])
  {
    var schema := Requested(rgs, cks, agg);
    var cells := PivotCells(rgs, cks, agg, rk, vals);
    forall c | 0 <= c < |schema| ensures schema[c].name in values && schema[c].Parse(values[schema[c].name]) == Some(cells[c]) {
      CellParses(rgs, cks, agg, rk, vals, values, c);
    }
    PushParsedRow(schema, rows, values, cells);
  }

  /** Every row key is in the groups, splits into enough pieces, and its aggregates all succeed. */
  ghost predicate RowsOk(col: Column, g: map<string, map<string, seq<nat>>>, rgs: seq<string>, cks: seq<string>,
                         agg: AggregationType, rks: seq<string>)
  {
    forall t :: 0 <= t < |rks| ==>
      rks[t] in g && |rgs| <= |Split(rks[t])| && CellResults(col, g[rks[t]], cks, agg).Ok?
  }

  /** The cells of the output rows, one row per row key. */
  ghost function PivotBody(col: Column, g: map<string, map<string, seq<nat>>>, rgs: seq<string>, cks: seq<string>,
                           agg: AggregationType, rks: seq<string>): (r: seq<seq<CellValue>>)
    requires RowsOk(col, g, rgs, cks, agg, rks)
    ensures |r| == |rks|
    ensures forall t :: 0 <= t < |rks| ==>
      r[t] == PivotCells(rgs, cks, agg, rks[t], CellResults(col, g[rks[t]], cks, agg).value)
    ensures forall t :: 0 <= t < |rks| ==>
      |r[t]| == |Requested(rgs, cks, agg)| && CellsFit(Requested(rgs, cks, agg), r[t])
  {
    seq(|rks|, t requires 0 <= t < |rks| => PivotCells(rgs, cks, agg, rks[t], CellResults(col, g[rks[t]], cks, agg).value))
  }

  lemma RowsOkPrefix(col: Column, g: map<string, map<string, seq<nat>>>, rgs: seq<string>, cks: seq<string>,
                     agg: AggregationType, rks: seq<string>, n: nat)
    requires RowsOk(col, g, rgs, cks, agg, rks) && n <= |rks|
    ensures RowsOk(col, g, rgs, cks, agg, rks[..n])
  {
    forall t | 0 <= t < n ensures rks[..n][t] == rks[t] { }
  }

  /** One more row key: the rows so far, then that key's row. */
  lemma PivotBodySnoc(col: Column, g: map<string, map<string, seq<nat>>>, rgs: seq<string>, cks: seq<string>,
                      agg: AggregationType, rks: seq<string>)
    requires RowsOk(col, g, rgs, cks, agg, rks) && rks != [] && RowsOk(col, g, rgs, cks, agg, rks[..|rks| - 1])
    ensures var n := |rks| - 1;
      PivotBody(col, g, rgs, cks, agg, rks) == PivotBody(col, g, rgs, cks, agg, rks[..n]) +
        [PivotCells(rgs, cks, agg, rks[n], CellResults(col, g[rks[n]], cks, agg).value)]
  {
    var n := |rks| - 1;
    var prefix := rks[..n];
    var body := PivotBody(col, g, rgs, cks, agg, rks);
    var rows := PivotBody(col, g, rgs, cks, agg, prefix);
    forall t | 0 <= t < n ensures body[t] == rows[t] {
      assert prefix[t] == rks[t];
    }
  }

  /** Without clashing names, pushing the rows builds the table of the row keys' cells. */
  lemma {:induction false} PivotRowsClean(col: Column, g: map<string, map<string, seq<nat>>>, rgs: seq<string>,
                                         cks: seq<string>, agg: AggregationType, rks: seq<string>)
    requires Clean(rgs, cks, agg) && RowsOk(col, g, rgs, cks, agg, rks)
    ensures PivotRows(col, g, rgs, cks, agg, rks, Requested(rgs, cks, agg)) ==
      Ok(Tabulate(Requested(rgs, cks, agg), PivotBody(col, g, rgs, cks, agg, rks)))
    decreases |rks|
  {
    var schema := Requested(rgs, cks, agg);
    if rks == [] {
      assert PivotBody(col, g, rgs, cks, agg, rks) == [];
    } else {
      var n := |rks| - 1;
      var prefix := rks[..n];
      RowsOkPrefix(col, g, rgs, cks, agg, rks, n);
      PivotBodySnoc(col, g, rgs, cks, agg, rks);
      PivotRowsClean(col, g, rgs, cks, agg, prefix);
      var rows := PivotBody(col, g, rgs, cks, agg, prefix);
      var vals := CellResults(col, g[rks[n]], cks, agg).value;
      RowValuesFit(rgs, cks, agg, rks[n], vals);
      PivotRowStep(rgs, cks, agg, rows, rks[n], vals, RowValues(rgs, rks[n], cks, agg, vals));
    }
  }

  // ---------------------------------------------------------------------------
  // When the aggregates succeed

  /** The row's aggregates succeed exactly when each cell's does, and are those cells' values. */
  lemma CellResultsOk(col: Column, inner: map<string, seq<nat>>, cks: seq<string>, agg: AggregationType)
    ensures CellResults(col, inner, cks, agg).Ok? <==> forall k :: 0 <= k < |cks| ==> CellResult(col, inner, cks[k], agg).Ok?
    ensures CellResults(col, inner, cks, agg).Ok? ==>
      forall k :: 0 <= k < |cks| ==> CellResults(col, inner, cks, agg).value[k] == CellResult(col, inner, cks[k], agg).value
  {
    CollectOk(CellResultList(col, inner, cks, agg));
  }

  /** Every row key is in the groups and its aggregates all succeed. */
  ghost predicate AggregatesOk(col: Column, g: map<string, map<string, seq<nat>>>, cks: seq<string>,
                               agg: AggregationType, rks: seq<string>)
  {
    forall t :: 0 <= t < |rks| ==> rks[t] in g && CellResults(col, g[rks[t]], cks, agg).Ok?
  }

  lemma AggregatesOkSnoc(col: Column, g: map<string, map<string, seq<nat>>>, cks: seq<string>,
                         agg: AggregationType, rks: seq<string>)
    requires rks != [] && rks[|rks| - 1] in g
    ensures var n := |rks| - 1;
      AggregatesOk(col, g, cks, agg, rks) <==>
        AggregatesOk(col, g, cks, agg, rks[..n]) && CellResults(col, g[rks[n]], cks, agg).Ok?
  {
    var n := |rks| - 1;
    assert forall t :: 0 <= t < n ==> rks[..n][t] == rks[t];
  }

  /** One more row key: the push goes on exactly when the earlier rows and this row's aggregates succeed. */
  lemma PivotRowsSnocOk(col: Column, g: map<string, map<string, seq<nat>>>, rgs: seq<string>,
                        cks: seq<string>, agg: AggregationType, rks: seq<string>, out: seq<Column>)
    requires forall k :: 0 <= k < |rks| ==> rks[k] in g
    requires rks != []
    ensures var n := |rks| - 1;
      PivotRows(col, g, rgs, cks, agg, rks, out).Ok? <==>
        PivotRows(col, g, rgs, cks, agg, rks[..n], out).Ok? && CellResults(col, g[rks[n]], cks, agg).Ok?
  {
  }

  /** Pushing the rows fails exactly when some row's aggregates fail. */
  lemma {:induction false} PivotRowsOk(col: Column, g: map<string, map<string, seq<nat>>>, rgs: seq<string>,
                                      cks: seq<string>, agg: AggregationType, rks: seq<string>, out: seq<Column>)
    requires forall k :: 0 <= k < |rks| ==> rks[k] in g
    ensures PivotRows(col, g, rgs, cks, agg, rks, out).Ok? <==> AggregatesOk(col, g, cks, agg, rks)
    decreases |rks|
  {
    if rks != [] {
      var n := |rks| - 1;
      PivotRowsOk(col, g, rgs, cks, agg, rks[..n], out);
      PivotRowsSnocOk(col, g, rgs, cks, agg, rks, out);
      AggregatesOkSnoc(col, g, cks, agg, rks);
    }
  }

  /** Counting never fails: each cell is the number of rows in its group, or 0. */
  lemma CountCells(col: Column, inner: map<string, seq<nat>>, cks: seq<string>)
    ensures CellResults(col, inner, cks, Count).Ok?
    ensures forall k :: 0 <= k < |cks| ==>
      CellResults(col, inner, cks, Count).value[k] == (if cks[k] in inner then Floats.FromNat(|inner[cks[k]]|) else Floats.Zero)
  {
    CellResultsOk(col, inner, cks, Count);
  }

  /** Summing an integer, timestamp or float column never fails on rows that exist. */
  lemma SumNumericCells(col: Column, inner: map<string, seq<nat>>, cks: seq<string>)
    requires !col.StringColumn?
    requires forall ck :: ck in inner ==> forall j :: 0 <= j < |inner[ck]| ==> inner[ck][j] < col.Len()
    ensures CellResults(col, inner, cks, Sum).Ok?
  {
    forall k | 0 <= k < |cks| ensures CellResult(col, inner, cks[k], Sum).Ok? {
      if cks[k] in inner {
        SumOfNumericColumn(col, inner[cks[k]]);
      }
    }
    CellResultsOk(col, inner, cks, Sum);
  }

  // ---------------------------------------------------------------------------
  // The whole call, when the lookups succeed

  /** Every column `pivot` looks up is there, and the grouping columns have every row below `len`. */
  predicate Found(cols: seq<Column>, rgs: seq<string>, cgs: seq<string>, value: string)
  {
    && ColumnIndex(cols, value).Some?
    && ColumnIndexes(cols, rgs).Ok?
    && ColumnIndexes(cols, cgs).Ok?
    && Readable(cols, ColumnIndexes(cols, rgs).value, RowCount(cols))
    && Readable(cols, ColumnIndexes(cols, cgs).value, RowCount(cols))
  }

  /** The (row key, column key) of every row of the table. */
  function PivotKeys(cols: seq<Column>, rgs: seq<string>, cgs: seq<string>, value: string): seq<(string, string)>
    requires Found(cols, rgs, cgs, value)
  {
    GroupKeys(cols, ColumnIndexes(cols, rgs).value, ColumnIndexes(cols, cgs).value)
  }

  /** The column keys, ascending: exactly the column keys some row has. */
  ghost function ColKeys(cols: seq<Column>, rgs: seq<string>, cgs: seq<string>, value: string): (r: seq<string>)
    requires Found(cols, rgs, cgs, value)
    ensures StrictlySorted(r)
    ensures forall ck :: ck in r <==> exists i :: 0 <= i < |PivotKeys(cols, rgs, cgs, value)| && PivotKeys(cols, rgs, cgs, value)[i].1 == ck
  {
    var keys := PivotKeys(cols, rgs, cgs, value);
    SecondsOfNested(keys);
    SortedOf(Seconds(NestedIndex(keys)))
  }

  /** The row keys, ascending: exactly the row keys some row has. */
  ghost function RowKeyList(cols: seq<Column>, rgs: seq<string>, cgs: seq<string>, value: string): (r: seq<string>)
    requires Found(cols, rgs, cgs, value)
    ensures StrictlySorted(r)
    ensures forall rk :: rk in r <==> exists i :: 0 <= i < |PivotKeys(cols, rgs, cgs, value)| && PivotKeys(cols, rgs, cgs, value)[i].0 == rk
    ensures forall rk :: rk in r <==> rk in NestedIndex(PivotKeys(cols, rgs, cgs, value))
  {
    var keys := PivotKeys(cols, rgs, cgs, value);
    FirstsOfNested(keys);
    SortedOf(NestedIndex(keys).Keys)
  }

  /** A row key splits into at least as many pieces as there are row groups. */
  lemma RowKeySplits(cols: seq<Column>, rgs: seq<string>, cgs: seq<string>, value: string, rk: string)
    requires Found(cols, rgs, cgs, value) && rk in RowKeyList(cols, rgs, cgs, value)
    ensures |rgs| <= |Split(rk)|
  {
    var keys := PivotKeys(cols, rgs, cgs, value);
    var i :| 0 <= i < |keys| && keys[i].0 == rk;
    var ridx := ColumnIndexes(cols, rgs).value;
    SplitJoinKeyLength(Tuple(cols, ridx, i));
  }

  /** The texts of the named columns at one row. */
  function GroupTexts(cols: seq<Column>, names: seq<string>, i: nat): (r: seq<string>)
    requires ColumnIndexes(cols, names).Ok? && Readable(cols, ColumnIndexes(cols, names).value, RowCount(cols))
    requires i < RowCount(cols)
    ensures |r| == |names|
    ensures forall k :: 0 <= k < |names| ==> r[k] == cols[ColumnIndex(cols, names[k]).value].TextAt(i)
  {
    Tuple(cols, ColumnIndexes(cols, names).value, i)
  }

  /**
   * A row key is the texts of the row groups at some row, joined; when none
   * of those texts holds a `|`, splitting it gives those texts back, so the
   * row group cells are the row's own texts.
   */
  lemma RowKeyPieces(cols: seq<Column>, rgs: seq<string>, cgs: seq<string>, value: string, rk: string)
    requires Found(cols, rgs, cgs, value) && rk in RowKeyList(cols, rgs, cgs, value)
    ensures exists i :: (
      && 0 <= i < RowCount(cols)
      && rk == JoinKey(GroupTexts(cols, rgs, i))
      && (|rgs| >= 1 && (forall k :: 0 <= k < |rgs| ==> NoBar(GroupTexts(cols, rgs, i)[k])) ==> Split(rk) == GroupTexts(cols, rgs, i)))
  {
    var keys := PivotKeys(cols, rgs, cgs, value);
    var i :| 0 <= i < |keys| && keys[i].0 == rk;
    var parts := GroupTexts(cols, rgs, i);
    assert rk == JoinKey(parts);
    if |rgs| >= 1 && (forall k :: 0 <= k < |rgs| ==> NoBar(parts[k])) {
      SplitJoinKey(parts);
    }
  }

  /**
   * A value cell: the aggregate over the rows with that row key and column
   * key, all of them in ascending order, or 0 when no row has both.
   */
  lemma CellMeaning(cols: seq<Column>, rgs: seq<string>, cgs: seq<string>, value: string, agg: AggregationType,
                    rk: string, ck: string)
    requires Found(cols, rgs, cgs, value) && rk in RowKeyList(cols, rgs, cgs, value)
    ensures var keys := PivotKeys(cols, rgs, cgs, value);
      CellResult(cols[ColumnIndex(cols, value).value], NestedIndex(keys)[rk], ck, agg) ==
        if (rk, ck) in keys then AggregateOf(agg, cols[ColumnIndex(cols, value).value], Positions(keys, (rk, ck)))
        else Ok(Floats.Zero)
  {
    NestedSecond(PivotKeys(cols, rgs, cgs, value), rk, ck);
  }

  /**
   * Summing an integer, timestamp or float value column that has every row
   * below `len` never fails, whatever the groups.
   */
  lemma SumNumericPivotOk(cols: seq<Column>, rgs: seq<string>, cgs: seq<string>, value: string)
    requires Found(cols, rgs, cgs, value)
    requires var col := cols[ColumnIndex(cols, value).value]; !col.StringColumn? && RowCount(cols) <= col.Len()
    ensures AggregatesOk(cols[ColumnIndex(cols, value).value], NestedIndex(PivotKeys(cols, rgs, cgs, value)),
                         ColKeys(cols, rgs, cgs, value), Sum, RowKeyList(cols, rgs, cgs, value))
  {
    var col := cols[ColumnIndex(cols, value).value];
    var keys := PivotKeys(cols, rgs, cgs, value);
    var g := NestedIndex(keys);
    var cks := ColKeys(cols, rgs, cgs, value);
    var rks := RowKeyList(cols, rgs, cgs, value);
    assert |keys| <= col.Len();
    forall t | 0 <= t < |rks|
      ensures rks[t] in g && CellResults(col, g[rks[t]], cks, Sum).Ok?
    {
      var inner := g[rks[t]];
      forall ck | ck in inner ensures forall j :: 0 <= j < |inner[ck]| ==> inner[ck][j] < col.Len() {
        NestedRowsBelow(keys, rks[t], ck);
      }
      SumNumericCells(col, inner, cks);
    }
  }

  /** Every position filed in the nested index is a position of the keys. */
  lemma NestedRowsBelow<A(!new), B(!new)>(keys: seq<(A, B)>, a: A, b: B)
    requires a in NestedIndex(keys) && b in NestedIndex(keys)[a]
    ensures forall j :: 0 <= j < |NestedIndex(keys)[a][b]| ==> NestedIndex(keys)[a][b][j] < |keys|
  {
    NestedSecond(keys, a, b);
    var ps := NestedIndex(keys)[a][b];
    forall j | 0 <= j < |ps| ensures ps[j] < |keys| {
      assert ps[j] in Positions(keys, (a, b));
    }
  }

  /** Once the lookups succeed, `pivot` adds the schema and, if no name clashes, pushes a row per sorted row key. */
  lemma PivotOfFound(cols: seq<Column>, rgs: seq<string>, cgs: seq<string>, value: string, agg: AggregationType)
    requires Found(cols, rgs, cgs, value)
    ensures var cks := ColKeys(cols, rgs, cgs, value);
      PivotSchema(rgs, cks, agg).Err? ==> PivotOf(cols, rgs, cgs, value, agg) == Err(PivotSchema(rgs, cks, agg).error)
    ensures var cks := ColKeys(cols, rgs, cgs, value);
      PivotSchema(rgs, cks, agg).Ok? ==>
        PivotOf(cols, rgs, cgs, value, agg) ==
          PivotRows(cols[ColumnIndex(cols, value).value], NestedIndex(PivotKeys(cols, rgs, cgs, value)), rgs, cks, agg,
                    RowKeyList(cols, rgs, cgs, value), PivotSchema(rgs, cks, agg).value)
  {
    var ridx := ColumnIndexes(cols, rgs).value;
    var cidx := ColumnIndexes(cols, cgs).value;
    ReadableConcat(cols, ridx, cidx, RowCount(cols));
    assert PivotOf(cols, rgs, cgs, value, agg) == PivotGrouped(cols[ColumnIndex(cols, value).value], cols, ridx, cidx, rgs, agg);
  }

  /** Every sorted row key is in the groups and splits into enough pieces. */
  lemma RowKeysSplit(cols: seq<Column>, rgs: seq<string>, cgs: seq<string>, value: string)
    requires Found(cols, rgs, cgs, value)
    ensures var rks := RowKeyList(cols, rgs, cgs, value);
      forall t :: 0 <= t < |rks| ==> rks[t] in NestedIndex(PivotKeys(cols, rgs, cgs, value)) && |rgs| <= |Split(rks[t])|
  {
    var rks := RowKeyList(cols, rgs, cgs, value);
    forall t | 0 <= t < |rks| ensures |rgs| <= |Split(rks[t])| {
      RowKeySplits(cols, rgs, cgs, value, rks[t]);
    }
  }

  /** The names `pivot` adds, in order: the row groups, then a value column name per column key. */
  ghost function OutputNames(cols: seq<Column>, rgs: seq<string>, cgs: seq<string>, value: string, agg: AggregationType)
    : (r: seq<string>)
    requires Found(cols, rgs, cgs, value)
    ensures r == Names(Requested(rgs, ColKeys(cols, rgs, cgs, value), agg))
  {
    RequestedNames(rgs, ColKeys(cols, rgs, cgs, value), agg);
    rgs + Headers(ColKeys(cols, rgs, cgs, value), agg)
  }

  /**
   * Once the lookups succeed, `pivot` fails exactly when the names it adds
   * do not all differ, or some value cell's aggregate fails; a clash fails
   * it on the first name that repeats an earlier one, before any aggregate.
   */
  lemma PivotClash(cols: seq<Column>, rgs: seq<string>, cgs: seq<string>, value: string, agg: AggregationType)
    requires Found(cols, rgs, cgs, value)
    ensures var names := OutputNames(cols, rgs, cgs, value, agg);
      !Distinct(names) <==> FirstRepeat(names) < |names|
    ensures var names := OutputNames(cols, rgs, cgs, value, agg);
      FirstRepeat(names) < |names| ==> PivotOf(cols, rgs, cgs, value, agg) == Err(DuplicateColumn(names[FirstRepeat(names)]))
    ensures var r := PivotOf(cols, rgs, cgs, value, agg);
      r.Err? && r.error.DuplicateColumn? <==> !Distinct(OutputNames(cols, rgs, cgs, value, agg))
  {
    var cks := ColKeys(cols, rgs, cgs, value);
    FirstRepeatDistinct(OutputNames(cols, rgs, cgs, value, agg));
    PivotSchemaOutcome(rgs, cks, agg);
    PivotOfFound(cols, rgs, cgs, value, agg);
    if Distinct(OutputNames(cols, rgs, cgs, value, agg)) {
      RowKeysSplit(cols, rgs, cgs, value);
      PivotRowsErrorKind(cols[ColumnIndex(cols, value).value], NestedIndex(PivotKeys(cols, rgs, cgs, value)), rgs, cks, agg,
                         RowKeyList(cols, rgs, cgs, value), Requested(rgs, cks, agg));
    }
  }

  /**
   * Once the lookups succeed and the names `pivot` adds all differ, it
   * succeeds exactly when every value cell's aggregate does; it then gives
   * the row-group text columns and one float column per column key in
   * ascending order, with one row per row key in ascending order.
   */
  lemma PivotClean(cols: seq<Column>, rgs: seq<string>, cgs: seq<string>, value: string, agg: AggregationType)
    requires Found(cols, rgs, cgs, value)
    ensures var col := cols[ColumnIndex(cols, value).value];
      var g := NestedIndex(PivotKeys(cols, rgs, cgs, value));
      Distinct(OutputNames(cols, rgs, cgs, value, agg)) ==>
        (PivotOf(cols, rgs, cgs, value, agg).Ok? <==>
           AggregatesOk(col, g, ColKeys(cols, rgs, cgs, value), agg, RowKeyList(cols, rgs, cgs, value)))
    ensures var col := cols[ColumnIndex(cols, value).value];
      var g := NestedIndex(PivotKeys(cols, rgs, cgs, value));
      var cks := ColKeys(cols, rgs, cgs, value);
      var rks := RowKeyList(cols, rgs, cgs, value);
      PivotOf(cols, rgs, cgs, value, agg).Ok? ==>
        && Distinct(OutputNames(cols, rgs, cgs, value, agg))
        && RowsOk(col, g, rgs, cks, agg, rks)
        && PivotOf(cols, rgs, cgs, value, agg).value == Tabulate(Requested(rgs, cks, agg), PivotBody(col, g, rgs, cks, agg, rks))
  {
    var col := cols[ColumnIndex(cols, value).value];
    var g := NestedIndex(PivotKeys(cols, rgs, cgs, value));
    var cks := ColKeys(cols, rgs, cgs, value);
    var rks := RowKeyList(cols, rgs, cgs, value);
    PivotSchemaOutcome(rgs, cks, agg);
    PivotOfFound(cols, rgs, cgs, value, agg);
    if Distinct(rgs + Headers(cks, agg)) {
      RowKeysSplit(cols, rgs, cgs, value);
      PivotRowsOk(col, g, rgs, cks, agg, rks, Requested(rgs, cks, agg));
      if AggregatesOk(col, g, cks, agg, rks) {
        SortedDistinct(cks);
        CleanDistinct(rgs, cks, agg);
        PivotRowsClean(col, g, rgs, cks, agg, rks);
      }
    }
  }

  /** A successful `pivot` names its columns as requested: the row groups, then a header per column key. */
  lemma PivotNames(cols: seq<Column>, rgs: seq<string>, cgs: seq<string>, value: string, agg: AggregationType)
    requires Found(cols, rgs, cgs, value)
    ensures PivotOf(cols, rgs, cgs, value, agg).Ok? ==>
      Names(PivotOf(cols, rgs, cgs, value, agg).value) == OutputNames(cols, rgs, cgs, value, agg)
  {
    PivotClean(cols, rgs, cgs, value, agg);
    if PivotOf(cols, rgs, cgs, value, agg).Ok? {
      var r := PivotOf(cols, rgs, cgs, value, agg).value;
      var req := Requested(rgs, ColKeys(cols, rgs, cgs, value), agg);
      assert SameSchema(r, req);
      assert Names(r) == Names(req);
    }
  }

  /**
   * Cell t of output column c of a successful `pivot`: for a row-group
   * column, that group's piece of the t-th row key; for a value column, the
   * aggregate over the rows with the t-th row key and that column key, or 0
   * when no row has both.
   */
  lemma PivotCell(cols: seq<Column>, rgs: seq<string>, cgs: seq<string>, value: string, agg: AggregationType, t: nat, c: nat)
    requires Found(cols, rgs, cgs, value) && PivotOf(cols, rgs, cgs, value, agg).Ok?
    requires t < |RowKeyList(cols, rgs, cgs, value)| && c < |rgs| + |ColKeys(cols, rgs, cgs, value)|
    ensures var r := PivotOf(cols, rgs, cgs, value, agg).value;
      |r| == |rgs| + |ColKeys(cols, rgs, cgs, value)| && r[c].Len() == |RowKeyList(cols, rgs, cgs, value)|
    ensures var r := PivotOf(cols, rgs, cgs, value, agg).value;
      var rk := RowKeyList(cols, rgs, cgs, value)[t];
      c < |rgs| ==> |rgs| <= |Split(rk)| && r[c].Cell(t) == Text(RowGroupText(rgs, rk, c))
    ensures var r := PivotOf(cols, rgs, cgs, value, agg).value;
      var keys := PivotKeys(cols, rgs, cgs, value);
      var rk := RowKeyList(cols, rgs, cgs, value)[t];
      |rgs| <= c ==>
        var ck := ColKeys(cols, rgs, cgs, value)[c - |rgs|];
        && r[c].Cell(t).Float?
        && Ok(r[c].Cell(t).f) ==
             if (rk, ck) in keys then AggregateOf(agg, cols[ColumnIndex(cols, value).value], Positions(keys, (rk, ck)))
             else Ok(Floats.Zero)
  {
    var col := cols[ColumnIndex(cols, value).value];
    var g := NestedIndex(PivotKeys(cols, rgs, cgs, value));
    var cks := ColKeys(cols, rgs, cgs, value);
    var rks := RowKeyList(cols, rgs, cgs, value);
    PivotClean(cols, rgs, cgs, value, agg);
    BodyCell(col, g, rgs, cks, agg, rks, t, c);
    if |rgs| <= c {
      CellMeaning(cols, rgs, cgs, value, agg, rks[t], cks[c - |rgs|]);
    }
  }

  /** Cell t of column c of the rows pushed onto the empty requested columns. */
  lemma BodyCell(col: Column, g: map<string, map<string, seq<nat>>>, rgs: seq<string>, cks: seq<string>,
                 agg: AggregationType, rks: seq<string>, t: nat, c: nat)
    requires RowsOk(col, g, rgs, cks, agg, rks) && t < |rks| && c < |rgs| + |cks|
    ensures var r := Tabulate(Requested(rgs, cks, agg), PivotBody(col, g, rgs, cks, agg, rks));
      |r| == |rgs| + |cks| && r[c].Len() == |rks|
    ensures var r := Tabulate(Requested(rgs, cks, agg), PivotBody(col, g, rgs, cks, agg, rks));
      c < |rgs| ==> |rgs| <= |Split(rks[t])| && r[c].Cell(t) == Text(RowGroupText(rgs, rks[t], c))
    ensures var r := Tabulate(Requested(rgs, cks, agg), PivotBody(col, g, rgs, cks, agg, rks));
      |rgs| <= c ==> r[c].Cell(t).Float? && Ok(r[c].Cell(t).f) == CellResult(col, g[rks[t]], cks[c - |rgs|], agg)
  {
    var body := PivotBody(col, g, rgs, cks, agg, rks);
    var req := Requested(rgs, cks, agg);
    assert req[c].Len() == 0;
    var r := Tabulate(req, body);
    assert r[c].Cell(req[c].Len() + t) == body[t][c];
    if |rgs| <= c {
      CellResultsOk(col, g[rks[t]], cks, agg);
    }
  }
}
