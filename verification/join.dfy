/**
 * `join`: an inner hash join on a tuple of key columns. The output has one
 * text column per distinct column name of either table; each pair of a left
 * row and a right row with equal key tuples gives one output row, where a
 * column the left table has takes the left row's text and any other column
 * the right row's text.
 */
module Join {
  import opened Wrappers
  import opened Columns
  import opened KeyIndexes
  import opened Tables

  /** Every column of either table has a row at each position below that table's `len`. */
  predicate Joinable(l: seq<Column>, r: seq<Column>)
  {
    Filled(l) && Filled(r)
  }

  /**
   * `len` follows the first column only, so a later column longer than the
   * first is no obstacle to the join.
   */
  lemma JoinLaterLongerColumn()
    ensures var l := [StringColumn("a", ["1"]), StringColumn("b", ["x", "y"])];
      !Rectangular(l) && Joinable(l, [StringColumn("a", ["1"])])
  {
    var l := [StringColumn("a", ["1"]), StringColumn("b", ["x", "y"])];
    assert l[1].Len() == 2 && l[0].Len() == 1 && RowCount(l) == 1;
    assert RowCount([StringColumn("a", ["1"])]) == 1;
  }

  /** The key tuple of every row of a table, for key columns that all exist. */
  function Keys(cols: seq<Column>, on: seq<string>): (r: seq<seq<string>>)
    requires Filled(cols) && ColumnIndexes(cols, on).Ok?
    ensures |r| == RowCount(cols)
  {
    ColumnIndexesReadable(cols, on);
    Tuples(cols, ColumnIndexes(cols, on).value, RowCount(cols))
  }

  /** The matched (left row, right row) pairs in output order. */
  function Matches(l: seq<Column>, r: seq<Column>, on: seq<string>): (ps: seq<(nat, nat)>)
    requires Joinable(l, r) && ColumnIndexes(l, on).Ok? && ColumnIndexes(r, on).Ok?
    ensures forall p :: p in ps ==> p.0 < RowCount(l) && p.1 < RowCount(r)
  {
    JoinPairs(Keys(l, on), Keys(r, on))
  }

  /**
   * The text an output column gets for a matched pair (i, j): from the
   * left table if it has a column of that name, else from the right table.
   */
  function JoinText(l: seq<Column>, r: seq<Column>, name: string, i: nat, j: nat): string
    requires Joinable(l, r) && i < RowCount(l) && j < RowCount(r)
  {
    match ColumnIndex(l, name)
    case Some(c) => l[c].TextAt(i)
    case None =>
      match ColumnIndex(r, name)
      case Some(c) => r[c].TextAt(j)
      case None => ""
  }

  /** The text of one output row. */
  function JoinRow(l: seq<Column>, r: seq<Column>, names: seq<string>, p: (nat, nat)): (row: seq<string>)
    requires Joinable(l, r) && p.0 < RowCount(l) && p.1 < RowCount(r)
    ensures |row| == |names| && forall c :: 0 <= c < |names| ==> row[c] == JoinText(l, r, names[c], p.0, p.1)
  {
    seq(|names|, c requires 0 <= c < |names| => JoinText(l, r, names[c], p.0, p.1))
  }

  /** Every pair names a row of each table. */
  predicate InRange(l: seq<Column>, r: seq<Column>, ps: seq<(nat, nat)>)
  {
    forall q :: q in ps ==> q.0 < RowCount(l) && q.1 < RowCount(r)
  }

  /** The texts of the output rows for the given pairs. */
  function JoinRows(l: seq<Column>, r: seq<Column>, names: seq<string>, ps: seq<(nat, nat)>): (rows: seq<seq<string>>)
    requires Joinable(l, r) && InRange(l, r, ps)
    ensures |rows| == |ps| && forall t :: 0 <= t < |ps| ==> rows[t] == JoinRow(l, r, names, ps[t])
  {
    seq(|ps|, t requires 0 <= t < |ps| => JoinRow(l, r, names, ps[t]))
  }

  /** The output columns for the given pairs, in the given column order. */
  function Output(l: seq<Column>, r: seq<Column>, names: seq<string>, ps: seq<(nat, nat)>): seq<Column>
    requires Joinable(l, r) && InRange(l, r, ps)
  {
    Tabulate(StringSchema(names), TextRows(JoinRows(l, r, names, ps)))
  }

  /** The output columns of the join, for a given order of the output column names. */
  function JoinOutput(l: seq<Column>, r: seq<Column>, on: seq<string>, names: seq<string>): seq<Column>
    requires Joinable(l, r) && ColumnIndexes(l, on).Ok? && ColumnIndexes(r, on).Ok?
  {
    Output(l, r, names, Matches(l, r, on))
  }

  /** Pushing the row map of one more pair extends the output by that pair's row. */
  lemma PushMatch(l: seq<Column>, r: seq<Column>, names: seq<string>, ps: seq<(nat, nat)>, p: (nat, nat),
                  row: map<string, string>)
    requires Joinable(l, r) && InRange(l, r, ps)
    requires p.0 < RowCount(l) && p.1 < RowCount(r)
    requires MapsTo(row, names, JoinRow(l, r, names, p))
    ensures InRange(l, r, ps + [p])
    ensures RowFits(Output(l, r, names, ps), row)
    ensures AppendRow(Output(l, r, names, ps), row) == Output(l, r, names, ps + [p])
  {
    assert JoinRows(l, r, names, ps + [p]) == JoinRows(l, r, names, ps) + [JoinRow(l, r, names, p)];
    PushTextRow(names, JoinRows(l, r, names, ps), row, JoinRow(l, r, names, p));
  }

  /** Each distinct name of either table, once, in an order left open, as a hash set's is. */
  method CollectNames(l: seq<Column>, r: seq<Column>) returns (names: seq<string>)
    ensures Distinct(names)
    ensures forall n :: n in names <==> n in Names(l) || n in Names(r)
  {
    var all: set<string> := {};
    for i := 0 to |l|
      invariant forall n :: n in all <==> exists k :: 0 <= k < i && l[k].name == n
    {
      all := all + {l[i].name};
    }
    for i := 0 to |r|
      invariant forall n :: n in all <==> (exists k :: 0 <= k < |l| && l[k].name == n) || (exists k :: 0 <= k < i && r[k].name == n)
    {
      all := all + {r[i].name};
    }
    names := [];
    var rest := all;
    while rest != {}
      invariant rest <= all
      invariant Distinct(names)
      invariant forall n :: n in names <==> n in all && n !in rest
      decreases rest
    {
      var n :| n in rest;
      names := names + [n];
      rest := rest - {n};
    }
    forall n ensures n in Names(l) <==> exists k :: 0 <= k < |l| && l[k].name == n {
      if n in Names(l) {
        var k :| 0 <= k < |l| && Names(l)[k] == n;
      }
    }
    forall n ensures n in Names(r) <==> exists k :: 0 <= k < |r| && r[k].name == n {
      if n in Names(r) {
        var k :| 0 <= k < |r| && Names(r)[k] == n;
      }
    }
  }

  /** The row map gives each name the text at the same position. */
  predicate MapsTo(row: map<string, string>, names: seq<string>, texts: seq<string>)
    requires |texts| == |names|
  {
    forall c :: 0 <= c < |names| ==> names[c] in row && row[names[c]] == texts[c]
  }

  /** Filing the next name's text keeps the earlier names' texts, the names being distinct. */
  lemma MapsToSnoc(row: map<string, string>, names: seq<string>, texts: seq<string>, c: nat)
    requires |texts| == |names| && c < |names| && Distinct(names)
    requires MapsTo(row, names[..c], texts[..c])
    ensures MapsTo(row[names[c] := texts[c]], names[..c + 1], texts[..c + 1])
  {
  }

  /** The row map for one matched pair: every output column's text. */
  method RowMap(l: seq<Column>, r: seq<Column>, names: seq<string>, i: nat, j: nat) returns (row: map<string, string>)
    requires Joinable(l, r) && i < RowCount(l) && j < RowCount(r)
    requires Distinct(names) && forall n :: n in names ==> n in Names(l) || n in Names(r)
    ensures MapsTo(row, names, JoinRow(l, r, names, (i, j)))
  {
    ghost var texts := JoinRow(l, r, names, (i, j));
    row := map[];
    for c := 0 to |names|
      invariant MapsTo(row, names[..c], texts[..c])
    {
      var name := names[c];
      assert name in names;
      var text: string;
      var li := ColumnIndex(l, name);
      if li.Some? {
        text := l[li.value].TextAt(i);
      } else {
        var ri := ColumnIndex(r, name);
        if ri.Some? {
          text := r[ri.value].TextAt(j);
        } else {
          assert false;
        }
      }
      assert text == texts[c];
      MapsToSnoc(row, names, texts, c);
      row := row[name := text];
    }
    assert names[..|names|] == names && texts[..|names|] == texts;
  }

  /** The header loop: one empty text column per name, in order. */
  method AddHeader(result: Table, names: seq<string>)
    requires result.columns == [] && Distinct(names)
    modifies result
    ensures result.columns == StringSchema(names)
  {
    for c := 0 to |names|
      invariant result.columns == StringSchema(names[..c])
    {
      assert Names(StringSchema(names[..c])) == names[..c];
      assert names[c] !in names[..c];
      assert StringSchema(names[..c + 1]) == StringSchema(names[..c]) + [NewStringColumn(names[c])];
      var _ := result.AddColumn(NewStringColumn(names[c]));
    }
    assert names[..|names|] == names;
  }

  /** The loop over one left row's matches: one pushed row per right row, in bucket order. */
  method PushMatches(result: Table, l: seq<Column>, r: seq<Column>, names: seq<string>, i: nat, rows: seq<nat>,
                     ghost ps: seq<(nat, nat)>)
    requires Joinable(l, r) && InRange(l, r, ps) && i < RowCount(l)
    requires forall t :: 0 <= t < |rows| ==> rows[t] < RowCount(r)
    requires Distinct(names) && forall n :: n in names ==> n in Names(l) || n in Names(r)
    requires result.columns == Output(l, r, names, ps)
    modifies result
    ensures InRange(l, r, ps + Pairs(i, rows))
    ensures result.columns == Output(l, r, names, ps + Pairs(i, rows))
  {
    ghost var qs := ps;
    assert ps + Pairs(i, rows[..0]) == ps;
    for t := 0 to |rows|
      invariant qs == ps + Pairs(i, rows[..t])
      invariant InRange(l, r, qs)
      invariant result.columns == Output(l, r, names, qs)
    {
      var row := RowMap(l, r, names, i, rows[t]);
      PushMatch(l, r, names, qs, (i, rows[t]), row);
      var _ := result.PushRowStr(row);
      PairsSnoc(ps, i, rows, t);
      qs := qs + [(i, rows[t])];
    }
    assert rows[..|rows|] == rows;
  }

  /**
   * `join`. The key columns are looked up in the left table, then the
   * right table is indexed on them; a key column missing from either fails
   * the call. Every matched pair, in left-row order and then in the order of
   * the right index's bucket, pushes one row.
   */
  method Join(left: Table, right: Table, on: seq<string>) returns (res: Result<Table>)
    requires Joinable(left.columns, right.columns)
    ensures ColumnIndexes(left.columns, on).Err? ==> res == Err(ColumnIndexes(left.columns, on).error)
    ensures ColumnIndexes(left.columns, on).Ok? && ColumnIndexes(right.columns, on).Err? ==>
      res == Err(ColumnIndexes(right.columns, on).error)
    ensures ColumnIndexes(left.columns, on).Ok? && ColumnIndexes(right.columns, on).Ok? ==> res.Ok? && fresh(res.value)
    ensures res.Ok? ==> ColumnIndexes(left.columns, on).Ok? && ColumnIndexes(right.columns, on).Ok?
    ensures res.Ok? ==>
      var names := Names(res.value.columns);
      && Distinct(names)
      && (forall n :: n in names <==> n in Names(left.columns) || n in Names(right.columns))
      && res.value.columns == JoinOutput(left.columns, right.columns, on, names)
  {
    var l := left.columns;
    var r := right.columns;
    var lidxs := ColumnIndexes(l, on);
    if lidxs.Err? {
      return Err(lidxs.error);
    }
    var rindex := right.CreateMultiIndex(on);
    if rindex.Err? {
      return Err(rindex.error);
    }
    var names := CollectNames(l, r);
    var result := new Table();
    AddHeader(result, names);
    ColumnIndexesReadable(r, on);
    JoinLoop(result, l, r, on, names, lidxs.value, rindex.value);
    assert Names(result.columns) == names;
    res := Ok(result);
  }

  /** The loop over the left rows, filling a table that holds only the header. */
  method JoinLoop(result: Table, l: seq<Column>, r: seq<Column>, on: seq<string>, names: seq<string>,
                  lidxs: seq<nat>, rindex: map<seq<string>, seq<nat>>)
    requires Joinable(l, r) && ColumnIndexes(l, on) == Ok(lidxs) && ColumnIndexes(r, on).Ok?
    requires rindex == KeyIndex(Keys(r, on))
    requires Distinct(names) && forall n :: n in names ==> n in Names(l) || n in Names(r)
    requires result.columns == StringSchema(names)
    modifies result
    ensures result.columns == JoinOutput(l, r, on, names)
  {
    ghost var lkeys := Keys(l, on);
    ghost var rkeys := Keys(r, on);
    ColumnIndexesReadable(l, on);
    assert Output(l, r, names, []) == StringSchema(names);
    for i := 0 to RowCount(l)
      invariant InRange(l, r, JoinPairs(lkeys[..i], rkeys))
      invariant result.columns == Output(l, r, names, JoinPairs(lkeys[..i], rkeys))
    {
      var key := Tuple(l, lidxs, i);
      assert key == lkeys[i];
      JoinPairsStep(lkeys, rkeys, rindex, i);
      if key in rindex {
        PushMatches(result, l, r, names, i, rindex[key], JoinPairs(lkeys[..i], rkeys));
      }
    }
    assert lkeys[..RowCount(l)] == lkeys;
  }

  // ---------------------------------------------------------------------------
  // What the output holds

  /**
   * A pair of rows is matched exactly when their key tuples are equal; the
   * pairs come by left row, then by right row, so none is repeated; there
   * are as many as there are (left row, equal right row) combinations.
   */
  lemma MatchesExact(l: seq<Column>, r: seq<Column>, on: seq<string>, i: nat, j: nat)
    requires Joinable(l, r) && ColumnIndexes(l, on).Ok? && ColumnIndexes(r, on).Ok?
    ensures (i, j) in Matches(l, r, on) <==> i < RowCount(l) && j < RowCount(r) && Keys(l, on)[i] == Keys(r, on)[j]
    ensures PairsOrdered(Matches(l, r, on))
    ensures |Matches(l, r, on)| == MatchTotal(Keys(l, on), Keys(r, on))
  {
    var lkeys := Keys(l, on);
    var rkeys := Keys(r, on);
    if i < |lkeys| && j < |rkeys| && lkeys[i] == rkeys[j] {
      JoinPairsComplete(lkeys, rkeys, i, j);
    }
    JoinPairsOrdered(lkeys, rkeys);
    JoinPairsCount(lkeys, rkeys);
  }

  /**
   * The output has one text column per name, in the given order, each with
   * one row per matched pair.
   */
  lemma JoinShape(l: seq<Column>, r: seq<Column>, on: seq<string>, names: seq<string>)
    requires Joinable(l, r) && ColumnIndexes(l, on).Ok? && ColumnIndexes(r, on).Ok?
    ensures var out := JoinOutput(l, r, on, names);
      && Names(out) == names
      && (forall c :: 0 <= c < |out| ==> out[c].StringColumn? && out[c].Len() == |Matches(l, r, on)|)
      && Rectangular(out)
      && (names != [] ==> RowCount(out) == |Matches(l, r, on)|)
  {
    var out := JoinOutput(l, r, on, names);
    forall c | 0 <= c < |out| ensures out[c].StringColumn? {
      assert out[c].SameKind(StringSchema(names)[c]);
    }
  }

  /** Row t of output column c holds the text that column's name takes for the t-th matched pair. */
  lemma JoinCell(l: seq<Column>, r: seq<Column>, on: seq<string>, names: seq<string>, c: nat, t: nat)
    requires Joinable(l, r) && ColumnIndexes(l, on).Ok? && ColumnIndexes(r, on).Ok?
    requires c < |names| && t < |Matches(l, r, on)|
    ensures var p := Matches(l, r, on)[t];
      JoinOutput(l, r, on, names)[c].GetAsString(t) == Some(JoinText(l, r, names[c], p.0, p.1))
  {
    var ps := Matches(l, r, on);
    var rows := JoinRows(l, r, names, ps);
    assert rows[t] == JoinRow(l, r, names, ps[t]);
    TextCell(names, rows, c, t);
  }

  /**
   * Where each output text comes from: a name the left table has takes the
   * left row's text in that table's first column of the name, even when the
   * right table has the name too; any other name takes the right row's text.
   */
  lemma JoinTextSource(l: seq<Column>, r: seq<Column>, name: string, i: nat, j: nat, c: nat)
    requires Joinable(l, r) && i < RowCount(l) && j < RowCount(r)
    ensures DistinctNames(l) && c < |l| && l[c].name == name ==> JoinText(l, r, name, i, j) == l[c].TextAt(i)
    ensures name !in Names(l) && DistinctNames(r) && c < |r| && r[c].name == name ==>
      JoinText(l, r, name, i, j) == r[c].TextAt(j)
  {
    if DistinctNames(l) && c < |l| && l[c].name == name {
      ColumnIndexExact(l, name, c);
    }
    if name !in Names(l) && DistinctNames(r) && c < |r| && r[c].name == name {
      ColumnIndexExact(r, name, c);
    }
  }
}
