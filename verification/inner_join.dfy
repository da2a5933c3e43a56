/**
 * `inner_join`: as written, it looks up only left row 0's key in the right
 * table's index, and pushes its rows into a table that was never given any
 * columns, so the result is always a table without columns.
 */
module InnerJoin {
  import opened Wrappers
  import opened Columns
  import opened KeyIndexes
  import opened Tables
  import Join

  /**
   * The failure `inner_join` stops with, if any, in the order the source
   * meets them: the left key column, the right index (a missing column, or
   * a right key column shorter than the right table's `len`), row 0 of the
   * left key column, and row 0 of every left column once a match is found.
   */
  function InnerJoinError(l: seq<Column>, r: seq<Column>, on: string): (e: Option<Error>)
    ensures e.Some? && (on !in Names(l) || on !in Names(r)) ==> e == Some(ColumnNotFound(on))
    ensures on in Names(l) && on in Names(r) && e.Some? ==> e.value.RowOutOfRange?
    ensures on in Names(l) && IndexOn(r, on).Err? ==> e == Some(IndexOn(r, on).error)
    ensures on in Names(l) && IndexOn(r, on).Ok? && l[ColumnIndex(l, on).value].Len() == 0 ==> e == Some(RowOutOfRange(0))
    ensures (forall c :: 0 <= c < |l| ==> l[c].Len() > 0) && on in Names(l) && IndexOn(r, on).Ok? ==> e.None?
  {
    match ColumnIndex(l, on)
    case None => Some(ColumnNotFound(on))
    case Some(li) =>
      match IndexOn(r, on)
      case Err(e) => Some(e)
      case Ok(m) =>
        if l[li].Len() == 0 then Some(RowOutOfRange(0))
        else if l[li].TextAt(0) in m && exists c :: 0 <= c < |l| && l[c].Len() == 0 then Some(RowOutOfRange(0))
        else None
  }

  /** The row map built for each match: every left column's text at row 0. */
  method RowZero(l: seq<Column>) returns (res: Result<map<string, string>>)
    ensures res.Err? <==> exists c :: 0 <= c < |l| && l[c].Len() == 0
    ensures res.Err? ==> res.error == RowOutOfRange(0)
    ensures res.Ok? ==> forall c :: 0 <= c < |l| ==> l[c].name in res.value
  {
    var row: map<string, string> := map[];
    for c := 0 to |l|
      invariant forall d :: 0 <= d < c ==> l[d].Len() > 0
      invariant forall d :: 0 <= d < c ==> l[d].name in row
    {
      var col := l[c];
      if col.Len() == 0 {
        assert l[c].Len() == 0;
        return Err(RowOutOfRange(0));
      }
      var text := FirstText(col);
      row := row[col.name := text];
    }
    res := Ok(row);
  }

  /** `get_as_string(0)` of a column that has a row. */
  method FirstText(col: Column) returns (text: string)
    requires col.Len() > 0
    ensures text == col.TextAt(0)
  {
    text := col.TextAt(0);
  }

  /** The loop over the matches: a row map per match, pushed into the table without columns. */
  method PushEach(result: Table, l: seq<Column>, n: nat) returns (r: Outcome)
    requires result.columns == []
    modifies result
    ensures r.Fail? <==> n > 0 && exists c :: 0 <= c < |l| && l[c].Len() == 0
    ensures r.Fail? ==> r.error == RowOutOfRange(0)
    ensures result.columns == []
  {
    for t := 0 to n
      invariant result.columns == []
      invariant t > 0 ==> forall c :: 0 <= c < |l| ==> l[c].Len() > 0
    {
      var row := RowZero(l);
      if row.Err? {
        return Fail(row.error);
      }
      var _ := result.PushRowStr(row.value);
    }
    r := Pass;
  }

  /**
   * `inner_join`. The key column is looked up in the left table, then the
   * right table is indexed on it; row 0 of the left key column is read; for
   * each right row holding that text a row map is built and pushed into a
   * result table that has no columns, which changes nothing.
   */
  method InnerJoin(left: Table, right: Table, on: string) returns (res: Result<Table>)
    ensures res.Err? <==> InnerJoinError(left.columns, right.columns, on).Some?
    ensures res.Err? ==> res.error == InnerJoinError(left.columns, right.columns, on).value
    ensures res.Ok? ==> fresh(res.value) && res.value.columns == []
  {
    var li := ColumnIndex(left.columns, on);
    if li.None? {
      return Err(ColumnNotFound(on));
    }
    var rindex := right.CreateIndex(on);
    if rindex.Err? {
      return Err(rindex.error);
    }
    var keyCol := left.columns[li.value];
    if keyCol.Len() == 0 {
      return Err(RowOutOfRange(0));
    }
    var key := FirstText(keyCol);
    InnerJoinErrorAt(left.columns, right.columns, on, li.value, key, rindex.value);
    var result := new Table();
    if key in rindex.value {
      var pushed := PushEach(result, left.columns, |rindex.value[key]|);
      if pushed.Fail? {
        return Err(pushed.error);
      }
    }
    res := Ok(result);
  }

  /** Once both lookups and the right index succeed and the left key column has a row 0, the failure depends on the matches alone. */
  lemma InnerJoinErrorAt(l: seq<Column>, r: seq<Column>, on: string, li: nat, key: string, m: map<string, seq<nat>>)
    requires ColumnIndex(l, on) == Some(li) && IndexOn(r, on) == Ok(m)
    requires l[li].Len() > 0 && key == l[li].TextAt(0)
    ensures InnerJoinError(l, r, on) ==
      if key in m && exists c :: 0 <= c < |l| && l[c].Len() == 0 then Some(RowOutOfRange(0)) else None
    ensures key in m ==> |m[key]| > 0
  {
    var ri := ColumnIndex(r, on).value;
    KeyIndexBuckets(r[ri].Texts()[..RowCount(r)]);
  }

  // ---------------------------------------------------------------------------
  // The result never holds the matches

  /** Left row i and right row j, both below their table's `len`, hold the same text in the key column. */
  predicate KeysMeet(l: seq<Column>, r: seq<Column>, on: string, i: nat, j: nat)
  {
    && on in Names(l) && on in Names(r) && i < RowCount(l) && j < RowCount(r)
    && i < l[ColumnIndex(l, on).value].Len() && j < r[ColumnIndex(r, on).value].Len()
    && l[ColumnIndex(l, on).value].TextAt(i) == r[ColumnIndex(r, on).value].TextAt(j)
  }

  /** Rows that meet on the key are a match of the join on that one column. */
  lemma KeysMeetMatch(l: seq<Column>, r: seq<Column>, on: string, i: nat, j: nat)
    requires Join.Joinable(l, r) && KeysMeet(l, r, on, i, j)
    ensures ColumnIndexes(l, [on]).Ok? && ColumnIndexes(r, [on]).Ok?
    ensures (i, j) in Join.Matches(l, r, [on])
  {
    SingleKey(l, on, i);
    SingleKey(r, on, j);
    Join.MatchesExact(l, r, [on], i, j);
  }

  /** With one key column, a row's key tuple is that column's text alone. */
  lemma SingleKey(cols: seq<Column>, on: string, i: nat)
    requires Filled(cols) && on in Names(cols) && i < RowCount(cols)
    ensures ColumnIndexes(cols, [on]).Ok?
    ensures Join.Keys(cols, [on])[i] == [cols[ColumnIndex(cols, on).value].TextAt(i)]
  {
    ColumnIndexesSingle(cols, on);
    var c := ColumnIndex(cols, on).value;
    assert ColumnIndexes(cols, [on]).value == [c];
    assert Join.Keys(cols, [on])[i] == Tuple(cols, [c], i);
  }

  /**
   * Whenever a left row and a right row meet on the key, the join pairs
   * them, yet `inner_join` succeeds with a table without columns or rows.
   */
  lemma InnerJoinDropsMatch(l: seq<Column>, r: seq<Column>, on: string, i: nat, j: nat)
    requires Join.Joinable(l, r) && KeysMeet(l, r, on, i, j)
    ensures ColumnIndexes(l, [on]).Ok? && ColumnIndexes(r, [on]).Ok?
    ensures (i, j) in Join.Matches(l, r, [on])
    ensures InnerJoinError(l, r, on).None?
  {
    KeysMeetMatch(l, r, on, i, j);
    assert l[ColumnIndex(l, on).value].Len() > 0;
    assert forall c :: 0 <= c < |l| ==> l[c].Len() > 0;
  }

  /**
   * The join the name promises: `join` on the one key column, keeping every
   * matched pair of rows.
   */
  method InnerJoinIntended(left: Table, right: Table, on: string) returns (res: Result<Table>)
    requires Join.Joinable(left.columns, right.columns)
    ensures res.Err? <==> on !in Names(left.columns) || on !in Names(right.columns)
    ensures res.Err? ==> res.error == ColumnNotFound(on)
    ensures res.Ok? ==> fresh(res.value)
    ensures res.Ok? ==>
      && ColumnIndexes(left.columns, [on]).Ok? && ColumnIndexes(right.columns, [on]).Ok?
      && res.value.columns == Join.JoinOutput(left.columns, right.columns, [on], Names(res.value.columns))
  {
    ColumnIndexesSingle(left.columns, on);
    ColumnIndexesSingle(right.columns, on);
    res := Join.Join(left, right, [on]);
  }

  /** Where rows meet on the key, the intended join has at least one row. */
  lemma InnerJoinIntendedKeepsMatch(l: seq<Column>, r: seq<Column>, on: string, i: nat, j: nat, names: seq<string>)
    requires Join.Joinable(l, r) && KeysMeet(l, r, on, i, j) && names != []
    ensures ColumnIndexes(l, [on]).Ok? && ColumnIndexes(r, [on]).Ok?
    ensures RowCount(Join.JoinOutput(l, r, [on], names)) >= 1
  {
    InnerJoinDropsMatch(l, r, on, i, j);
    Join.JoinShape(l, r, [on], names);
  }
}
