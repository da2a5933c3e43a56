/**
 * `Table`: an ordered list of columns with unique names. The pure reads
 * (`column_names`, `get_column_index`, `len`) are functions over the column
 * list; `add_column` and `push_row_str` change the table in place.
 */
module Tables {
  import opened Wrappers
  import opened CellValues
  import opened Columns
  import opened KeyIndexes

  // ---------------------------------------------------------------------------
  // Reads

  /** `column_names`: the names in column order. */
  function Names(cols: seq<Column>): (r: seq<string>)
    ensures |r| == |cols| && forall i :: 0 <= i < |cols| ==> r[i] == cols[i].name
  {
    seq(|cols|, i requires 0 <= i < |cols| => cols[i].name)
  }

  predicate Distinct<T(==)>(xs: seq<T>)
  {
    forall i, j :: 0 <= i < j < |xs| ==> xs[i] != xs[j]
  }

  predicate DistinctNames(cols: seq<Column>)
  {
    Distinct(Names(cols))
  }

  /** `get_column_index`: the position of the first column with that name. */
  function ColumnIndex(cols: seq<Column>, name: string): (r: Option<nat>)
    ensures r.Some? ==> r.value < |cols| && cols[r.value].name == name
    ensures r.Some? ==> forall j :: 0 <= j < r.value ==> cols[j].name != name
    ensures r.None? <==> name !in Names(cols)
  {
    if cols == [] then None
    else if cols[0].name == name then Some(0)
    else
      assert forall j :: 1 <= j < |cols| ==> cols[j] == cols[1..][j - 1];
      match ColumnIndex(cols[1..], name)
      case None => None
      case Some(i) => Some(i + 1)
  }

  /** With unique names, a name is found exactly at the column that carries it. */
  lemma ColumnIndexExact(cols: seq<Column>, name: string, i: nat)
    requires DistinctNames(cols)
    ensures ColumnIndex(cols, name) == Some(i) <==> i < |cols| && cols[i].name == name
  {
    if i < |cols| && cols[i].name == name {
      assert Names(cols)[i] == name;
    }
  }

  /** All columns have as many rows as the first one. */
  predicate Rectangular(cols: seq<Column>)
  {
    forall i :: 0 <= i < |cols| ==> cols[i].Len() == cols[0].Len()
  }

  /** Every column has a row at each position below `len`, so no read below `len` runs past a column's end. */
  predicate Filled(cols: seq<Column>)
  {
    forall c :: 0 <= c < |cols| ==> RowCount(cols) <= cols[c].Len()
  }

  /** `len`: 0 without columns, else the length of the first column. */
  function RowCount(cols: seq<Column>): (n: nat)
    ensures cols == [] ==> n == 0
    ensures Rectangular(cols) ==> forall i :: 0 <= i < |cols| ==> cols[i].Len() == n
  {
    if cols == [] then 0 else cols[0].Len()
  }

  /** `add_column` does not compare lengths: a longer first column makes `len` disagree with the second. */
  lemma RowCountIgnoresLaterColumns()
    ensures var cols := [StringColumn("a", ["x"]), NewStringColumn("b")];
      !Rectangular(cols) && RowCount(cols) == 1 && cols[1].Len() == 0
  {
  }

  // ---------------------------------------------------------------------------
  // Adding columns

  /** The effect of `add_column` on the column list: a new name goes last, a taken name is refused. */
  function AppendColumn(cols: seq<Column>, col: Column): (r: Result<seq<Column>>)
    ensures r.Err? <==> col.name in Names(cols)
    ensures r.Err? ==> r.error == DuplicateColumn(col.name)
    ensures r.Ok? ==> |r.value| == |cols| + 1 && r.value[..|cols|] == cols && r.value[|cols|] == col
    ensures r.Ok? && DistinctNames(cols) ==> DistinctNames(r.value)
  {
    if ColumnIndex(cols, col.name).Some? then Err(DuplicateColumn(col.name))
    else
      assert Names(cols + [col]) == Names(cols) + [col.name];
      Ok(cols + [col])
  }

  /** A run of `add_column` calls, stopping at the first refusal. */
  function AddColumns(cols: seq<Column>, news: seq<Column>): (r: Result<seq<Column>>)
    ensures r.Ok? ==> r.value == cols + news
    ensures r.Ok? && DistinctNames(cols) ==> DistinctNames(r.value)
  {
    if news == [] then
      assert cols + news == cols;
      Ok(cols)
    else
      var n := |news| - 1;
      assert cols + news == cols + news[..n] + [news[n]];
      match AddColumns(cols, news[..n])
      case Err(e) => Err(e)
      case Ok(c) => AppendColumn(c, news[n])
  }

  /** Index of the first name that repeats an earlier one, or |names| when all differ. */
  function FirstRepeat(names: seq<string>): (k: nat)
    ensures k <= |names| && Distinct(names[..k])
    ensures k < |names| ==> names[k] in names[..k]
  {
    if names == [] then 0
    else
      var n := |names| - 1;
      assert names[..n][..n] == names[..n];
      var k := FirstRepeat(names[..n]);
      if k < n then
        assert names[..k] == names[..n][..k];
        k
      else if names[n] in names[..n] then n
      else
        assert names[..n + 1] == names;
        assert forall j :: 0 <= j < n ==> names[j] == names[..n][j];
        n + 1
  }

  lemma NamesSnoc(cols: seq<Column>, col: Column)
    ensures Names(cols + [col]) == Names(cols) + [col.name]
  {
  }

  lemma FirstRepeatSnoc(names: seq<string>, x: string)
    ensures FirstRepeat(names + [x]) ==
      if FirstRepeat(names) < |names| then FirstRepeat(names)
      else if x in names then |names|
      else |names| + 1
  {
    assert (names + [x])[..|names|] == names;
  }

  /**
   * Adding columns to a table with unique names succeeds exactly when all
   * names stay unique; otherwise the first name already taken is reported.
   */
  lemma {:induction false} AddColumnsOutcome(cols: seq<Column>, news: seq<Column>)
    requires DistinctNames(cols)
    ensures var all := Names(cols + news);
      var k := FirstRepeat(all);
      && (AddColumns(cols, news).Ok? <==> k == |all|)
      && (k < |all| ==> AddColumns(cols, news) == Err(DuplicateColumn(all[k])))
  {
    if news == [] {
      assert cols + news == cols;
      FirstRepeatOfDistinct(Names(cols));
    } else {
      var n := |news| - 1;
      var before := cols + news[..n];
      AddColumnsOutcome(cols, news[..n]);
      assert news == news[..n] + [news[n]];
      assert cols + news == before + [news[n]];
      NamesSnoc(before, news[n]);
      FirstRepeatSnoc(Names(before), news[n].name);
      assert Names(cols + news) == Names(before) + [news[n].name];
    }
  }

  /** The names all differ exactly when none repeats. */
  lemma FirstRepeatDistinct(names: seq<string>)
    ensures FirstRepeat(names) == |names| <==> Distinct(names)
  {
    var k := FirstRepeat(names);
    if k == |names| {
      assert names[..k] == names;
    }
  }

  lemma FirstRepeatOfDistinct(names: seq<string>)
    requires Distinct(names)
    ensures FirstRepeat(names) == |names|
  {
  }

  // ---------------------------------------------------------------------------
  // Pushing a row of texts

  /** Whether the map has a value for every column. */
  predicate Covers(cols: seq<Column>, values: map<string, string>)
  {
    forall i :: 0 <= i < |cols| ==> cols[i].name in values
  }

  /** The first column the map has no value for, if any. */
  function MissingName(cols: seq<Column>, values: map<string, string>): (r: Option<nat>)
    ensures r.None? <==> Covers(cols, values)
    ensures r.Some? ==> r.value < |cols| && cols[r.value].name !in values
    ensures r.Some? ==> forall j :: 0 <= j < r.value ==> cols[j].name in values
  {
    if cols == [] then None
    else if cols[0].name !in values then Some(0)
    else
      assert forall j :: 1 <= j < |cols| ==> cols[j] == cols[1..][j - 1];
      match MissingName(cols[1..], values)
      case None => None
      case Some(i) => Some(i + 1)
  }

  /** The first column whose parser rejects its value, or |cols| when none does. */
  function FirstRejected(cols: seq<Column>, values: map<string, string>): (k: nat)
    requires Covers(cols, values)
    ensures k <= |cols|
    ensures forall j :: 0 <= j < k ==> cols[j].PushStr(values[cols[j].name]).Ok?
    ensures k < |cols| ==> cols[k].PushStr(values[cols[k].name]).Err?
  {
    if cols == [] then 0
    else if cols[0].PushStr(values[cols[0].name]).Err? then 0
    else
      assert forall j :: 1 <= j < |cols| ==> cols[j] == cols[1..][j - 1];
      FirstRejected(cols[1..], values) + 1
  }

  /** Every column has a value in the map, and every column's parser accepts it. */
  predicate RowFits(cols: seq<Column>, values: map<string, string>)
  {
    && Covers(cols, values)
    && forall j :: 0 <= j < |cols| ==> cols[j].PushStr(values[cols[j].name]).Ok?
  }

  /** The columns after a row that fits is pushed: each column grows by its own value. */
  function AppendRow(cols: seq<Column>, values: map<string, string>): (r: seq<Column>)
    requires RowFits(cols, values)
    ensures |r| == |cols|
    ensures forall j :: 0 <= j < |cols| ==> r[j] == cols[j].PushStr(values[cols[j].name]).value
  {
    seq(|cols|, j requires 0 <= j < |cols| => cols[j].PushStr(values[cols[j].name]).value)
  }

  /** The columns after the first k columns have taken their values. */
  function PushedUpTo(cols: seq<Column>, values: map<string, string>, k: nat): (r: seq<Column>)
    requires Covers(cols, values) && k <= |cols|
    requires forall j :: 0 <= j < k ==> cols[j].PushStr(values[cols[j].name]).Ok?
    ensures |r| == |cols|
  {
    seq(|cols|, j requires 0 <= j < |cols| => if j < k then cols[j].PushStr(values[cols[j].name]).value else cols[j])
  }

  /** One more column takes its value. */
  lemma PushedUpToStep(cols: seq<Column>, values: map<string, string>, i: nat, c: Column)
    requires Covers(cols, values) && i < |cols|
    requires forall j :: 0 <= j < i ==> cols[j].PushStr(values[cols[j].name]).Ok?
    requires cols[i].PushStr(values[cols[i].name]) == Ok(c)
    ensures PushedUpTo(cols, values, i)[i := c] == PushedUpTo(cols, values, i + 1)
  {
  }

  /**
   * The columns after `push_row_str`, whatever happens: unchanged when a
   * column has no value; otherwise the columns before the first rejected
   * value are grown and the others are left as they were.
   */
  function AfterPush(cols: seq<Column>, values: map<string, string>): (r: seq<Column>)
    ensures |r| == |cols|
    ensures RowFits(cols, values) ==> r == AppendRow(cols, values)
    ensures !Covers(cols, values) ==> r == cols
  {
    if MissingName(cols, values).Some? then cols
    else PushedUpTo(cols, values, FirstRejected(cols, values))
  }

  /** Pushing a row keeps the column names. */
  lemma AppendRowNames(cols: seq<Column>, values: map<string, string>)
    requires RowFits(cols, values)
    ensures Names(AppendRow(cols, values)) == Names(cols)
  {
  }

  /**
   * Pushing a row adds exactly one row to every column and keeps the earlier
   * rows; so columns of equal length stay of equal length.
   */
  lemma AppendRowShape(cols: seq<Column>, values: map<string, string>)
    requires RowFits(cols, values)
    ensures var r := AppendRow(cols, values);
      && (forall j :: 0 <= j < |cols| ==> r[j].Len() == cols[j].Len() + 1)
      && (forall j, i :: 0 <= j < |cols| && 0 <= i < cols[j].Len() ==> r[j].Get(i) == cols[j].Get(i))
  {
  }

  lemma AppendRowRectangular(cols: seq<Column>, values: map<string, string>)
    requires RowFits(cols, values) && Rectangular(cols)
    ensures Rectangular(AppendRow(cols, values))
    ensures cols != [] ==> RowCount(AppendRow(cols, values)) == RowCount(cols) + 1
  {
    AppendRowShape(cols, values);
  }

  /** In a text column the new row reads back as the map's value for that column. */
  lemma AppendRowTexts(cols: seq<Column>, values: map<string, string>, j: nat)
    requires RowFits(cols, values) && j < |cols| && cols[j].StringColumn?
    ensures AppendRow(cols, values)[j].GetAsString(cols[j].Len()) == Some(values[cols[j].name])
  {
  }

  /** Entries of the map that name no column make no difference. */
  lemma AppendRowIgnoresExtraKeys(cols: seq<Column>, values: map<string, string>, more: map<string, string>)
    requires forall j :: 0 <= j < |cols| ==> cols[j].name in values && cols[j].name in more
    requires forall j :: 0 <= j < |cols| ==> values[cols[j].name] == more[cols[j].name]
    ensures RowFits(cols, values) == RowFits(cols, more)
    ensures RowFits(cols, values) ==> AppendRow(cols, values) == AppendRow(cols, more)
  {
  }

  // ---------------------------------------------------------------------------
  // Tables built row by row from typed cells

  /** One value of the right type per column. */
  predicate CellsFit(cols: seq<Column>, cells: seq<CellValue>)
  {
    |cells| == |cols| && forall c :: 0 <= c < |cols| ==> cols[c].Holds(cells[c])
  }

  function PushCells(cols: seq<Column>, cells: seq<CellValue>): (r: seq<Column>)
    requires CellsFit(cols, cells)
    ensures |r| == |cols| && forall c :: 0 <= c < |cols| ==> r[c] == cols[c].Push(cells[c])
  {
    seq(|cols|, c requires 0 <= c < |cols| => cols[c].Push(cells[c]))
  }

  /** Same names and same column types, column by column. */
  predicate SameSchema(a: seq<Column>, b: seq<Column>)
  {
    |a| == |b| && forall c :: 0 <= c < |a| ==> a[c].name == b[c].name && a[c].SameKind(b[c])
  }

  /** The columns after the given rows of cells are pushed one row at a time. */
  function Tabulate(cols: seq<Column>, rows: seq<seq<CellValue>>): (r: seq<Column>)
    requires forall t :: 0 <= t < |rows| ==> |rows[t]| == |cols| && CellsFit(cols, rows[t])
    ensures SameSchema(r, cols)
    ensures forall c :: 0 <= c < |cols| ==> r[c].Len() == cols[c].Len() + |rows|
    ensures forall c, i :: 0 <= c < |cols| && 0 <= i < cols[c].Len() ==> r[c].Cell(i) == cols[c].Cell(i)
    ensures forall c, t :: 0 <= c < |cols| && 0 <= t < |rows| ==> r[c].Cell(cols[c].Len() + t) == rows[t][c]
  {
    if rows == [] then cols
    else
      var n := |rows| - 1;
      var prev := Tabulate(cols, rows[..n]);
      assert rows == rows[..n] + [rows[n]];
      TabulateStep(cols, rows[..n], rows[n], prev);
      PushCells(prev, rows[n])
  }

  /** Pushing the last row onto the columns holding the earlier rows gives the columns holding them all. */
  lemma TabulateStep(cols: seq<Column>, front: seq<seq<CellValue>>, last: seq<CellValue>, prev: seq<Column>)
    requires forall t :: 0 <= t < |front| ==> |front[t]| == |cols| && CellsFit(cols, front[t])
    requires CellsFit(cols, last)
    requires SameSchema(prev, cols)
    requires forall c :: 0 <= c < |cols| ==> prev[c].Len() == cols[c].Len() + |front|
    requires forall c, i :: 0 <= c < |cols| && 0 <= i < cols[c].Len() ==> prev[c].Cell(i) == cols[c].Cell(i)
    requires forall c, t :: 0 <= c < |cols| && 0 <= t < |front| ==> prev[c].Cell(cols[c].Len() + t) == front[t][c]
    ensures CellsFit(prev, last)
    ensures var r := PushCells(prev, last);
      && SameSchema(r, cols)
      && (forall c :: 0 <= c < |cols| ==> r[c].Len() == cols[c].Len() + |front| + 1)
      && (forall c, i :: 0 <= c < |cols| && 0 <= i < cols[c].Len() ==> r[c].Cell(i) == cols[c].Cell(i))
      && (forall c, t :: 0 <= c < |cols| && 0 <= t <= |front| ==> r[c].Cell(cols[c].Len() + t) == (front + [last])[t][c])
  {
    forall c | 0 <= c < |cols| ensures prev[c].Holds(last[c]) {
      SameKindHolds(prev[c], cols[c], last[c]);
    }
  }

  /** Tabulating one more row is pushing its cells onto the tabulated columns. */
  lemma TabulateSnoc(cols: seq<Column>, rows: seq<seq<CellValue>>, cells: seq<CellValue>)
    requires forall t :: 0 <= t < |rows| ==> |rows[t]| == |cols| && CellsFit(cols, rows[t])
    requires CellsFit(cols, cells)
    ensures CellsFit(Tabulate(cols, rows), cells)
    ensures Tabulate(cols, rows + [cells]) == PushCells(Tabulate(cols, rows), cells)
  {
    var prev := Tabulate(cols, rows);
    forall c | 0 <= c < |cols| ensures prev[c].Holds(cells[c]) {
      SameKindHolds(prev[c], cols[c], cells[c]);
    }
    assert (rows + [cells])[..|rows|] == rows;
  }

  /** Pushing a row of texts whose parses are the given cells pushes those cells. */
  lemma AppendRowAsCells(cols: seq<Column>, values: map<string, string>, cells: seq<CellValue>)
    requires CellsFit(cols, cells) && Covers(cols, values)
    requires forall c :: 0 <= c < |cols| ==> cols[c].Parse(values[cols[c].name]) == Some(cells[c])
    ensures RowFits(cols, values) && AppendRow(cols, values) == PushCells(cols, cells)
  {
  }

  /**
   * Pushing, into a table built from some rows, a map whose texts parse to
   * the next row's cells: the push goes through, and the table is the one
   * built from the rows with that row added.
   */
  lemma PushParsedRow(schema: seq<Column>, rows: seq<seq<CellValue>>, values: map<string, string>, cells: seq<CellValue>)
    requires forall t :: 0 <= t < |rows| ==> |rows[t]| == |schema| && CellsFit(schema, rows[t])
    requires CellsFit(schema, cells)
    requires forall c :: 0 <= c < |schema| ==>
      schema[c].name in values && schema[c].Parse(values[schema[c].name]) == Some(cells[c])
    ensures AfterPush(Tabulate(schema, rows), values) == Tabulate(schema, rows + [cells])
  {
    var prev := Tabulate(schema, rows);
    TabulateSnoc(schema, rows, cells);
    forall c | 0 <= c < |prev| ensures prev[c].name in values && prev[c].Parse(values[prev[c].name]) == Some(cells[c]) {
      assert prev[c].name == schema[c].name && prev[c].SameKind(schema[c]);
    }
    AppendRowAsCells(prev, values, cells);
  }

  /** A schema of empty text columns with the given names. */
  function StringSchema(names: seq<string>): (r: seq<Column>)
    ensures |r| == |names| && forall c :: 0 <= c < |names| ==> r[c] == NewStringColumn(names[c])
    ensures Names(r) == names
  {
    seq(|names|, c requires 0 <= c < |names| => NewStringColumn(names[c]))
  }

  /** Rows of texts as rows of text cells. */
  function TextRows(rows: seq<seq<string>>): (r: seq<seq<CellValue>>)
    ensures |r| == |rows|
    ensures forall t :: 0 <= t < |rows| ==> |r[t]| == |rows[t]|
    ensures forall t, c :: 0 <= t < |rows| && 0 <= c < |rows[t]| ==> r[t][c] == Text(rows[t][c])
  {
    seq(|rows|, t requires 0 <= t < |rows| => seq(|rows[t]|, c requires 0 <= c < |rows[t]| => Text(rows[t][c])))
  }

  /** Rows of texts fit a text schema of the same width. */
  lemma TextRowsFit(names: seq<string>, rows: seq<seq<string>>)
    requires forall t :: 0 <= t < |rows| ==> |rows[t]| == |names|
    ensures forall t :: 0 <= t < |TextRows(rows)| ==>
      |TextRows(rows)[t]| == |StringSchema(names)| && CellsFit(StringSchema(names), TextRows(rows)[t])
  {
  }

  /** In a table of text columns built from rows of texts, row t of column c reads back as that row's c-th text. */
  lemma TextCell(names: seq<string>, rows: seq<seq<string>>, c: nat, t: nat)
    requires forall k :: 0 <= k < |rows| ==> |rows[k]| == |names|
    requires c < |names| && t < |rows|
    ensures Tabulate(StringSchema(names), TextRows(rows))[c].GetAsString(t) == Some(rows[t][c])
  {
    TextRowsFit(names, rows);
    var schema := StringSchema(names);
    var cells := TextRows(rows);
    var col := Tabulate(schema, cells)[c];
    assert schema[c].Len() == 0;
    assert col.Cell(schema[c].Len() + t) == cells[t][c];
    assert cells[t][c] == Text(rows[t][c]);
  }

  /**
   * Pushing, into a table of text columns built from some rows, a map that
   * gives each column the next row's text: the push goes through, and the
   * table is the one built from the rows with the next row added.
   */
  lemma PushTextRow(names: seq<string>, rows: seq<seq<string>>, values: map<string, string>, texts: seq<string>)
    requires forall t :: 0 <= t < |rows| ==> |rows[t]| == |names|
    requires |texts| == |names|
    requires forall c :: 0 <= c < |names| ==> names[c] in values && values[names[c]] == texts[c]
    ensures var cols := Tabulate(StringSchema(names), TextRows(rows));
      && RowFits(cols, values)
      && AppendRow(cols, values) == Tabulate(StringSchema(names), TextRows(rows + [texts]))
  {
    var schema := StringSchema(names);
    TextRowsFit(names, rows);
    TextRowsFit(names, rows + [texts]);
    var cols := Tabulate(schema, TextRows(rows));
    var cells := TextRows(rows + [texts])[|rows|];
    assert TextRows(rows + [texts]) == TextRows(rows) + [cells];
    TabulateSnoc(schema, TextRows(rows), cells);
    forall c | 0 <= c < |cols| ensures cols[c].name in values && cols[c].Parse(values[cols[c].name]) == Some(cells[c]) {
      assert cols[c].name == names[c] && cols[c].StringColumn?;
    }
    AppendRowAsCells(cols, values, cells);
  }

  // ---------------------------------------------------------------------------
  // Indexes

  /** The texts of the named columns at one row: a tuple key. */
  function Tuple(cols: seq<Column>, idxs: seq<nat>, i: nat): (r: seq<string>)
    requires forall k :: 0 <= k < |idxs| ==> idxs[k] < |cols| && i < cols[idxs[k]].Len()
    ensures |r| == |idxs| && forall k :: 0 <= k < |idxs| ==> r[k] == cols[idxs[k]].TextAt(i)
  {
    seq(|idxs|, k requires 0 <= k < |idxs| => cols[idxs[k]].TextAt(i))
  }

  /** The positions of the named columns in the table. */
  predicate Readable(cols: seq<Column>, idxs: seq<nat>, n: nat)
  {
    forall k :: 0 <= k < |idxs| ==> idxs[k] < |cols| && n <= cols[idxs[k]].Len()
  }

  /** The tuple keys of rows 0 .. n-1. */
  function Tuples(cols: seq<Column>, idxs: seq<nat>, n: nat): (r: seq<seq<string>>)
    requires Readable(cols, idxs, n)
    ensures |r| == n && forall i :: 0 <= i < n ==> r[i] == Tuple(cols, idxs, i)
  {
    seq(n, i requires 0 <= i < n => Tuple(cols, idxs, i))
  }

  /**
   * The positions of the named columns, looked up in order, as the
   * `expect` calls over a list of names do: the first missing name fails.
   */
  function ColumnIndexes(cols: seq<Column>, names: seq<string>): (r: Result<seq<nat>>)
    ensures r.Ok? ==> |r.value| == |names|
    ensures r.Ok? ==> forall k :: 0 <= k < |names| ==> ColumnIndex(cols, names[k]) == Some(r.value[k])
  {
    if names == [] then Ok([])
    else
      match ColumnIndex(cols, names[0])
      case None => Err(ColumnNotFound(names[0]))
      case Some(i) =>
        match ColumnIndexes(cols, names[1..])
        case Err(e) => Err(e)
        case Ok(later) =>
          assert forall k :: 1 <= k < |names| ==> names[k] == names[1..][k - 1];
          Ok([i] + later)
  }

  /** The lookup fails on the first name that is not a column, and reports that name. */
  lemma {:induction false} ColumnIndexesMissing(cols: seq<Column>, names: seq<string>, k: nat)
    requires k < |names| && names[k] !in Names(cols)
    requires forall j :: 0 <= j < k ==> names[j] in Names(cols)
    ensures ColumnIndexes(cols, names) == Err(ColumnNotFound(names[k]))
  {
    if k > 0 {
      var rest := names[1..];
      assert rest[k - 1] == names[k];
      assert forall j :: 0 <= j < k - 1 ==> rest[j] == names[j + 1];
      ColumnIndexesMissing(cols, rest, k - 1);
      assert ColumnIndex(cols, names[0]).Some?;
    }
  }

  /** One key column: found or reported on its own. */
  lemma ColumnIndexesSingle(cols: seq<Column>, name: string)
    ensures ColumnIndexes(cols, [name]) ==
      match ColumnIndex(cols, name)
      case None => Err(ColumnNotFound(name))
      case Some(i) => Ok([i])
  {
    assert [name][0] == name && [name][1..] == [];
    assert ColumnIndexes(cols, [name][1..]) == Ok([]);
    match ColumnIndex(cols, name) {
      case None =>
      case Some(i) => assert [i] + [] == [i];
    }
  }

  /** The lookup succeeds exactly when every name is a column. */
  lemma {:induction false} ColumnIndexesOk(cols: seq<Column>, names: seq<string>)
    ensures ColumnIndexes(cols, names).Ok? <==> forall k :: 0 <= k < |names| ==> names[k] in Names(cols)
  {
    if names != [] {
      ColumnIndexesOk(cols, names[1..]);
      assert forall k :: 1 <= k < |names| ==> names[k] == names[1..][k - 1];
    }
  }

  /**
   * The first row below n that one of the columns at idxs lacks, or n when
   * they all have rows 0 .. n-1: the row at which reading them row by row
   * runs past the end of one.
   */
  function FirstShortRow(cols: seq<Column>, idxs: seq<nat>, n: nat): (m: nat)
    requires forall k :: 0 <= k < |idxs| ==> idxs[k] < |cols|
    ensures m <= n && forall k :: 0 <= k < |idxs| ==> m <= cols[idxs[k]].Len()
    ensures m < n ==> exists k :: 0 <= k < |idxs| && cols[idxs[k]].Len() == m
    ensures m == n <==> Readable(cols, idxs, n)
  {
    if idxs == [] then n
    else
      assert forall k :: 1 <= k < |idxs| ==> idxs[k] == idxs[1..][k - 1];
      var rest := FirstShortRow(cols, idxs[1..], n);
      if cols[idxs[0]].Len() < rest then cols[idxs[0]].Len() else rest
  }

  /** Two lists of columns can be read at every row below n exactly when each can. */
  lemma ReadableConcat(cols: seq<Column>, a: seq<nat>, b: seq<nat>, n: nat)
    ensures Readable(cols, a + b, n) <==> Readable(cols, a, n) && Readable(cols, b, n)
  {
    assert forall k :: 0 <= k < |a| ==> (a + b)[k] == a[k];
    assert forall k :: 0 <= k < |b| ==> (a + b)[|a| + k] == b[k];
  }

  /**
   * The index over one column that `create_index` and `group_by` build:
   * rows 0 .. `len`-1 of the column, each text mapped to the rows holding
   * it. A missing column is the `expect` failure; a column shorter than
   * `len` is the read past its end.
   */
  function IndexOn(cols: seq<Column>, name: string): (r: Result<map<string, seq<nat>>>)
    ensures name !in Names(cols) ==> r == Err(ColumnNotFound(name))
    ensures name in Names(cols) ==> var col := cols[ColumnIndex(cols, name).value];
      && (r.Err? <==> col.Len() < RowCount(cols))
      && (r.Err? ==> r.error == RowOutOfRange(col.Len()))
  {
    match ColumnIndex(cols, name)
    case None => Err(ColumnNotFound(name))
    case Some(i) =>
      if cols[i].Len() < RowCount(cols) then Err(RowOutOfRange(cols[i].Len()))
      else Ok(KeyIndex(cols[i].Texts()[..RowCount(cols)]))
  }

  /**
   * The index over a found column that has every row below `len` holds
   * exactly the texts of those rows, each with all the rows holding it
   * (`Positions`: ascending, every such row once); the buckets hold `len`
   * rows in all.
   */
  lemma IndexOnEntries(cols: seq<Column>, name: string, c: nat)
    requires ColumnIndex(cols, name) == Some(c) && RowCount(cols) <= cols[c].Len()
    ensures IndexOn(cols, name) == Ok(KeyIndex(cols[c].Texts()[..RowCount(cols)]))
    ensures var m := IndexOn(cols, name).value;
      var texts := cols[c].Texts()[..RowCount(cols)];
      && (forall k :: k in m <==> k in texts)
      && (forall k :: k in m ==> m[k] == Positions(texts, k))
      && TotalSize(m) == RowCount(cols)
  {
    var texts := cols[c].Texts()[..RowCount(cols)];
    KeyIndexEntries(texts);
    KeyIndexTotal(texts);
  }

  /** Over a table whose columns have equal length, the index covers the whole column. */
  lemma IndexOnRectangular(cols: seq<Column>, name: string, c: nat)
    requires Rectangular(cols) && ColumnIndex(cols, name) == Some(c)
    ensures IndexOn(cols, name) == Ok(KeyIndex(cols[c].Texts()))
  {
    assert cols[c].Texts()[..RowCount(cols)] == cols[c].Texts();
  }

  /** Found columns of a table whose columns all have a row at each position below `len` can be read there. */
  lemma ColumnIndexesReadable(cols: seq<Column>, names: seq<string>)
    requires Filled(cols) && ColumnIndexes(cols, names).Ok?
    ensures Readable(cols, ColumnIndexes(cols, names).value, RowCount(cols))
  {
  }

  /**
   * The index over a tuple of columns that the join looks its matches up
   * in: rows 0 .. `len`-1, keyed by the texts of the key columns. The first
   * missing key column fails; so does the first row one of them lacks.
   */
  function MultiIndexOn(cols: seq<Column>, names: seq<string>): (r: Result<map<seq<string>, seq<nat>>>)
    ensures ColumnIndexes(cols, names).Err? ==> r == Err(ColumnIndexes(cols, names).error)
    ensures ColumnIndexes(cols, names).Ok? ==> var idxs := ColumnIndexes(cols, names).value;
      && (r.Err? <==> !Readable(cols, idxs, RowCount(cols)))
      && (r.Err? ==> r.error == RowOutOfRange(FirstShortRow(cols, idxs, RowCount(cols))))
      && (r.Ok? ==> r.value == KeyIndex(Tuples(cols, idxs, RowCount(cols))))
  {
    match ColumnIndexes(cols, names)
    case Err(e) => Err(e)
    case Ok(idxs) =>
      var m := FirstShortRow(cols, idxs, RowCount(cols));
      if m < RowCount(cols) then Err(RowOutOfRange(m))
      else Ok(KeyIndex(Tuples(cols, idxs, RowCount(cols))))
  }

  // ---------------------------------------------------------------------------
  // The table object

  class Table {
    var columns: seq<Column>

    /** `Table::new`: no columns. */
    constructor ()
      ensures columns == []
    {
      columns := [];
    }

    /** `add_column`: refuses a name that is taken; otherwise appends the column last. */
    method AddColumn(col: Column) returns (r: Outcome)
      modifies this
      ensures AppendColumn(old(columns), col).Err? ==>
        r == Fail(DuplicateColumn(col.name)) && columns == old(columns)
      ensures AppendColumn(old(columns), col).Ok? ==>
        r == Pass && columns == AppendColumn(old(columns), col).value
      ensures DistinctNames(old(columns)) ==> DistinctNames(columns)
    {
      if ColumnIndex(columns, col.name).Some? {
        return Fail(DuplicateColumn(col.name));
      }
      columns := columns + [col];
      r := Pass;
    }

    /** `add_string_column`: an empty text column. */
    method AddStringColumn(name: string) returns (r: Outcome)
      modifies this
      ensures AppendColumn(old(columns), NewStringColumn(name)).Err? ==>
        r == Fail(DuplicateColumn(name)) && columns == old(columns)
      ensures AppendColumn(old(columns), NewStringColumn(name)).Ok? ==>
        r == Pass && columns == old(columns) + [NewStringColumn(name)]
    {
      r := AddColumn(NewStringColumn(name));
    }

    /** `add_float_column`: an empty float column. */
    method AddFloatColumn(name: string) returns (r: Outcome)
      modifies this
      ensures AppendColumn(old(columns), NewFloatColumn(name)).Err? ==>
        r == Fail(DuplicateColumn(name)) && columns == old(columns)
      ensures AppendColumn(old(columns), NewFloatColumn(name)).Ok? ==>
        r == Pass && columns == old(columns) + [NewFloatColumn(name)]
    {
      r := AddColumn(NewFloatColumn(name));
    }

    /**
     * `push_row_str`. A column without a value in the map fails the call
     * before anything changes. Otherwise each column in turn parses its
     * value and grows by it; a parse failure stops the call part-way, with
     * the columns before it already grown.
     */
    method PushRowStr(values: map<string, string>) returns (r: Outcome)
      modifies this
      ensures MissingName(old(columns), values).Some? ==>
        r == Fail(MissingColumn(old(columns)[MissingName(old(columns), values).value].name))
      ensures RowFits(old(columns), values) ==> r == Pass
      ensures Covers(old(columns), values) && !RowFits(old(columns), values) ==>
        r == Fail(ParseError(values[old(columns)[FirstRejected(old(columns), values)].name]))
      ensures columns == AfterPush(old(columns), values)
    {
      for i := 0 to |columns|
        invariant forall j :: 0 <= j < i ==> columns[j].name in values
      {
        if columns[i].name !in values {
          assert MissingName(columns, values) == Some(i);
          return Fail(MissingColumn(columns[i].name));
        }
      }
      ghost var before := columns;
      for i := 0 to |columns|
        invariant i <= FirstRejected(before, values)
        invariant columns == PushedUpTo(before, values, i)
      {
        match columns[i].PushStr(values[columns[i].name]) {
          case Err(e) =>
            assert FirstRejected(before, values) == i;
            return Fail(e);
          case Ok(c) =>
            PushedUpToStep(before, values, i, c);
            columns := columns[i := c];
        }
      }
      r := Pass;
    }

    /** `create_index`: for each text of rows 0 .. `len`-1 of the column, the rows holding it. */
    method CreateIndex(column: string) returns (r: Result<map<string, seq<nat>>>)
      ensures r == IndexOn(columns, column)
    {
      var idx := ColumnIndex(columns, column);
      if idx.None? {
        return Err(ColumnNotFound(column));
      }
      var col := columns[idx.value];
      if col.Len() < RowCount(columns) {
        return Err(RowOutOfRange(col.Len()));
      }
      var m := BuildIndex(col.Texts()[..RowCount(columns)]);
      r := Ok(m);
    }

    /** The multi-column index the join uses: `create_index` with a tuple of texts as the key. */
    method CreateMultiIndex(names: seq<string>) returns (r: Result<map<seq<string>, seq<nat>>>)
      ensures r == MultiIndexOn(columns, names)
    {
      var idxs := ColumnIndexes(columns, names);
      if idxs.Err? {
        return Err(idxs.error);
      }
      var short := FirstShortRow(columns, idxs.value, RowCount(columns));
      if short < RowCount(columns) {
        return Err(RowOutOfRange(short));
      }
      var m := BuildIndex(Tuples(columns, idxs.value, RowCount(columns)));
      r := Ok(m);
    }

    /** `clone`: a new table holding copies of the same columns in the same order. */
    method Clone() returns (t: Table)
      ensures fresh(t)
      ensures t.columns == columns
    {
      var copies: seq<Column> := [];
      for i := 0 to |columns|
        invariant copies == columns[..i]
      {
        CloneBoxEqual(columns[i]);
        copies := copies + [columns[i].CloneBox()];
      }
      t := new Table();
      t.columns := copies;
    }
  }
}
