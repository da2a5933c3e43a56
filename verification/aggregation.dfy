/**
 * `aggregate`: one number per group of rows, either the number of rows or
 * the sum of one column's values read back as floats.
 */
module Aggregation {
  import opened Wrappers
  import opened DecimalText
  import opened CellValues
  import opened Columns
  import opened KeyIndexes
  import opened Tables
  import Floats

  datatype AggregationType = Sum | Count

  /**
   * The sum over the given rows of a column, in the order given: each row's
   * text (`get_as_string`) parsed as a float and added to a running total
   * that starts at 0.0. A row past the end of the column is the indexing
   * panic; text that does not parse is the "Non-numeric value" panic.
   */
  function SumOf(col: Column, rows: seq<nat>): (r: Result<Floats.Float>)
  {
    if rows == [] then Ok(Floats.Zero)
    else
      var n := |rows| - 1;
      match SumOf(col, rows[..n])
      case Err(e) => Err(e)
      case Ok(sum) => AddRow(sum, col, rows[n])
  }

  /** One step of the sum: `sum += c.get_as_string(r).parse().expect(..)`. */
  function AddRow(sum: Floats.Float, col: Column, row: nat): (r: Result<Floats.Float>)
    ensures r.Ok? <==> RowSummable(col, row)
    ensures r.Err? ==> r.error == if row < col.Len() then NonNumericValue else RowOutOfRange(row)
    ensures r.Ok? ==> Floats.Value(r.value) == Floats.Value(sum) + Floats.Value(Floats.ParseFloat(col.TextAt(row)).value)
  {
    match col.GetAsString(row)
    case None => Err(RowOutOfRange(row))
    case Some(text) =>
      match Floats.ParseFloat(text)
      case None => Err(NonNumericValue)
      case Some(v) => Ok(Floats.Add(sum, v))
  }

  /** What one group contributes to the result. */
  function AggregateOf(agg: AggregationType, col: Column, rows: seq<nat>): (r: Result<Floats.Float>)
    ensures agg == Count ==> r == Ok(Floats.FromNat(|rows|))
    ensures agg == Sum ==> r == SumOf(col, rows)
  {
    match agg
    case Count => Ok(Floats.FromNat(|rows|))
    case Sum => SumOf(col, rows)
  }

  /** Whether the row exists and its text parses as a float. */
  predicate RowSummable(col: Column, row: nat)
  {
    row < col.Len() && Floats.ParseFloat(col.TextAt(row)).Some?
  }

  /** Whether every given row exists and its text parses as a float. */
  predicate Summable(col: Column, rows: seq<nat>)
  {
    forall j :: 0 <= j < |rows| ==> RowSummable(col, rows[j])
  }

  lemma SummableSnoc(col: Column, rows: seq<nat>, row: nat)
    ensures Summable(col, rows + [row]) <==> Summable(col, rows) && RowSummable(col, row)
  {
    var all := rows + [row];
    assert forall j :: 0 <= j < |rows| ==> all[j] == rows[j];
    assert all[|rows|] == row;
  }

  /** The sum succeeds exactly when every row exists and its text parses. */
  lemma {:induction false} SumOfOk(col: Column, rows: seq<nat>)
    ensures SumOf(col, rows).Ok? <==> Summable(col, rows)
  {
    if rows != [] {
      var n := |rows| - 1;
      var prefix := rows[..n];
      SumOfOk(col, prefix);
      assert rows == prefix + [rows[n]];
      SummableSnoc(col, prefix, rows[n]);
      if SumOf(col, prefix).Ok? {
        assert SumOf(col, rows) == AddRow(SumOf(col, prefix).value, col, rows[n]);
      }
    }
  }

  /** Once a prefix of the rows fails, the whole sum fails the same way. */
  lemma SumOfStopsAtError(col: Column, rows: seq<nat>, j: nat)
    requires j <= |rows| && SumOf(col, rows[..j]).Err?
    ensures SumOf(col, rows) == SumOf(col, rows[..j])
  {
    assert rows == rows[..j] + rows[j..];
    SumOfErrStays(col, rows[..j], rows[j..]);
  }

  /** A failed sum stays failed, with the same error, whatever rows follow. */
  lemma {:induction false} SumOfErrStays(col: Column, prefix: seq<nat>, rest: seq<nat>)
    requires SumOf(col, prefix).Err?
    ensures SumOf(col, prefix + rest) == SumOf(col, prefix)
    decreases |rest|
  {
    if rest == [] {
      assert prefix + rest == prefix;
    } else {
      var all := prefix + rest;
      var shorter := rest[..|rest| - 1];
      assert all[..|all| - 1] == prefix + shorter;
      SumOfErrStays(col, prefix, shorter);
      SumOfErrStep(col, all, SumOf(col, prefix).error);
    }
  }

  /** One more row after a failed sum: the same failure. */
  lemma SumOfErrStep(col: Column, rows: seq<nat>, e: Error)
    requires rows != [] && SumOf(col, rows[..|rows| - 1]) == Err(e)
    ensures SumOf(col, rows) == Err(e)
  {
  }

  /** A sum fails only on a missing row or a text that is not a float literal. */
  lemma {:induction false} SumOfErrorKind(col: Column, rows: seq<nat>)
    ensures SumOf(col, rows).Err? ==> SumOf(col, rows).error.NonNumericValue? || SumOf(col, rows).error.RowOutOfRange?
    decreases |rows|
  {
    if rows != [] {
      SumOfErrorKind(col, rows[..|rows| - 1]);
    }
  }

  /**
   * The error reported is that of the first row that is missing or does
   * not parse.
   */
  lemma SumOfFirstError(col: Column, rows: seq<nat>, j: nat)
    requires j < |rows| && Summable(col, rows[..j])
    requires !RowSummable(col, rows[j])
    ensures SumOf(col, rows) == Err(if rows[j] < col.Len() then NonNumericValue else RowOutOfRange(rows[j]))
  {
    SumOfOk(col, rows[..j]);
    assert rows[..j + 1][..j] == rows[..j];
    SumOfStopsAtError(col, rows, j + 1);
  }

  /** The number a cell stands for, read directly from the stored value. */
  function Number(v: CellValue): real
  {
    match v
    case Int(i) => i as real
    case DateTime(t) => t as real
    case Float(f) => Floats.Value(f)
    case Text(s) => 0.0
  }

  /** The exact sum of the stored numbers at the given rows. */
  function NumberSum(col: Column, rows: seq<nat>): real
    requires forall j :: 0 <= j < |rows| ==> rows[j] < col.Len()
  {
    if rows == [] then 0.0 else NumberSum(col, rows[..|rows| - 1]) + Number(col.Cell(rows[|rows| - 1]))
  }

  /** A numeric cell's text parses back to a float of the same number. */
  lemma ParseNumericCell(col: Column, i: nat)
    requires !col.StringColumn? && i < col.Len()
    ensures Floats.ParseFloat(col.TextAt(i)).Some?
    ensures Floats.Value(Floats.ParseFloat(col.TextAt(i)).value) == Number(col.Cell(i))
  {
    var cell := col.Cell(i);
    assert !cell.Text?;
    ParseNumericText(cell);
  }

  /** The printed text of a number that is not a text parses as a float of that number. */
  lemma ParseNumericText(cell: CellValue)
    requires !cell.Text?
    ensures Floats.ParseFloat(cell.AsString()).Some?
    ensures Floats.Value(Floats.ParseFloat(cell.AsString()).value) == Number(cell)
  {
    match cell
    case Int(v) =>
      assert cell.AsString() == FormatI64(v);
      ParseIntText(v);
    case DateTime(v) =>
      assert cell.AsString() == FormatI64(v);
      ParseIntText(v);
    case Float(f) =>
      assert Floats.ParseFloat(cell.AsString()) == Some(f);
  }

  /** The printed text of an i64 parses as a float of the same number. */
  lemma ParseIntText(v: I64)
    ensures Floats.ParseFloat(FormatI64(v)).Some?
    ensures Floats.Value(Floats.ParseFloat(FormatI64(v)).value) == v as real
  {
    Floats.ParseFloatOfInt(v);
    assert Floats.Pow10(0) == 1;
  }

  /**
   * Over an integer, timestamp or float column, summing rows that exist
   * always succeeds and gives the exact sum of the stored numbers.
   */
  lemma {:induction false} SumOfNumericColumn(col: Column, rows: seq<nat>)
    requires !col.StringColumn?
    requires forall j :: 0 <= j < |rows| ==> rows[j] < col.Len()
    ensures SumOf(col, rows).Ok?
    ensures Floats.Value(SumOf(col, rows).value) == NumberSum(col, rows)
  {
    if rows != [] {
      var n := |rows| - 1;
      var prefix := rows[..n];
      assert forall k :: 0 <= k < n ==> prefix[k] == rows[k];
      SumOfNumericColumn(col, prefix);
      ParseNumericCell(col, rows[n]);
      var sum := SumOf(col, prefix).value;
      var parsed := Floats.ParseFloat(col.TextAt(rows[n])).value;
      SumOfStep(col, rows, sum, parsed);
      AddNumbers(Floats.Add(sum, parsed), sum, parsed, NumberSum(col, prefix), Number(col.Cell(rows[n])));
    }
  }

  /** One more row whose text parses: the sum grows by the parsed number. */
  lemma SumOfStep(col: Column, rows: seq<nat>, sum: Floats.Float, parsed: Floats.Float)
    requires rows != [] && SumOf(col, rows[..|rows| - 1]) == Ok(sum)
    requires rows[|rows| - 1] < col.Len() && Floats.ParseFloat(col.TextAt(rows[|rows| - 1])) == Some(parsed)
    ensures SumOf(col, rows) == Ok(Floats.Add(sum, parsed))
  {
  }

  /** A float sum of two floats denoting a and b denotes a + b. */
  lemma AddNumbers(r: Floats.Float, x: Floats.Float, y: Floats.Float, a: real, b: real)
    requires r == Floats.Add(x, y) && Floats.Value(x) == a && Floats.Value(y) == b
    ensures Floats.Value(r) == a + b
  {
  }

  /** The loop over one group's rows. */
  method SumRows(col: Column, rows: seq<nat>) returns (r: Result<Floats.Float>)
    ensures r == SumOf(col, rows)
  {
    var sum := Floats.Zero;
    for j := 0 to |rows|
      invariant SumOf(col, rows[..j]) == Ok(sum)
    {
      assert rows[..j + 1][..j] == rows[..j];
      var step := AddRow(sum, col, rows[j]);
      if step.Err? {
        SumOfStopsAtError(col, rows, j + 1);
        return step;
      }
      sum := step.value;
    }
    assert rows[..|rows|] == rows;
    r := Ok(sum);
  }

  /**
   * `aggregate`. The column is looked up first, for either aggregation.
   * The groups are visited in an order this model leaves open, as a hash
   * map's iteration order is; each contributes its count or its sum. The
   * first group whose sum fails stops the call with that failure.
   */
  method Aggregate(table: Table, groups: map<string, seq<nat>>, column: string, agg: AggregationType)
    returns (r: Result<map<string, Floats.Float>>)
    ensures ColumnIndex(table.columns, column).None? ==> r == Err(ColumnNotFound(column))
    ensures ColumnIndex(table.columns, column).Some? ==> (
      var col := table.columns[ColumnIndex(table.columns, column).value];
      && (r.Ok? <==> forall k :: k in groups ==> AggregateOf(agg, col, groups[k]).Ok?)
      && (r.Ok? ==> r.value.Keys == groups.Keys)
      && (r.Ok? ==> forall k :: k in groups ==> AggregateOf(agg, col, groups[k]) == Ok(r.value[k]))
      && (r.Err? ==> exists k :: k in groups && AggregateOf(agg, col, groups[k]) == Err(r.error)))
  {
    var idx := ColumnIndex(table.columns, column);
    if idx.None? {
      return Err(ColumnNotFound(column));
    }
    var col := table.columns[idx.value];
    var result: map<string, Floats.Float> := map[];
    var rest := groups.Keys;
    while rest != {}
      invariant rest <= groups.Keys
      invariant result.Keys == groups.Keys - rest
      invariant forall k :: k in result ==> AggregateOf(agg, col, groups[k]) == Ok(result[k])
      decreases rest
    {
      var key :| key in rest;
      match agg {
        case Count =>
          result := result[key := Floats.FromNat(|groups[key]|)];
        case Sum =>
          var s := SumRows(col, groups[key]);
          if s.Err? {
            return Err(s.error);
          }
          result := result[key := s.value];
      }
      rest := rest - {key};
    }
    r := Ok(result);
  }

  /**
   * Counting the groups `group_by` makes: each text of rows 0 .. `len`-1 of
   * the column gets the number of those rows holding it, and the counts add
   * up to `len`.
   */
  lemma CountGroups(cols: seq<Column>, on: string, c: nat, k: string)
    requires ColumnIndex(cols, on) == Some(c) && RowCount(cols) <= cols[c].Len()
    ensures IndexOn(cols, on).Ok?
    ensures var groups := IndexOn(cols, on).value;
      k in groups ==> AggregateOf(Count, cols[c], groups[k]) == Ok(Floats.FromNat(multiset(cols[c].Texts()[..RowCount(cols)])[k]))
    ensures TotalSize(IndexOn(cols, on).value) == RowCount(cols)
  {
    IndexOnEntries(cols, on, c);
  }
}
