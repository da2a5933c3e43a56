/**
 * The example the binary runs: four sales rows, pivoted with the regions as
 * rows and the products as columns, summing the sales.
 */
module PivotExample {
  import opened Wrappers
  import opened CellValues
  import opened Columns
  import opened KeyIndexes
  import opened Tables
  import opened Ordering
  import opened CompositeKeys
  import opened Aggregation
  import opened Pivot
  import Floats

  /** The rows pushed: region, product, sales. */
  function SalesRows(): seq<seq<CellValue>>
  {
    [ [Text("North"), Text("A"), Float(Floats.FromNat(10))],
      [Text("North"), Text("A"), Float(Floats.FromNat(20))],
      [Text("South"), Text("B"), Float(Floats.FromNat(5))],
      [Text("South"), Text("B"), Float(Floats.FromNat(10))] ]
  }

  /** The columns added, all empty: text columns "region" and "product", then the float column "sales". */
  function SalesSchema(): seq<Column>
  {
    StringSchema(["region", "product"]) + [NewFloatColumn("sales")]
  }

  /** The table once the four rows are pushed. */
  function SalesTable(): seq<Column>
  {
    assert forall t :: 0 <= t < |SalesRows()| ==> |SalesRows()[t]| == |SalesSchema()| && CellsFit(SalesSchema(), SalesRows()[t]);
    Tabulate(SalesSchema(), SalesRows())
  }

  /** What `pivot` gives on that table. */
  ghost function SalesPivot(): Result<seq<Column>>
  {
    PivotOf(SalesTable(), ["region"], ["product"], "sales", Sum)
  }

  /** The table holding the four rows, column by column. */
  predicate SalesShape(cols: seq<Column>)
  {
    && |cols| == 3
    && cols[0] == StringColumn("region", ["North", "North", "South", "South"])
    && cols[1] == StringColumn("product", ["A", "A", "B", "B"])
    && cols[2] == FloatColumn("sales", [Floats.FromNat(10), Floats.FromNat(20), Floats.FromNat(5), Floats.FromNat(10)])
  }

  /** Pushing the four rows onto the empty columns gives that table. */
  lemma SalesTableShape()
    ensures SalesShape(SalesTable())
  {
    TabulatedSales(SalesSchema(), SalesRows(), SalesTable());
  }

  lemma TabulatedSales(schema: seq<Column>, rows: seq<seq<CellValue>>, cols: seq<Column>)
    requires |schema| == 3
    requires schema[0] == StringColumn("region", []) && schema[1] == StringColumn("product", [])
    requires schema[2] == FloatColumn("sales", [])
    requires |rows| == 4 && forall t :: 0 <= t < 4 ==> |rows[t]| == 3
    requires rows[0][0] == Text("North") && rows[1][0] == Text("North") && rows[2][0] == Text("South") && rows[3][0] == Text("South")
    requires rows[0][1] == Text("A") && rows[1][1] == Text("A") && rows[2][1] == Text("B") && rows[3][1] == Text("B")
    requires rows[0][2] == Float(Floats.FromNat(10)) && rows[1][2] == Float(Floats.FromNat(20))
    requires rows[2][2] == Float(Floats.FromNat(5)) && rows[3][2] == Float(Floats.FromNat(10))
    requires forall t :: 0 <= t < |rows| ==> |rows[t]| == |schema| && CellsFit(schema, rows[t])
    requires cols == Tabulate(schema, rows)
    ensures SalesShape(cols)
  {
    assert cols[0].StringColumn? && cols[0].name == "region" && |cols[0].texts| == 4;
    assert cols[0].Cell(0) == Text("North") && cols[0].Cell(1) == Text("North");
    assert cols[0].Cell(2) == Text("South") && cols[0].Cell(3) == Text("South");
    assert cols[0].texts == ["North", "North", "South", "South"];
    assert cols[1].StringColumn? && cols[1].name == "product" && |cols[1].texts| == 4;
    assert cols[1].Cell(0) == Text("A") && cols[1].Cell(1) == Text("A");
    assert cols[1].Cell(2) == Text("B") && cols[1].Cell(3) == Text("B");
    assert cols[1].texts == ["A", "A", "B", "B"];
    assert cols[2].FloatColumn? && cols[2].name == "sales" && |cols[2].floats| == 4;
    assert cols[2].Cell(0) == Float(Floats.FromNat(10)) && cols[2].Cell(1) == Float(Floats.FromNat(20));
    assert cols[2].Cell(2) == Float(Floats.FromNat(5)) && cols[2].Cell(3) == Float(Floats.FromNat(10));
    assert cols[2].floats == [Floats.FromNat(10), Floats.FromNat(20), Floats.FromNat(5), Floats.FromNat(10)];
  }

  /** Every column `pivot` looks up is there, and the grouping columns have all four rows. */
  lemma SalesFound(cols: seq<Column>)
    requires SalesShape(cols)
    ensures Found(cols, ["region"], ["product"], "sales")
    ensures ColumnIndex(cols, "sales") == Some(2)
    ensures ColumnIndexes(cols, ["region"]) == Ok([0]) && ColumnIndexes(cols, ["product"]) == Ok([1])
    ensures RowCount(cols) == 4
  {
    ColumnIndexesSingle(cols, "region");
    ColumnIndexesSingle(cols, "product");
  }

  /** The (region, product) pair of each row. */
  function SalesPairs(): seq<(string, string)>
  {
    [("North", "A"), ("North", "A"), ("South", "B"), ("South", "B")]
  }

  /** The lookups succeed and the rows carry those pairs of keys. */
  predicate Grouped(cols: seq<Column>)
  {
    Found(cols, ["region"], ["product"], "sales") && PivotKeys(cols, ["region"], ["product"], "sales") == SalesPairs()
  }

  /** Grouped, with the float column "sales" of four rows third. */
  predicate SalesGrouped(cols: seq<Column>)
  {
    && Grouped(cols) && |cols| == 3 && ColumnIndex(cols, "sales") == Some(2)
    && cols[2].FloatColumn? && cols[2].Len() == 4
  }

  lemma SalesKeys(cols: seq<Column>)
    requires SalesShape(cols)
    ensures SalesGrouped(cols)
  {
    SalesFound(cols);
    var keys := PivotKeys(cols, ["region"], ["product"], "sales");
    forall i | 0 <= i < 4
      ensures keys[i] == (cols[0].texts[i], cols[1].texts[i])
    {
      assert Tuple(cols, [0], i) == [cols[0].texts[i]];
      assert Tuple(cols, [1], i) == [cols[1].texts[i]];
    }
  }

  /** A strictly sorted list of exactly the second keys of a a b b is [a, b]. */
  lemma SortedSeconds(r: seq<string>, keys: seq<(string, string)>, a: string, b: string)
    requires StrictlySorted(r) && Less(a, b) && |keys| == 4
    requires keys[0].1 == a && keys[1].1 == a && keys[2].1 == b && keys[3].1 == b
    requires forall y :: y in r <==> exists i :: 0 <= i < |keys| && keys[i].1 == y
    ensures r == [a, b]
  {
    forall y ensures y in r <==> y in [a, b] {
      if y in r {
        var i :| 0 <= i < |keys| && keys[i].1 == y;
        assert i == 0 || i == 1 || i == 2 || i == 3;
      }
      if y == a {
        assert keys[0].1 == y;
      } else if y == b {
        assert keys[2].1 == y;
      }
    }
    SortedUnique(r, [a, b]);
  }

  /** A strictly sorted list of exactly the first keys of a a b b is [a, b]. */
  lemma SortedFirsts(r: seq<string>, keys: seq<(string, string)>, a: string, b: string)
    requires StrictlySorted(r) && Less(a, b) && |keys| == 4
    requires keys[0].0 == a && keys[1].0 == a && keys[2].0 == b && keys[3].0 == b
    requires forall y :: y in r <==> exists i :: 0 <= i < |keys| && keys[i].0 == y
    ensures r == [a, b]
  {
    forall y ensures y in r <==> y in [a, b] {
      if y in r {
        var i :| 0 <= i < |keys| && keys[i].0 == y;
        assert i == 0 || i == 1 || i == 2 || i == 3;
      }
      if y == a {
        assert keys[0].0 == y;
      } else if y == b {
        assert keys[2].0 == y;
      }
    }
    SortedUnique(r, [a, b]);
  }

  /** The value columns are for products A then B. */
  lemma SalesColKeys(cols: seq<Column>)
    requires Grouped(cols)
    ensures ColKeys(cols, ["region"], ["product"], "sales") == ["A", "B"]
  {
    assert Less("A", "B");
    SortedSeconds(ColKeys(cols, ["region"], ["product"], "sales"), SalesPairs(), "A", "B");
  }

  /** The rows are for North then South. */
  lemma SalesRowKeys(cols: seq<Column>)
    requires Grouped(cols)
    ensures RowKeyList(cols, ["region"], ["product"], "sales") == ["North", "South"]
  {
    assert Less("North", "South");
    SortedFirsts(RowKeyList(cols, ["region"], ["product"], "sales"), SalesPairs(), "North", "South");
  }

  /** The value column names for products A and B under Sum. */
  lemma SumHeaders()
    ensures Headers(["A", "B"], Sum) == ["A_Sum", "B_Sum"]
  {
    assert HeaderName("A", Sum) == "A_Sum";
    assert HeaderName("B", Sum) == "B_Sum";
  }

  /** The names `pivot` adds all differ. */
  lemma SalesNames(cols: seq<Column>)
    requires Grouped(cols)
    ensures OutputNames(cols, ["region"], ["product"], "sales", Sum) == ["region", "A_Sum", "B_Sum"]
    ensures Distinct(OutputNames(cols, ["region"], ["product"], "sales", Sum))
  {
    SalesColKeys(cols);
    SumHeaders();
    NamesDiffer("region", "A_Sum", "B_Sum");
  }

  /** Three names of which the first is longer and the others start differently all differ. */
  lemma NamesDiffer(a: string, b: string, c: string)
    requires |a| > |b| && |a| > |c| && b != [] && c != [] && b[0] != c[0]
    ensures Distinct([a, b, c])
  {
  }

  // ---------------------------------------------------------------------------
  // The pivoted table

  /** The pivot succeeds, giving the region column and a sum column per product, with a row per region. */
  lemma SalesPivotOk(cols: seq<Column>)
    requires SalesGrouped(cols)
    ensures ColKeys(cols, ["region"], ["product"], "sales") == ["A", "B"]
    ensures RowKeyList(cols, ["region"], ["product"], "sales") == ["North", "South"]
    ensures PivotOf(cols, ["region"], ["product"], "sales", Sum).Ok?
  {
    SalesColKeys(cols);
    SalesRowKeys(cols);
    SalesNames(cols);
    SumNumericPivotOk(cols, ["region"], ["product"], "sales");
    PivotClean(cols, ["region"], ["product"], "sales", Sum);
  }

  /** The output columns are region, A_Sum and B_Sum. */
  lemma SalesPivotNames(cols: seq<Column>)
    requires SalesGrouped(cols)
    ensures PivotOf(cols, ["region"], ["product"], "sales", Sum).Ok?
    ensures Names(PivotOf(cols, ["region"], ["product"], "sales", Sum).value) == ["region", "A_Sum", "B_Sum"]
  {
    SalesPivotOk(cols);
    SalesNames(cols);
    PivotNames(cols, ["region"], ["product"], "sales", Sum);
  }

  /** A key without a bar splits into itself. */
  lemma PlainKey(s: string)
    requires NoBar(s)
    ensures Split(s) == [s]
  {
    SplitJoinKey([s]);
  }

  /** The region cell of the rows for North and South. */
  lemma RegionText(rk: string)
    requires rk == "North" || rk == "South"
    ensures |["region"]| <= |Split(rk)| && RowGroupText(["region"], rk, 0) == rk
  {
    PlainKey(rk);
    assert |"region"| != |"row_key"|;
  }

  /** The positions holding k, when exactly positions i and j of four hold it. */
  lemma TwoPositions(keys: seq<(string, string)>, k: (string, string), i: nat, j: nat)
    requires |keys| == 4 && i < j < 4
    requires forall x :: 0 <= x < 4 ==> (keys[x] == k <==> x == i || x == j)
    ensures Positions(keys, k) == [i, j]
  {
    var r := Positions(keys, k);
    assert i in r && j in r;
    forall x | 0 <= x < |r| ensures r[x] == i || r[x] == j {
      assert r[x] in r;
    }
    var p :| 0 <= p < |r| && r[p] == i;
    var q :| 0 <= q < |r| && r[q] == j;
    assert p < q;
    assert p == 0 by { assert r[0] in r; }
    assert q == 1 by { assert r[1] in r; }
    assert |r| == 2 by { assert r[|r| - 1] in r; }
    assert r == [r[0], r[1]];
  }

  /** Where the four rows carry each pair of keys. */
  lemma SalesPositions()
    ensures Positions(SalesPairs(), ("North", "A")) == [0, 1]
    ensures Positions(SalesPairs(), ("South", "B")) == [2, 3]
    ensures ("North", "A") in SalesPairs() && ("South", "B") in SalesPairs()
  {
    var keys := SalesPairs();
    assert "North" != "South" && "A" != "B";
    TwoPositions(keys, ("North", "A"), 0, 1);
    TwoPositions(keys, ("South", "B"), 2, 3);
    assert keys[0] == ("North", "A") && keys[2] == ("South", "B");
  }

  /** No row is for North and B, or for South and A. */
  lemma SalesAbsent()
    ensures ("North", "B") !in SalesPairs() && ("South", "A") !in SalesPairs()
  {
    assert "North" != "South" && "A" != "B";
  }

  /** The sum of two existing rows of a numeric column is the sum of their numbers. */
  lemma SumOfTwo(col: Column, a: nat, b: nat)
    requires !col.StringColumn? && a < col.Len() && b < col.Len()
    ensures SumOf(col, [a, b]).Ok? && Floats.Value(SumOf(col, [a, b]).value) == Number(col.Cell(a)) + Number(col.Cell(b))
  {
    SumOfNumericColumn(col, [a, b]);
    assert [a, b][..1] == [a] && [a][..0] == [];
    assert NumberSum(col, [a]) == Number(col.Cell(a));
    assert NumberSum(col, [a, b]) == NumberSum(col, [a]) + Number(col.Cell(b));
  }

  /** The sales of North's two rows add up to 30, those of South's to 15. */
  lemma SalesSums(cols: seq<Column>)
    requires SalesShape(cols)
    ensures SumOf(cols[2], [0, 1]).Ok? && Floats.Value(SumOf(cols[2], [0, 1]).value) == 30.0
    ensures SumOf(cols[2], [2, 3]).Ok? && Floats.Value(SumOf(cols[2], [2, 3]).value) == 15.0
  {
    SumOfTwo(cols[2], 0, 1);
    SumOfTwo(cols[2], 2, 3);
  }

  /** The rows are for North, then South. */
  lemma SalesRegionCells(cols: seq<Column>)
    requires SalesGrouped(cols)
    ensures PivotOf(cols, ["region"], ["product"], "sales", Sum).Ok?
    ensures var r := PivotOf(cols, ["region"], ["product"], "sales", Sum).value;
      |r| == 3 && r[0].Len() == 2 && r[0].Cell(0) == Text("North") && r[0].Cell(1) == Text("South")
  {
    SalesPivotOk(cols);
    PivotCell(cols, ["region"], ["product"], "sales", Sum, 0, 0);
    PivotCell(cols, ["region"], ["product"], "sales", Sum, 1, 0);
    RegionText("North");
    RegionText("South");
  }

  /** North sold no B and South no A: those cells are 0. */
  lemma SalesZeroCells(cols: seq<Column>)
    requires SalesGrouped(cols)
    ensures PivotOf(cols, ["region"], ["product"], "sales", Sum).Ok?
    ensures var r := PivotOf(cols, ["region"], ["product"], "sales", Sum).value;
      |r| == 3 && r[1].Len() == 2 && r[2].Len() == 2 && r[2].Cell(0) == Float(Floats.Zero) && r[1].Cell(1) == Float(Floats.Zero)
  {
    SalesPivotOk(cols);
    PivotCell(cols, ["region"], ["product"], "sales", Sum, 0, 2);
    PivotCell(cols, ["region"], ["product"], "sales", Sum, 1, 1);
    SalesAbsent();
  }

  /** North's A cell sums its two rows, 10 + 20; South's B cell its two, 5 + 10. */
  lemma SalesSumCells(cols: seq<Column>)
    requires SalesGrouped(cols)
    requires SumOf(cols[2], [0, 1]).Ok? && Floats.Value(SumOf(cols[2], [0, 1]).value) == 30.0
    requires SumOf(cols[2], [2, 3]).Ok? && Floats.Value(SumOf(cols[2], [2, 3]).value) == 15.0
    ensures PivotOf(cols, ["region"], ["product"], "sales", Sum).Ok?
    ensures var r := PivotOf(cols, ["region"], ["product"], "sales", Sum).value;
      && |r| == 3 && r[1].Len() == 2 && r[2].Len() == 2
      && r[1].Cell(0).Float? && Floats.Value(r[1].Cell(0).f) == 30.0
      && r[2].Cell(1).Float? && Floats.Value(r[2].Cell(1).f) == 15.0
  {
    SalesPivotOk(cols);
    PivotCell(cols, ["region"], ["product"], "sales", Sum, 0, 1);
    PivotCell(cols, ["region"], ["product"], "sales", Sum, 1, 2);
    SalesPositions();
  }

  /**
   * The example's output: columns region, A_Sum and B_Sum; a row for North
   * (A_Sum 30, B_Sum 0) then a row for South (A_Sum 0, B_Sum 15).
   */
  predicate SampleOutput(r: seq<Column>)
  {
    && Names(r) == ["region", "A_Sum", "B_Sum"]
    && |r| == 3 && r[0].Len() == 2 && r[1].Len() == 2 && r[2].Len() == 2
    && r[0].Cell(0) == Text("North") && r[0].Cell(1) == Text("South")
    && r[1].Cell(0).Float? && Floats.Value(r[1].Cell(0).f) == 30.0
    && r[2].Cell(0) == Float(Floats.Zero)
    && r[1].Cell(1) == Float(Floats.Zero)
    && r[2].Cell(1).Float? && Floats.Value(r[2].Cell(1).f) == 15.0
  }

  /** On a table with the four rows' keys and sums, `pivot` gives the example's output. */
  lemma SalesPivotCells(cols: seq<Column>)
    requires SalesGrouped(cols)
    requires SumOf(cols[2], [0, 1]).Ok? && Floats.Value(SumOf(cols[2], [0, 1]).value) == 30.0
    requires SumOf(cols[2], [2, 3]).Ok? && Floats.Value(SumOf(cols[2], [2, 3]).value) == 15.0
    ensures PivotOf(cols, ["region"], ["product"], "sales", Sum).Ok?
    ensures SampleOutput(PivotOf(cols, ["region"], ["product"], "sales", Sum).value)
  {
    SalesPivotNames(cols);
    SalesRegionCells(cols);
    SalesZeroCells(cols);
    SalesSumCells(cols);
  }

  /** `pivot` of the sample sales table by region and product, summing sales. */
  lemma SamplePivot()
    ensures SalesPivot().Ok? && SampleOutput(SalesPivot().value)
  {
    SalesTableShape();
    SalesKeys(SalesTable());
    SalesSums(SalesTable());
    SalesPivotCells(SalesTable());
  }
}
