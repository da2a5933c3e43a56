/**
 * The four column types behind `ColumnTrait`: a name and a growable vector
 * of native values. A column is a value here; `push` and `push_str` return
 * the grown column, which the owning table stores back in place.
 */
module Columns {
  import opened Wrappers
  import opened DecimalText
  import Floats
  import opened CellValues

  datatype Column =
    | StringColumn(name: string, texts: seq<string>)
    | IntColumn(name: string, ints: seq<I64>)
    | DateTimeColumn(name: string, stamps: seq<I64>)
    | FloatColumn(name: string, floats: seq<Floats.Float>)
  {
    /** `ColumnTrait::len`. */
    function Len(): nat
    {
      match this
      case StringColumn(_, xs) => |xs|
      case IntColumn(_, xs) => |xs|
      case DateTimeColumn(_, xs) => |xs|
      case FloatColumn(_, xs) => |xs|
    }

    /** Whether two columns are of the same type. */
    predicate SameKind(other: Column)
    {
      && StringColumn? == other.StringColumn?
      && IntColumn? == other.IntColumn?
      && DateTimeColumn? == other.DateTimeColumn?
      && FloatColumn? == other.FloatColumn?
    }

    /** Whether v has this column's native type. */
    predicate Holds(v: CellValue)
    {
      || (StringColumn? && v.Text?)
      || (IntColumn? && v.Int?)
      || (DateTimeColumn? && v.DateTime?)
      || (FloatColumn? && v.Float?)
    }

    /** The native value stored at a row that exists. */
    function Cell(idx: nat): (v: CellValue)
      requires idx < Len()
      ensures Holds(v)
    {
      match this
      case StringColumn(_, xs) => Text(xs[idx])
      case IntColumn(_, xs) => Int(xs[idx])
      case DateTimeColumn(_, xs) => DateTime(xs[idx])
      case FloatColumn(_, xs) => Float(xs[idx])
    }

    /** The text of a row that exists. */
    function TextAt(idx: nat): string
      requires idx < Len()
    {
      Cell(idx).AsString()
    }

    /** The texts of all rows, in order. */
    function Texts(): (r: seq<string>)
      ensures |r| == Len() && forall i :: 0 <= i < Len() ==> r[i] == TextAt(i)
    {
      seq(Len(), i requires 0 <= i < Len() => TextAt(i))
    }

    /** `get` of each column type: the native value; out of range is the panic case. */
    function Get(idx: nat): (r: Option<CellValue>)
      ensures r.Some? <==> idx < Len()
      ensures r.Some? ==> Holds(r.value)
    {
      if idx < Len() then Some(Cell(idx)) else None
    }

    /** `ColumnTrait::get_as_string`: the text form of the native value; out of range is the panic case. */
    function GetAsString(idx: nat): (r: Option<string>)
      ensures r.Some? <==> idx < Len()
      ensures r.Some? ==> r.value == Get(idx).value.AsString()
    {
      if idx < Len() then Some(TextAt(idx)) else None
    }

    /** `push` of each column type: one more value at the end, nothing else changes. */
    function Push(v: CellValue): (r: Column)
      requires Holds(v)
      ensures r.name == name && r.Len() == Len() + 1 && r.SameKind(this)
      ensures forall i :: 0 <= i < Len() ==> r.Cell(i) == Cell(i)
      ensures r.Cell(Len()) == v
    {
      match this
      case StringColumn(n, xs) => StringColumn(n, xs + [v.s])
      case IntColumn(n, xs) => IntColumn(n, xs + [v.i])
      case DateTimeColumn(n, xs) => DateTimeColumn(n, xs + [v.t])
      case FloatColumn(n, xs) => FloatColumn(n, xs + [v.f])
    }

    /** The conversion `push_str` applies before pushing. */
    function Parse(text: string): (r: Option<CellValue>)
      ensures r.Some? ==> Holds(r.value)
    {
      match this
      case StringColumn(_, _) => Some(Text(text))
      case IntColumn(_, _) => (match ParseI64(text) case Some(v) => Some(Int(v)) case None => None)
      case DateTimeColumn(_, _) => (match ParseI64(text) case Some(v) => Some(DateTime(v)) case None => None)
      case FloatColumn(_, _) => (match Floats.ParseFloat(text) case Some(v) => Some(Float(v)) case None => None)
    }

    /**
     * `ColumnTrait::push_str`. A text column takes any text verbatim; the
     * integer and timestamp columns take exactly the i64 literals and the
     * float column the float literals. On failure nothing is pushed.
     */
    function PushStr(text: string): (r: Result<Column>)
      ensures r.Err? ==> r.error == ParseError(text)
      ensures StringColumn? ==> r.Ok? && r.value.GetAsString(Len()) == Some(text)
      ensures IntColumn? || DateTimeColumn? ==> (r.Ok? <==> ParseI64(text).Some?)
      ensures FloatColumn? ==> (r.Ok? <==> Floats.ParseFloat(text).Some?)
      ensures r.Ok? ==> r.value.name == name && r.value.Len() == Len() + 1
      ensures r.Ok? ==> forall i :: 0 <= i < Len() ==> r.value.Get(i) == Get(i)
      ensures r.Ok? ==> r.value.SameKind(this)
    {
      match Parse(text)
      case None => Err(ParseError(text))
      case Some(v) => Ok(Push(v))
    }

    /** `clone_box`: a copy with the same type, name and values. */
    function CloneBox(): (r: Column)
      ensures r.name == name && r.Len() == Len() && r.SameKind(this)
      ensures forall i :: 0 <= i < Len() ==> r.Get(i) == Get(i)
    {
      this
    }
  }

  /** Two columns with the same type, name and cells are the same column. */
  lemma ColumnsEqual(a: Column, b: Column)
    requires a.SameKind(b) && a.name == b.name && a.Len() == b.Len()
    requires forall i :: 0 <= i < a.Len() ==> a.Cell(i) == b.Cell(i)
    ensures a == b
  {
    match a
    case StringColumn(_, xs) =>
      assert forall i :: 0 <= i < |xs| ==> a.Cell(i) == Text(xs[i]);
    case IntColumn(_, xs) =>
      assert forall i :: 0 <= i < |xs| ==> a.Cell(i) == Int(xs[i]);
    case DateTimeColumn(_, xs) =>
      assert forall i :: 0 <= i < |xs| ==> a.Cell(i) == DateTime(xs[i]);
    case FloatColumn(_, xs) =>
      assert forall i :: 0 <= i < |xs| ==> a.Cell(i) == Float(xs[i]);
  }

  /** Columns of the same type take the same values. */
  lemma SameKindHolds(a: Column, b: Column, v: CellValue)
    requires a.SameKind(b)
    ensures a.Holds(v) == b.Holds(v)
  {
  }

  /** `clone_box` gives back an equal column: same type, name and values. */
  lemma CloneBoxEqual(c: Column)
    ensures c.CloneBox() == c
  {
    var r := c.CloneBox();
    forall i | 0 <= i < c.Len() ensures r.Cell(i) == c.Cell(i) {
      assert r.Get(i) == c.Get(i);
    }
    ColumnsEqual(r, c);
  }

  /** `StringColumn::new`. */
  function NewStringColumn(name: string): (c: Column)
    ensures c.StringColumn? && c.name == name && c.Len() == 0
  {
    StringColumn(name, [])
  }

  /** `IntColumn::new`. */
  function NewIntColumn(name: string): (c: Column)
    ensures c.IntColumn? && c.name == name && c.Len() == 0
  {
    IntColumn(name, [])
  }

  /** `DateTimeColumn::new`. */
  function NewDateTimeColumn(name: string): (c: Column)
    ensures c.DateTimeColumn? && c.name == name && c.Len() == 0
  {
    DateTimeColumn(name, [])
  }

  /** `FloatColumn::new`. */
  function NewFloatColumn(name: string): (c: Column)
    ensures c.FloatColumn? && c.name == name && c.Len() == 0
  {
    FloatColumn(name, [])
  }

  // ---------------------------------------------------------------------------
  // Round trips through push_str and get_as_string

  /** Integer and timestamp columns: the text read back is canonical and denotes the value parsed. */
  lemma PushStrIntText(c: Column, text: string)
    requires c.IntColumn? || c.DateTimeColumn?
    requires c.PushStr(text).Ok?
    ensures var t := c.PushStr(text).value.GetAsString(c.Len()).value;
      IsCanonicalInt(t) && ParseI64(t) == ParseI64(text)
    ensures IsCanonicalInt(text) ==> c.PushStr(text).value.GetAsString(c.Len()) == Some(text)
  {
    var c' := c.PushStr(text).value;
    var v := ParseI64(text).value;
    assert c'.Cell(c.Len()) == (if c.IntColumn? then Int(v) else DateTime(v));
    if IsCanonicalInt(text) {
      FormatParseI64(text);
    }
  }

  /** Integer and timestamp columns: pushing the printed text of v stores v. */
  lemma PushStrIntValue(c: Column, v: I64)
    requires c.IntColumn? || c.DateTimeColumn?
    ensures c.PushStr(FormatI64(v)).Ok?
    ensures c.PushStr(FormatI64(v)).value.Get(c.Len()) == Some(if c.IntColumn? then Int(v) else DateTime(v))
  {
    ParseFormatI64(v);
  }

  /** The integer column reads "+007" back as "7". */
  lemma PushStrPlusZeroZeroSeven(c: Column)
    requires c.IntColumn?
    ensures c.PushStr("+007").Ok? && c.PushStr("+007").value.GetAsString(c.Len()) == Some("7")
  {
    ParsePlusZeroZeroSeven();
  }

  /** Timestamp columns accept exactly what integer columns accept and print it the same way. */
  lemma DateTimeLikeInt(name: string, stamps: seq<I64>, text: string)
    ensures DateTimeColumn(name, stamps).PushStr(text).Ok? == IntColumn(name, stamps).PushStr(text).Ok?
    ensures forall i :: 0 <= i < |stamps| ==>
      DateTimeColumn(name, stamps).GetAsString(i) == IntColumn(name, stamps).GetAsString(i)
  {
    forall i | 0 <= i < |stamps|
      ensures DateTimeColumn(name, stamps).GetAsString(i) == IntColumn(name, stamps).GetAsString(i)
    {
      DateTimeAsStringIsIntAsString(stamps[i]);
    }
  }

  /** A float column reads the printed text of f as f. */
  lemma ParseFloatText(c: Column, text: string, f: Floats.Float)
    requires c.FloatColumn? && text == Floats.FormatFloat(f)
    ensures c.Parse(text) == Some(Float(f))
  {
    Floats.ParseFormatFloat(f);
  }

  /** Float column: pushing the printed text of f stores f. */
  lemma PushStrFloatValue(c: Column, f: Floats.Float)
    requires c.FloatColumn?
    ensures c.PushStr(Floats.FormatFloat(f)).Ok?
    ensures c.PushStr(Floats.FormatFloat(f)).value.Get(c.Len()) == Some(Float(f))
  {
    Floats.ParseFormatFloat(f);
  }
}
