/** A single typed value and its conversion to text (`CellValue::as_string`). */
module CellValues {
  import opened Wrappers
  import opened DecimalText
  import Floats

  datatype CellValue =
    | Int(i: I64)
    | Float(f: Floats.Float)
    | Text(s: string)
    | DateTime(t: I64)      // seconds since the epoch
  {
    /**
     * Every variant has a text form. Text is returned as it is; integers and
     * timestamps get canonical decimal text that parses back to the same
     * number; a float gets text that parses back to the same float.
     */
    function AsString(): (r: string)
      ensures Text? ==> r == s
      ensures Int? ==> IsCanonicalInt(r) && ParseI64(r) == Some(i)
      ensures DateTime? ==> IsCanonicalInt(r) && ParseI64(r) == Some(t)
      ensures Float? ==> Floats.ParseFloat(r) == Some(f)
    {
      match this
      case Int(i) =>
        FormatI64Canonical(i);
        ParseFormatI64(i);
        FormatI64(i)
      case Float(f) =>
        Floats.ParseFormatFloat(f);
        Floats.FormatFloat(f)
      case Text(s) => s
      case DateTime(t) =>
        FormatI64Canonical(t);
        ParseFormatI64(t);
        FormatI64(t)
    }
  }

  /** A timestamp prints exactly as the integer with the same value. */
  lemma DateTimeAsStringIsIntAsString(t: I64)
    ensures DateTime(t).AsString() == Int(t).AsString()
  {
  }

  /** Printing an integer is injective, and only canonical text is printed. */
  lemma IntAsStringExact(i: I64, s: string)
    ensures Int(i).AsString() == s <==> IsCanonicalInt(s) && ParseI64(s) == Some(i)
  {
    if IsCanonicalInt(s) && ParseI64(s) == Some(i) {
      FormatParseI64(s);
    }
  }
}
