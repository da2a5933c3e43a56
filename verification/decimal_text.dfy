/**
 * Decimal text for 64-bit signed integers: the parser that `str::parse::<i64>`
 * implements and the printer behind `i64::to_string`. The integer and
 * timestamp columns both store i64 values and convert them with these two.
 */
module DecimalText {
  import opened Wrappers

  const I64_MIN: int := -0x8000_0000_0000_0000
  const I64_MAX: int := 0x7FFF_FFFF_FFFF_FFFF

  type I64 = x: int | I64_MIN <= x <= I64_MAX

  predicate IsDigit(c: char) { '0' <= c <= '9' }

  predicate AllDigits(s: string) { forall i :: 0 <= i < |s| ==> IsDigit(s[i]) }

  function DigitChar(d: nat): (c: char)
    requires d < 10
    ensures IsDigit(c)
  {
    ('0' as int + d) as char
  }

  function DigitValue(c: char): (d: nat)
    requires IsDigit(c)
    ensures d < 10 && DigitChar(d) == c
  {
    c as int - '0' as int
  }

  /** The number a run of digits denotes, most significant digit first; "" denotes 0. */
  function DigitsValue(s: string): nat
    requires AllDigits(s)
  {
    if s == [] then 0 else DigitsValue(s[..|s| - 1]) * 10 + DigitValue(s[|s| - 1])
  }

  /** The shortest digit string of n: at least one digit and no leading zero. */
  function NatDigits(n: nat): (s: string)
    ensures |s| >= 1 && AllDigits(s)
    ensures |s| == 1 || s[0] != '0'
  {
    if n < 10 then [DigitChar(n)] else NatDigits(n / 10) + [DigitChar(n % 10)]
  }

  /** `i64::to_string`: a minus sign for negative values, then the shortest digits. */
  function FormatI64(v: int): string
  {
    if v < 0 then "-" + NatDigits(-v) else NatDigits(v)
  }

  /** Separates a leading `+` or `-` from the rest: (is it negative, the rest). */
  function Unsign(s: string): (bool, string)
  {
    if |s| > 0 && (s[0] == '+' || s[0] == '-') then (s[0] == '-', s[1..]) else (false, s)
  }

  /** `str::parse::<i64>`: an optional sign, then one or more ASCII digits, in range. */
  function ParseI64(s: string): Option<I64>
  {
    var (negative, body) := Unsign(s);
    if |body| == 0 || !AllDigits(body) then None
    else
      var v: int := if negative then -(DigitsValue(body) as int) else DigitsValue(body);
      if I64_MIN <= v <= I64_MAX then Some(v) else None
  }

  /** The grammar of an integer literal, written independently of the parser. */
  predicate IsIntLiteral(s: string)
  {
    && |s| >= 1
    && (IsDigit(s[0]) || ((s[0] == '+' || s[0] == '-') && |s| >= 2))
    && forall i :: 1 <= i < |s| ==> IsDigit(s[i])
  }

  /** The value of an integer literal, without a range check. */
  function LiteralValue(s: string): int
    requires IsIntLiteral(s)
  {
    if s[0] == '-' then -(DigitsValue(s[1..]) as int)
    else if s[0] == '+' then DigitsValue(s[1..])
    else DigitsValue(s)
  }

  /** Canonical integer text: no `+`, no leading zero, no `-0`. */
  predicate IsCanonicalInt(s: string)
  {
    || (|s| >= 1 && AllDigits(s) && (|s| == 1 || s[0] != '0'))
    || (|s| >= 2 && s[0] == '-' && AllDigits(s[1..]) && s[1] != '0')
  }

  // ---------------------------------------------------------------------------
  // Lemmas about digit strings

  lemma {:induction false} DigitsValueOfNatDigits(n: nat)
    ensures DigitsValue(NatDigits(n)) == n
  {
    if n >= 10 {
      var s := NatDigits(n);
      assert s[..|s| - 1] == NatDigits(n / 10);
      DigitsValueOfNatDigits(n / 10);
    }
  }

  /** A digit string of two or more digits that does not start with 0 denotes at least 10. */
  lemma {:induction false} DigitsValueAtLeastTen(s: string)
    requires AllDigits(s) && |s| >= 2 && s[0] != '0'
    ensures DigitsValue(s) >= 10
  {
    var p := s[..|s| - 1];
    if |p| == 1 {
      assert DigitValue(p[0]) >= 1 by { assert DigitChar(0) == '0'; }
      assert DigitsValue(p) == DigitsValue(p[..0]) * 10 + DigitValue(p[0]);
    } else {
      DigitsValueAtLeastTen(p);
    }
  }

  lemma {:induction false} NatDigitsOfDigitsValue(s: string)
    requires AllDigits(s) && |s| >= 1 && (|s| == 1 || s[0] != '0')
    ensures NatDigits(DigitsValue(s)) == s
  {
    if |s| == 1 {
      assert DigitsValue(s) == DigitsValue(s[..0]) * 10 + DigitValue(s[0]);
    } else {
      var p := s[..|s| - 1];
      var v := DigitsValue(s);
      DigitsValueAtLeastTen(s);
      assert v / 10 == DigitsValue(p) && v % 10 == DigitValue(s[|s| - 1]);
      NatDigitsOfDigitsValue(p);
      assert s == p + [s[|s| - 1]];
    }
  }

  /** Leading zeros do not change the value of a digit string. */
  lemma {:induction false} DigitsValueLeadingZero(s: string)
    requires AllDigits(s)
    ensures AllDigits("0" + s) && DigitsValue("0" + s) == DigitsValue(s)
  {
    var t := "0" + s;
    assert AllDigits(t) by { assert forall i :: 1 <= i < |t| ==> t[i] == s[i - 1]; }
    if s == [] {
      assert DigitsValue(t) == DigitsValue(t[..0]) * 10 + DigitValue('0');
    } else {
      assert t[..|t| - 1] == "0" + s[..|s| - 1];
      DigitsValueLeadingZero(s[..|s| - 1]);
    }
  }

  // ---------------------------------------------------------------------------
  // Lemmas about the integer parser and printer

  /** The parser accepts exactly the integer literals whose value fits in 64 bits. */
  lemma ParseI64Accepts(s: string)
    ensures ParseI64(s).Some? <==> IsIntLiteral(s) && I64_MIN <= LiteralValue(s) <= I64_MAX
    ensures ParseI64(s).Some? ==> ParseI64(s).value == LiteralValue(s)
  {
    if |s| >= 1 && (s[0] == '+' || s[0] == '-') {
      var body := s[1..];
      assert AllDigits(body) <==> forall i :: 1 <= i < |s| ==> IsDigit(s[i]) by {
        assert forall i :: 1 <= i < |s| ==> s[i] == body[i - 1];
      }
    }
  }

  /** Printing yields the canonical form, with a minus sign exactly for negative values. */
  lemma FormatI64Canonical(v: int)
    ensures IsCanonicalInt(FormatI64(v))
    ensures (FormatI64(v)[0] == '-') <==> v < 0
  {
    if v < 0 {
      var d := NatDigits(-v);
      assert FormatI64(v)[1..] == d;
      if |d| == 1 {
        assert d[0] != '0' by { assert DigitsValue(d) == DigitsValue(d[..0]) * 10 + DigitValue(d[0]); DigitsValueOfNatDigits(-v); }
      }
    }
  }

  /** Round trip from the value: parsing what is printed gives the value back. */
  lemma ParseFormatI64(v: I64)
    ensures ParseI64(FormatI64(v)) == Some(v)
  {
    var s := FormatI64(v);
    if v < 0 {
      var d := NatDigits(-(v as int));
      assert s == "-" + d;
      assert Unsign(s) == (true, d) by { assert s[0] == '-' && s[1..] == d; }
      DigitsValueOfNatDigits(-(v as int));
    } else {
      var d := NatDigits(v);
      assert Unsign(d) == (false, d) by { assert IsDigit(d[0]); }
      DigitsValueOfNatDigits(v);
    }
  }

  /** Round trip from canonical text: a canonical literal is what the printer prints for its value. */
  lemma FormatParseI64(s: string)
    requires IsCanonicalInt(s) && ParseI64(s).Some?
    ensures FormatI64(ParseI64(s).value) == s
  {
    if s[0] == '-' {
      var d := s[1..];
      NatDigitsOfDigitsValue(d);
      if |d| == 1 {
        assert DigitsValue(d) == DigitsValue(d[..0]) * 10 + DigitValue(d[0]);
        assert DigitValue(d[0]) != 0 by { assert DigitChar(0) == '0'; }
      } else {
        DigitsValueAtLeastTen(d);
      }
      assert s == "-" + d;
    } else {
      NatDigitsOfDigitsValue(s);
    }
  }

  /** "+007" is read as 7, which prints as "7". */
  lemma ParsePlusZeroZeroSeven()
    ensures ParseI64("+007") == Some(7)
    ensures FormatI64(7) == "7"
  {
    assert Unsign("+007") == (false, "007");
    DigitsValueLeadingZero("07");
    DigitsValueLeadingZero("7");
    assert "0" + "07" == "007" && "0" + "7" == "07";
    assert DigitsValue("7") == DigitsValue("7"[..0]) * 10 + 7;
  }

  /** Inputs the parser rejects: no digits, a bare sign, a stray character. */
  lemma ParseI64Rejects()
    ensures ParseI64("") == None && ParseI64("+") == None && ParseI64("-") == None
    ensures ParseI64("1.5") == None && ParseI64("12a") == None && ParseI64(" 1") == None
  {
    assert !IsDigit("1.5"[1]) && !IsDigit("12a"[2]) && !IsDigit(" 1"[0]);
  }
}
