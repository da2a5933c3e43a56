/**
 * The f64 values of the float column and of every aggregate. A value is an
 * exact decimal mantissa * 10^-scale kept in normal form (no trailing zero
 * after the point), so that two values are equal exactly when the numbers
 * are. Parsing accepts the plain decimal literals `str::parse::<f64>`
 * accepts, and printing gives what f64's Display prints for a value that
 * is exactly representable. Binary rounding is not modelled.
 */
module Floats {
  import opened Wrappers
  import opened DecimalText
  import opened Text

  datatype Decimal = Decimal(mantissa: int, scale: nat)

  predicate Normalized(d: Decimal) { d.scale == 0 || d.mantissa % 10 != 0 }

  /** An f64 value of the library. */
  type Float = d: Decimal | Normalized(d) witness Decimal(0, 0)

  function Pow10(n: nat): (p: nat)
    ensures p >= 1
  {
    if n == 0 then 1 else 10 * Pow10(n - 1)
  }

  /** The number a decimal denotes. */
  function Value(d: Decimal): real
  {
    d.mantissa as real / Pow10(d.scale) as real
  }

  function Abs(x: int): nat { if x < 0 then -x else x }

  // ---------------------------------------------------------------------------
  // Arithmetic

  lemma DivCancel(x: real, p: real, q: real)
    requires p > 0.0 && q > 0.0
    ensures (x * q) / (p * q) == x / p
  {
    var v := x / p;
    assert v * p == x;
    assert (v * p) * q == x * q;
    assert v * (p * q) == x * q;
  }

  lemma MulReal(a: int, b: int)
    ensures (a * b) as real == a as real * b as real
  {
  }

  lemma DropTrailingZero(m: int, e: nat)
    requires e > 0 && m % 10 == 0
    ensures Value(Decimal(m / 10, e - 1)) == Value(Decimal(m, e))
  {
    var q := m / 10;
    var p := Pow10(e - 1);
    assert m == q * 10;
    MulReal(q, 10);
    MulReal(p, 10);
    assert Pow10(e) == p * 10;
    DivCancel(q as real, p as real, 10.0);
  }

  /** Removes trailing zeros after the point; the number is unchanged. */
  function Normalize(d: Decimal): (r: Float)
    ensures Value(r) == Value(d)
    decreases d.scale
  {
    if d.scale > 0 && d.mantissa % 10 == 0 then
      DropTrailingZero(d.mantissa, d.scale);
      Normalize(Decimal(d.mantissa / 10, d.scale - 1))
    else d
  }

  lemma {:induction false} Pow10Add(a: nat, b: nat)
    ensures Pow10(a + b) == Pow10(a) * Pow10(b)
  {
    if b > 0 {
      Pow10Add(a, b - 1);
      assert Pow10(a + b) == 10 * Pow10(a + b - 1);
    }
  }

  /** Appending k zeros to the mantissa and k to the scale keeps the number. */
  lemma Rescale(m: int, e: nat, k: nat)
    ensures Value(Decimal(m * Pow10(k), e + k)) == Value(Decimal(m, e))
  {
    Pow10Add(e, k);
    MulReal(m, Pow10(k));
    MulReal(Pow10(e), Pow10(k));
    DivCancel(m as real, Pow10(e) as real, Pow10(k) as real);
  }

  const Zero: Float := Decimal(0, 0)

  /** `n as f64`, for a count. */
  function FromNat(n: nat): (r: Float)
    ensures Value(r) == n as real
  {
    Decimal(n, 0)
  }

  lemma SumAtScale(x: int, y: int, e: nat)
    ensures Value(Decimal(x + y, e)) == Value(Decimal(x, e)) + Value(Decimal(y, e))
  {
    var p := Pow10(e) as real;
    assert (x + y) as real == x as real + y as real;
    assert (x as real + y as real) / p == x as real / p + y as real / p;
  }

  /** f64 addition, exact here. */
  function Add(a: Float, b: Float): (r: Float)
    ensures Value(r) == Value(a) + Value(b)
  {
    var e := if a.scale >= b.scale then a.scale else b.scale;
    var x := a.mantissa * Pow10(e - a.scale);
    var y := b.mantissa * Pow10(e - b.scale);
    Rescale(a.mantissa, a.scale, e - a.scale);
    Rescale(b.mantissa, b.scale, e - b.scale);
    SumAtScale(x, y, e);
    Normalize(Decimal(x + y, e))
  }

  lemma CrossMultiply(x: real, p: real, y: real, q: real)
    requires p > 0.0 && q > 0.0 && x / p == y / q
    ensures x * q == y * p
  {
    var v := x / p;
    assert v * p == x;
    assert v * q == y;
    assert x * q == v * p * q == y * p;
  }

  lemma CancelFactor(x: int, y: int, p: int)
    requires p > 0 && x * p == y * p
    ensures x == y
  {
  }

  lemma MulRegroup(x: int, p: int, q: int)
    ensures x * (p * q) == (x * q) * p
  {
  }

  lemma TimesTen(x: int, p: int)
    ensures x * (10 * p) == (x * p) * 10 && ((x * p) * 10) % 10 == 0
  {
  }

  lemma MultipleOfTen(x: int, k: nat)
    ensures k > 0 ==> (x * Pow10(k)) % 10 == 0
  {
    if k > 0 {
      var p := Pow10(k - 1);
      assert Pow10(k) == 10 * p;
      TimesTen(x, p);
    }
  }

  lemma SameValueCross(a: Decimal, b: Decimal)
    requires Value(a) == Value(b)
    ensures a.mantissa * Pow10(b.scale) == b.mantissa * Pow10(a.scale)
  {
    var pa := Pow10(a.scale);
    var pb := Pow10(b.scale);
    CrossMultiply(a.mantissa as real, pa as real, b.mantissa as real, pb as real);
    MulReal(a.mantissa, pb);
    MulReal(b.mantissa, pa);
  }

  /** Normal forms are unique: two floats with the same number are the same float. */
  lemma ValueInjective(a: Float, b: Float)
    requires Value(a) == Value(b)
    ensures a == b
    decreases if a.scale > b.scale then 1 else 0
  {
    if a.scale > b.scale {
      ValueInjective(b, a);
    } else {
      var k := b.scale - a.scale;
      var pa := Pow10(a.scale);
      var pk := Pow10(k);
      SameValueCross(a, b);
      Pow10Add(a.scale, k);
      MulRegroup(a.mantissa, pa, pk);
      CancelFactor(a.mantissa * pk, b.mantissa, pa);
      MultipleOfTen(a.mantissa, k);
    }
  }

  // ---------------------------------------------------------------------------
  // Text

  /** Puts zeros in front of s until it has at least w characters. */
  function PadZeros(s: string, w: nat): (r: string)
    requires AllDigits(s)
    ensures |r| >= w && |r| >= |s| && AllDigits(r)
    ensures DigitsValue(r) == DigitsValue(s)
    decreases w - |s|
  {
    if |s| >= w then s
    else
      DigitsValueLeadingZero(s);
      PadZeros("0" + s, w)
  }

  /** The digits of |mantissa|, with enough leading zeros for one digit before the point. */
  function FloatDigits(d: Float): (r: string)
    ensures AllDigits(r) && |r| > d.scale && DigitsValue(r) == Abs(d.mantissa)
  {
    DigitsValueOfNatDigits(Abs(d.mantissa));
    PadZeros(NatDigits(Abs(d.mantissa)), d.scale + 1)
  }

  /** The unsigned text: the digits, with the point before the last `scale` of them. */
  function FloatBody(d: Float): string
  {
    var digits := FloatDigits(d);
    var k := |digits| - d.scale;
    if d.scale == 0 then digits else digits[..k] + "." + digits[k..]
  }

  /** f64's Display for an exactly representable value: no exponent, no trailing zero. */
  function FormatFloat(d: Float): string
  {
    (if d.mantissa < 0 then "-" else "") + FloatBody(d)
  }

  lemma AllDigitsConcat(a: string, b: string)
    requires AllDigits(a) && AllDigits(b)
    ensures AllDigits(a + b)
  {
    assert forall i :: |a| <= i < |a + b| ==> (a + b)[i] == b[i - |a|];
  }

  /** An unsigned decimal: digits with at most one point and at least one digit.
      Gives the digits' value and the number of digits after the point. */
  function ParseUnsigned(body: string): Option<(nat, nat)>
  {
    var dot := IndexOf(body, '.');
    var whole := body[..dot];
    var fraction := if dot < |body| then body[dot + 1..] else "";
    if !AllDigits(whole) || !AllDigits(fraction) || |whole| + |fraction| == 0 then None
    else
      AllDigitsConcat(whole, fraction);
      Some((DigitsValue(whole + fraction), |fraction|))
  }

  /** `str::parse::<f64>` on plain decimals: an optional sign, then digits with at most one point and at least one digit. */
  function ParseFloat(s: string): Option<Float>
  {
    var (negative, body) := Unsign(s);
    match ParseUnsigned(body)
    case None => None
    case Some((m, e)) => Some(Normalize(Decimal(if negative then -(m as int) else m, e)))
  }

  /** A run of digits, a point, a run of digits: the point is the first one. */
  lemma DotIndexSplit(a: string, b: string)
    requires AllDigits(a) && AllDigits(b)
    ensures IndexOf(a + "." + b, '.') == |a|
    ensures (a + "." + b)[..|a|] == a && (a + "." + b)[|a| + 1..] == b
  {
    var s := a + "." + b;
    assert s[|a|] == '.';
    assert forall j :: 0 <= j < |a| ==> s[j] == a[j];
  }

  lemma DotIndexDigits(a: string)
    requires AllDigits(a)
    ensures IndexOf(a, '.') == |a| && a[..|a|] == a
  {
  }

  lemma ParseFloatBody(d: Float)
    ensures ParseUnsigned(FloatBody(d)) == Some((Abs(d.mantissa), d.scale))
  {
    var digits := FloatDigits(d);
    if d.scale == 0 {
      DotIndexDigits(digits);
      assert digits + "" == digits;
    } else {
      var k := |digits| - d.scale;
      DotIndexSplit(digits[..k], digits[k..]);
      assert digits[..k] + digits[k..] == digits;
    }
  }

  lemma UnsignFormatFloat(d: Float)
    ensures Unsign(FormatFloat(d)) == (d.mantissa < 0, FloatBody(d))
  {
    var body := FloatBody(d);
    var s := FormatFloat(d);
    assert IsDigit(FloatDigits(d)[0]);
    assert IsDigit(body[0]);
    if d.mantissa < 0 {
      assert s[0] == '-' && s[1..] == body;
    } else {
      assert s == body;
    }
  }

  /** Round trip: parsing the printed text of a float gives the float back. */
  lemma ParseFormatFloat(d: Float)
    ensures ParseFloat(FormatFloat(d)) == Some(d)
  {
    UnsignFormatFloat(d);
    ParseFloatBody(d);
    assert Normalize(d) == d;
  }

  /** Text that is not a decimal literal is rejected. */
  lemma ParseFloatRejects()
    ensures ParseFloat("") == None && ParseFloat(".") == None && ParseFloat("-") == None
    ensures ParseFloat("abc") == None && ParseFloat("1.2.3") == None
  {
    assert IndexOf("abc", '.') == 3 by {
      assert IndexOf("abc"[1..][1..][1..], '.') == 0;
    }
    assert !IsDigit("abc"[0]);
    var b := "1.2.3";
    assert IndexOf(b, '.') == 1 by { assert b[0] != '.' && b[1] == '.'; assert b[1..][0] == '.'; }
    assert b[2..][1] == '.';
  }

  /** Integer text parses to the same whole number as a float. */
  lemma ParseFloatOfInt(v: I64)
    ensures ParseFloat(FormatI64(v)) == Some(Decimal(v, 0))
  {
    var a := Abs(v);
    var digits := NatDigits(a);
    DigitsValueOfNatDigits(a);
    var s := FormatI64(v);
    assert IsDigit(digits[0]);
    if v < 0 {
      assert s == "-" + digits;
      assert Unsign(s) == (true, digits) by { assert s[0] == '-' && s[1..] == digits; }
    } else {
      assert Unsign(s) == (false, digits);
    }
    assert IndexOf(digits, '.') == |digits|;
    assert digits[..|digits|] + "" == digits;
  }
}
