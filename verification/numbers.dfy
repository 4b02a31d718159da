/**
 * Python's `int(x)` and `float(x)` on the scalar cells a table row holds.
 * A number cell carries the text Python's `str()` gives for it, so the
 * conversions read that text back as an exact rational, truncate toward
 * zero for `int`, and render the result the way Python prints it.
 */
module Numbers {
  import opened Wrappers
  import opened Text
  import opened Records

  predicate AllDigits(s: string)
  {
    forall i :: 0 <= i < |s| ==> IsDigit(s[i])
  }

  function Pow10(n: nat): (p: nat)
    ensures p >= 1
  {
    if n == 0 then 1 else 10 * Pow10(n - 1)
  }

  /** A digit string of length `n` denotes less than `10^n`. */
  lemma {:induction false} DigitsBound(s: string)
    requires AllDigits(s)
    ensures DigitsValue(s) < Pow10(|s|)
  {
    if s != [] {
      DigitsBound(s[..|s| - 1]);
    }
  }

  /** A leading `-` or `+`, as a factor, and the text after it. */
  function Signed(s: string): (r: (int, string))
    ensures r.0 == 1 || r.0 == -1
    ensures |r.1| <= |s|
  {
    if s != [] && s[0] == '-' then (-1, s[1..])
    else if s != [] && s[0] == '+' then (1, s[1..])
    else (1, s)
  }

  /** An unsigned mantissa `d`, `d.d`, `d.` or `.d` as an exact rational. */
  function MantissaValue(m: string): Option<real>
  {
    if '.' in m then
      var k := FirstIndexOf(m, '.');
      var whole := m[..k];
      var frac := m[k + 1..];
      if AllDigits(whole) && AllDigits(frac) && |whole| + |frac| > 0
      then Some(PointValue(DigitsValue(whole), DigitsValue(frac), |frac|))
      else None
    else if m != [] && AllDigits(m) then Some(DigitsValue(m) as real)
    else None
  }

  /** The value of `w.f` for integer part `w` and a fraction of `k` digits with value `f`. */
  function PointValue(w: nat, f: nat, k: nat): real
  {
    w as real + f as real / Pow10(k) as real
  }

  /** A finite decimal literal `[sign] mantissa [e [sign] digits]` as an exact rational. */
  function DecimalValue(s: string): Option<real>
  {
    var (sign, rest) := Signed(s);
    if 'e' in rest then
      var k := FirstIndexOf(rest, 'e');
      var (esign, digits) := Signed(rest[k + 1..]);
      var m := MantissaValue(rest[..k]);
      if m.Some? && digits != [] && AllDigits(digits) then
        var scale := Pow10(DigitsValue(digits)) as real;
        Some(sign as real * (if esign > 0 then m.value * scale else m.value / scale))
      else None
    else
      var m := MantissaValue(rest);
      if m.Some? then Some(sign as real * m.value) else None
  }

  /** Truncation toward zero, as `int()` does to a float (not the floor). */
  function Trunc(x: real): (i: int)
    ensures 0.0 <= x ==> i as real <= x < i as real + 1.0
    ensures x < 0.0 ==> i as real - 1.0 < x <= i as real
  {
    if 0.0 <= x then x.Floor else -((-x).Floor)
  }

  /** The text Python's `str()` gives for an int: an optional `-`, then ASCII digits. */
  predicate IntRepr(s: string)
  {
    var u := if s != [] && s[0] == '-' then s[1..] else s;
    u != [] && AllDigits(u)
  }

  lemma IntToStringRepr(i: int)
    ensures IntRepr(IntToString(i))
  {
    if i < 0 {
      assert IntToString(i)[1..] == NatToString(-i);
    } else {
      assert IntToString(i)[0] != '-';
    }
  }

  /** `int(text)`: surrounding blanks, an optional sign and at least one ASCII digit. */
  function IntText(s: string): (r: Option<int>)
    ensures r.Some? <==> Signed(Strip(s)).1 != [] && AllDigits(Signed(Strip(s)).1)
  {
    var (sign, digits) := Signed(Strip(s));
    if digits != [] && AllDigits(digits) then Some(sign * DigitsValue(digits)) else None
  }

  /**
   * `int(cell)` for a cell `pd.notna` lets through, rendered as Python prints
   * the int: a bool gives 0 or 1, text must be an integer literal, a float is
   * truncated toward zero, NaN raises `ValueError` and an infinity
   * `OverflowError`.
   */
  function IntCell(c: Cell): (r: Result<Cell>)
    ensures r.Success? ==> r.value.Number? && IntRepr(r.value.repr)
    ensures c.Text? ==> (r.Success? <==> IntText(c.s).Some?)
    ensures c.Number? ==> (r.Success? <==> !NonFinite(c.repr) && DecimalValue(c.repr).Some?)
    ensures c.Null? ==> r.Failure?
  {
    match c
    case Flag(b) =>
      assert IntRepr("1") && IntRepr("0") by { assert "1"[0] != '-' && "0"[0] != '-'; }
      Success(Number(if b then "1" else "0"))
    case Null => Failure("TypeError: int() argument must be a string, a bytes-like object or a real number, not 'NoneType'")
    case Text(s) =>
      var v := IntText(s);
      if v.None? then Failure("ValueError: invalid literal for int() with base 10")
      else
        IntToStringRepr(v.value);
        Success(Number(IntToString(v.value)))
    case Number(repr) =>
      var x := DecimalValue(repr);
      if NonFinite(repr) then
        Failure(if SameIgnoringCase(Signed(repr).1, "nan") then "ValueError: cannot convert float NaN to integer"
                else "OverflowError: cannot convert float infinity to integer")
      else if x.None? then Failure("ValueError: invalid literal for int() with base 10")
      else
        IntToStringRepr(Trunc(x.value));
        Success(Number(IntToString(Trunc(x.value))))
  }

  /** The text Python's `str()` gives for `float(n)` of an int `n`. */
  function FloatRepr(repr: string): (r: string)
    ensures !IntRepr(r)
  {
    if IntRepr(repr) then
      PointNotInt(repr);
      repr + ".0"
    else repr
  }

  /** `float(text)`: surrounding blanks, then a decimal literal or a spelling of NaN or infinity. */
  predicate FloatText(s: string)
  {
    var t := Lower(Strip(s));
    NonFinite(t) || DecimalValue(t).Some?
  }

  /**
   * `float(cell)` for a cell `pd.notna` lets through: a bool gives 0.0 or
   * 1.0, an int gains its `.0`, a float is kept, and text must be a float
   * literal.
   */
  function FloatCell(c: Cell): (r: Result<Cell>)
    ensures r.Success? ==> r.value.Number? && !IntRepr(r.value.repr)
    ensures c.Number? ==> r.Success?
    ensures c.Text? ==> (r.Success? <==> FloatText(c.s))
    ensures c.Null? ==> r.Failure?
  {
    match c
    case Flag(b) => Success(Number(FloatRepr(if b then "1" else "0")))
    case Null => Failure("TypeError: float() argument must be a string or a real number, not 'NoneType'")
    case Number(repr) => Success(Number(FloatRepr(repr)))
    case Text(s) =>
      if FloatText(s) then Success(Number(FloatLiteral(Strip(s))))
      else Failure("ValueError: could not convert string to float")
  }

  /** The cell text of a float literal read from text; an integer literal gains its `.0`. */
  function FloatLiteral(t: string): (r: string)
    ensures !IntRepr(r)
  {
    if IntRepr(t) then
      PointNotInt(t);
      t + ".0"
    else t
  }

  /** Appending `.0` to any text leaves something that is not an int's text. */
  lemma PointNotInt(t: string)
    ensures !IntRepr(t + ".0")
  {
    var s := t + ".0";
    var u := if s != [] && s[0] == '-' then s[1..] else s;
    assert u[|u| - 2] == '.';
  }

  // ---------------------------------------------------------------- what the conversions promise

  /** An int's text is no spelling of NaN or infinity. */
  lemma IntReprFinite(s: string)
    requires IntRepr(s)
    ensures !NonFinite(s)
  {
    var u := if s != [] && (s[0] == '-' || s[0] == '+') then s[1..] else s;
    assert IsDigit(u[0]) && LowerChar(u[0]) == u[0];
  }

  /** The first `c` of `a + [c] + b` is at `|a|` when `a` holds none. */
  lemma FirstIndexAfter(a: string, c: char, b: string)
    requires c !in a
    ensures c in a + [c] + b && FirstIndexOf(a + [c] + b, c) == |a|
  {
    var s := a + [c] + b;
    assert s[|a|] == c;
  }

  /** The decimal text of a natural number reads back as that number. */
  lemma {:induction false} NatTextValue(n: nat)
    ensures Signed(NatToString(n)) == (1, NatToString(n))
    ensures 'e' !in NatToString(n) && '.' !in NatToString(n)
    ensures MantissaValue(NatToString(n)) == Some(n as real)
    ensures DecimalValue(NatToString(n)) == Some(n as real)
  {
    var t := NatToString(n);
    assert IsDigit(t[0]);
    NatToStringValue(n);
  }

  /** An int's text reads back as that int. */
  lemma IntTextValue(i: int)
    ensures DecimalValue(IntToString(i)) == Some(i as real)
  {
    if i < 0 {
      NatTextValue(-i);
      assert Signed(IntToString(i)) == (-1, NatToString(-i));
    } else {
      NatTextValue(i);
    }
  }

  /** `int(n) == n` for an int `n`: an int cell passes through unchanged. */
  lemma IntCellOfInt(i: int)
    ensures IntCell(Number(IntToString(i))) == Success(Number(IntToString(i)))
  {
    IntToStringRepr(i);
    IntReprFinite(IntToString(i));
    IntTextValue(i);
  }

  /** An int's text has no surrounding blanks. */
  lemma IntTextStripped(i: int)
    ensures Strip(IntToString(i)) == IntToString(i)
  {
    var t := IntToString(i);
    IntToStringRepr(i);
    assert !IsSpace(t[0]) && !IsSpace(t[|t| - 1]);
    StripPadded([], t);
    assert [] + t == t;
  }

  /** The text of a negative int splits into its minus sign and the digits of its magnitude. */
  lemma NegativeSigned(k: nat)
    requires k > 0
    ensures Signed(IntToString(-(k as int))) == (-1, NatToString(k))
  {
    var t := IntToString(-(k as int));
    assert t[1..] == NatToString(k);
  }

  /** `int(text)` reads an int's own text back. */
  lemma IntTextRoundTrip(i: int)
    ensures IntText(IntToString(i)) == Some(i)
  {
    IntTextStripped(i);
    if i < 0 {
      NatToStringValue(-i);
      NegativeSigned(-i);
    } else {
      NatToStringValue(i);
      NatTextValue(i);
    }
  }

  /** `n + f / 10^k` with `f < 10^k` truncates to `n`. */
  lemma FractionTrunc(n: nat, f: nat, k: nat)
    requires f < Pow10(k)
    ensures Trunc(PointValue(n, f, k)) == n
    ensures Trunc(-1.0 * PointValue(n, f, k)) == -(n as int)
  {
    var p := Pow10(k) as real;
    var q := f as real / p;
    assert q * p == f as real;
    QuotientBelowOne(f as real, p);
    var x := PointValue(n, f, k);
    assert x == n as real + q;
    assert Trunc(x) == n;
    assert -1.0 * x == -(n as real) - q;
  }

  /** The text `w.f` of a float with an integer part and a fraction: unsigned, finite, with no exponent. */
  lemma PointedShape(w: string, frac: string)
    requires w != [] && AllDigits(w) && AllDigits(frac)
    ensures var m := w + "." + frac;
      'e' !in m && Signed(m) == (1, m) && !NonFinite(m) && Signed("-" + m) == (-1, m) && !NonFinite("-" + m)
  {
    var m := w + "." + frac;
    assert m[0] == w[0] && LowerChar(m[0]) == m[0];
    assert forall k :: 0 <= k < |m| ==> m[k] == '.' || IsDigit(m[k]);
    assert ("-" + m)[1..] == m;
  }

  /** The mantissa `w.f` denotes `w + f / 10^|f|`. */
  lemma PointedMantissa(w: string, frac: string)
    requires AllDigits(w) && AllDigits(frac) && |w| + |frac| > 0
    ensures MantissaValue(w + "." + frac) == Some(PointValue(DigitsValue(w), DigitsValue(frac), |frac|))
  {
    var m := w + "." + frac;
    FirstIndexAfter(w, '.', frac);
    assert m == w + ['.'] + frac;
    var k := FirstIndexOf(m, '.');
    assert k == |w| && '.' in m;
    assert m[..k] == w && m[k + 1..] == frac;
  }

  lemma QuotientBelowOne(f: real, p: real)
    requires 0.0 <= f < p
    ensures 0.0 <= f / p < 1.0
  {
  }

  /** A finite float cell converts to the truncation of its value. */
  lemma IntCellOfDecimal(repr: string, x: real, i: int)
    requires !NonFinite(repr) && DecimalValue(repr) == Some(x) && Trunc(x) == i
    ensures IntCell(Number(repr)) == Success(Number(IntToString(i)))
  {
  }

  /** An unsigned literal with no exponent denotes its mantissa. */
  lemma DecimalOfMantissa(m: string, x: real)
    requires Signed(m) == (1, m) && 'e' !in m && MantissaValue(m) == Some(x)
    ensures DecimalValue(m) == Some(x)
  {
  }

  /** A negated literal with no exponent denotes minus its mantissa. */
  lemma DecimalOfNegated(m: string, x: real)
    requires Signed("-" + m) == (-1, m) && 'e' !in m && MantissaValue(m) == Some(x)
    ensures DecimalValue("-" + m) == Some(-1.0 * x)
  {
  }

  /** The mantissa `n.f` has the value `n + f / 10^|f|`. */
  lemma PointedValue(n: nat, frac: string)
    requires frac != [] && AllDigits(frac)
    ensures 'e' !in NatToString(n) + "." + frac
    ensures MantissaValue(NatToString(n) + "." + frac) == Some(PointValue(n, DigitsValue(frac), |frac|))
  {
    var w := NatToString(n);
    PointedShape(w, frac);
    PointedMantissa(w, frac);
    NatToStringValue(n);
  }

  /** The text `n.f` is a finite literal whose value truncates to `n`. */
  lemma PointedTrunc(n: nat, frac: string)
    requires frac != [] && AllDigits(frac)
    ensures var m := NatToString(n) + "." + frac;
      var v := PointValue(n, DigitsValue(frac), |frac|);
      !NonFinite(m) && DecimalValue(m) == Some(v) && Trunc(v) == n
  {
    var m := NatToString(n) + "." + frac;
    var v := PointValue(n, DigitsValue(frac), |frac|);
    PointedShape(NatToString(n), frac);
    PointedValue(n, frac);
    DecimalOfMantissa(m, v);
    DigitsBound(frac);
    FractionTrunc(n, DigitsValue(frac), |frac|);
  }

  /** A fractional float truncates toward zero: `int(2.7) == 2`. */
  lemma IntCellTruncates(n: nat, frac: string)
    requires frac != [] && AllDigits(frac)
    ensures IntCell(Number(NatToString(n) + "." + frac)) == Success(Number(IntToString(n)))
  {
    PointedTrunc(n, frac);
    IntCellOfDecimal(NatToString(n) + "." + frac, PointValue(n, DigitsValue(frac), |frac|), n);
  }

  /** A negative fractional float truncates toward zero too: `int(-2.7) == -2`, not `-3`. */
  lemma IntCellTruncatesNegative(n: nat, frac: string)
    requires frac != [] && AllDigits(frac)
    ensures IntCell(Number("-" + (NatToString(n) + "." + frac))) == Success(Number(IntToString(-(n as int))))
  {
    var m := NatToString(n) + "." + frac;
    var v := PointValue(n, DigitsValue(frac), |frac|);
    PointedShape(NatToString(n), frac);
    PointedValue(n, frac);
    DecimalOfNegated(m, v);
    DigitsBound(frac);
    FractionTrunc(n, DigitsValue(frac), |frac|);
    IntCellOfDecimal("-" + m, -1.0 * v, -(n as int));
  }

  /**
   * `int(float(n)) == n` for an int `n` up to 2^53, where every int is a
   * double and Python prints it as `n.0`.
   */
  lemma IntOfFloatOfInt(n: nat)
    requires n <= 0x20_0000_0000_0000
    ensures FloatCell(Number(IntToString(n))) == Success(Number(IntToString(n) + ".0"))
    ensures IntCell(Number(IntToString(n) + ".0")) == Success(Number(IntToString(n)))
  {
    IntToStringRepr(n);
    IntCellTruncates(n, "0");
    assert IntToString(n) + ".0" == NatToString(n) + "." + "0";
  }

  /** Converting a converted float again changes nothing: `float(float(x)) == float(x)`. */
  lemma FloatCellIdempotent(c: Cell)
    requires FloatCell(c).Success?
    ensures FloatCell(FloatCell(c).value) == FloatCell(c)
  {
  }
}
