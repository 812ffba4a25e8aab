/**
 * Python's `int(x)` and `float(x)` on the values a validator receives.
 * Which strings they accept follows Python's documented literal grammar
 * (surrounding whitespace as `NumberStrip` skips it, one optional sign,
 * digits with single underscores between them; for `float` also a decimal point, an exponent and the words
 * `inf`, `infinity` and `nan` in any letter case). Only ASCII digits are
 * modelled. The double a decimal literal or a large integer rounds to is a
 * `Runtime` function.
 */
module PyNumber {
  import opened PyText
  import opened PyValue

  /** The exceptions `float()` raises. */
  datatype Exc = ValueError | TypeError | OverflowError

  predicate IsDigit(c: char) {
    '0' <= c <= '9'
  }

  /** Python's `digitpart`: digits, with single underscores allowed only between two digits. */
  predicate DigitPart(s: string) {
    && |s| > 0
    && forall k | 0 <= k < |s| ::
         || IsDigit(s[k])
         || (s[k] == '_' && 0 < k < |s| - 1 && IsDigit(s[k - 1]) && IsDigit(s[k + 1]))
  }

  /** The number a digit part denotes; underscores carry no value. */
  function DigitsValue(s: string): nat
  {
    if s == [] then 0
    else
      var rest := DigitsValue(s[..|s| - 1]);
      var last := s[|s| - 1];
      if IsDigit(last) then rest * 10 + (last as int - '0' as int) else rest
  }

  /** The sign in front of a numeric literal and the text after it. */
  function SignAndBody(t: string): (int, string)
  {
    if |t| > 0 && t[0] == '-' then (-1, t[1..])
    else if |t| > 0 && t[0] == '+' then (1, t[1..])
    else (1, t)
  }

  /** Python's `int(s)` for a `str`: `None` when it raises `ValueError`. */
  function ParseInt(s: string): (r: Option<int>)
    ensures r.Some? ==> NumberStrip(s) != ""
    ensures r.Some? && r.value < 0 ==> NumberStrip(s)[0] == '-'
  {
    var sb := SignAndBody(NumberStrip(s));
    if DigitPart(sb.1) then Some(sb.0 * DigitsValue(sb.1)) else None
  }

  function DigitChar(d: nat): (c: char)
    requires d < 10
    ensures IsDigit(c)
  {
    ('0' as int + d) as char
  }

  /** The decimal digits of `n`, most significant first. */
  function Digits(n: nat): (s: string)
    ensures |s| > 0
    ensures forall k | 0 <= k < |s| :: IsDigit(s[k])
  {
    if n < 10 then [DigitChar(n)] else Digits(n / 10) + [DigitChar(n % 10)]
  }

  /** Python's `str(n)` for an `int`. */
  function Decimal(n: int): string
  {
    if n < 0 then "-" + Digits(-n) else Digits(n)
  }

  lemma {:induction false} DigitsValueOfDigits(n: nat)
    ensures DigitsValue(Digits(n)) == n
  {
    if n >= 10 {
      DigitsValueOfDigits(n / 10);
      var s := Digits(n);
      assert s[..|s| - 1] == Digits(n / 10);
    }
  }

  /** `int(str(n)) == n`: printing an integer and parsing it back is the identity. */
  lemma ParseDecimal(n: int)
    ensures ParseInt(Decimal(n)) == Some(n)
  {
    var s := Decimal(n);
    var m: nat := if n < 0 then -n else n;
    var digits := Digits(m);
    DigitsValueOfDigits(m);
    assert DigitPart(digits);
    assert !IsNumberSpace(s[0]) && !IsNumberSpace(s[|s| - 1]) by {
      assert s[|s| - 1] == digits[|digits| - 1];
    }
    NumberStripNoop(s);
    if n < 0 {
      assert s[1..] == digits;
      assert SignAndBody(s) == (-1, digits);
    } else {
      assert SignAndBody(s) == (1, digits);
    }
  }

  /** The decimal text of an integer starts with a sign or a digit and ends with a digit. */
  lemma DecimalEnds(n: int)
    ensures var d := Decimal(n); d != "" && !IsNumberSpace(d[0]) && !IsNumberSpace(d[|d| - 1])
  {
    var m: nat := if n < 0 then -n else n;
    var d := Decimal(n);
    assert d[|d| - 1] == Digits(m)[|Digits(m)| - 1];
  }

  /** One whitespace character in front of text without whitespace at its ends is skipped. */
  lemma SpaceBefore(c: char, d: string)
    requires IsNumberSpace(c)
    requires d != "" && !IsNumberSpace(d[0]) && !IsNumberSpace(d[|d| - 1])
    ensures NumberStrip([c] + d) == NumberStrip(d) == d
  {
    var s := [c] + d;
    assert s[..1] == [c] && s[|s|..] == [] && s[1..] == d;
    NumberStripUnique(s, 1, |s|);
    NumberStripNoop(d);
  }

  /** `float()`'s words, compared without regard to letter case. */
  predicate IsInfOrNan(u: string) {
    Lower(u) == "inf" || Lower(u) == "infinity" || Lower(u) == "nan"
  }

  predicate IsExponentMark(c: char) {
    c == 'e' || c == 'E'
  }

  /** Position of the first exponent mark in `u` (or `|u|`). */
  function FindExponent(u: string): (i: nat)
    ensures i <= |u|
    ensures forall k | 0 <= k < i :: !IsExponentMark(u[k])
    ensures i < |u| ==> IsExponentMark(u[i])
  {
    if u == [] || IsExponentMark(u[0]) then 0 else 1 + FindExponent(u[1..])
  }

  /** Position of the first `.` in `u` (or `|u|`). */
  function FindDot(u: string): (i: nat)
    ensures i <= |u|
    ensures forall k | 0 <= k < i :: u[k] != '.'
    ensures i < |u| ==> u[i] == '.'
  {
    if u == [] || u[0] == '.' then 0 else 1 + FindDot(u[1..])
  }

  /** Python's `number ::= [digitpart] "." digitpart | digitpart ["."]`. */
  predicate Mantissa(m: string) {
    var d := FindDot(m);
    if d == |m| then DigitPart(m)
    else
      var left, right := m[..d], m[d + 1..];
      && (left == "" || DigitPart(left))
      && (right == "" || DigitPart(right))
      && !(left == "" && right == "")
  }

  /** Python's `floatnumber ::= number [("e" | "E") [sign] digitpart]`. */
  predicate FloatNumber(u: string) {
    var e := FindExponent(u);
    Mantissa(u[..e]) && (e == |u| || DigitPart(SignAndBody(u[e + 1..]).1))
  }

  /** Whether Python's `float(s)` accepts the string `s`. */
  predicate FloatSyntax(s: string): (b: bool)
    ensures b ==> NumberStrip(s) != ""
  {
    var body := SignAndBody(NumberStrip(s)).1;
    IsInfOrNan(body) || FloatNumber(body)
  }

  /** 2^1024 - 2^970: from this magnitude on, `float(n)` of an `int` raises `OverflowError`. */
  const FloatOverflowThreshold: int :=
    0xfffffffffffffc00_0000000000000000_0000000000000000_0000000000000000_0000000000000000_0000000000000000_0000000000000000_0000000000000000_0000000000000000_0000000000000000_0000000000000000_0000000000000000_0000000000000000_0000000000000000_0000000000000000_0000000000000000

  /** Python's `float(v)`. */
  function FloatCall(rt: Runtime, v: Value): (r: Result<Double, Exc>)
    ensures r.Err? && r.error == ValueError ==> v.VStr?
    ensures v.VStr? ==> (r.Ok? <==> FloatSyntax(v.s))
  {
    match v
    case VStr(s) => if FloatSyntax(s) then Ok(rt.doubleOfText(s)) else Err(ValueError)
    case VBool(b) => Ok(if b then PositiveOne else PositiveZero)
    case VInt(i) =>
      if -FloatOverflowThreshold < i < FloatOverflowThreshold then Ok(rt.doubleOfInt(i)) else Err(OverflowError)
    case VFloat(d) => Ok(d)
    case _ => Err(TypeError)
  }

  function Pow2(n: nat): (r: nat)
    ensures r > 0
  {
    if n == 0 then 1 else 2 * Pow2(n - 1)
  }

  lemma {:induction false} Pow2Add(a: nat, b: nat)
    ensures Pow2(a + b) == Pow2(a) * Pow2(b)
  {
    if a > 0 { Pow2Add(a - 1, b); }
  }

  lemma Pow2FiftyOne()
    ensures Pow2(51) == 0x8_0000_0000_0000
  {
    assert Pow2(10) == 0x400;
    Pow2Add(10, 10);
    Pow2Add(20, 20);
    Pow2Add(40, 10);
    assert Pow2(51) == 2 * Pow2(50);
  }

  /**
   * Python's `int(x)` for a float: truncation toward zero of the double's value;
   * `None` for NaN (`ValueError`) and the infinities (`OverflowError`).
   */
  function Truncate(d: Double): (r: Option<int>)
    ensures r.None? <==> NonFinite(d)
    ensures IsZero(d) ==> r == Some(0)
    ensures r.Some? ==> (d.bits >= 0x8000_0000_0000_0000 ==> r.value <= 0) && (d.bits < 0x8000_0000_0000_0000 ==> r.value >= 0)
  {
    ZeroExponent();
    var negative := d.bits >= 0x8000_0000_0000_0000;
    var biased := Exponent(d);
    var fraction := Fraction(d);
    if biased == 0x7FF then None
    else if biased == 0 then Some(0)
    else
      var magnitude: int := Magnitude(biased, fraction);
      Some(if negative then -magnitude else magnitude)
  }

  /** Both zeros have a zero exponent. */
  lemma ZeroExponent()
    ensures Exponent(PositiveZero) == 0 && Exponent(NegativeZero) == 0
  {
  }

  /** The integer part of the value of a normal double with the given biased exponent and fraction bits. */
  function Magnitude(biased: nat, fraction: nat): nat {
    var significand: nat := fraction + 0x10_0000_0000_0000;
    if biased >= 1075 then ScaleUp(significand, biased - 1075)
    else Quotient(significand, Pow2(1075 - biased))
  }

  /** `a * 2^n`. */
  function ScaleUp(a: nat, n: nat): nat {
    a * Pow2(n)
  }

  /** Floor division of naturals. */
  function Quotient(a: nat, b: nat): nat
    requires b > 0
  {
    a / b
  }

  /** Python's `int(v)`: `None` when it raises (`ValueError`, `TypeError` or `OverflowError`). */
  function IntCall(v: Value): (r: Option<int>)
    ensures v.VInt? ==> r == Some(v.i)
    ensures v.VFloat? ==> (r.None? <==> NonFinite(v.d))
    ensures v.VNone? || v.VList? || v.VDict? || v.VDatetime? ==> r.None?
  {
    match v
    case VStr(s) => ParseInt(s)
    case VBool(b) => Some(if b then 1 else 0)
    case VInt(i) => Some(i)
    case VFloat(d) => Truncate(d)
    case _ => None
  }

  /** A digit part contains neither a decimal point nor an exponent mark. */
  lemma DigitPartPlain(s: string)
    requires DigitPart(s)
    ensures FindDot(s) == |s| && FindExponent(s) == |s|
  {
  }

  /** Every string `int()` accepts, `float()` accepts too. */
  lemma IntSyntaxIsFloatSyntax(s: string)
    requires ParseInt(s).Some?
    ensures FloatSyntax(s)
  {
    var body := SignAndBody(NumberStrip(s)).1;
    DigitPartPlain(body);
    assert body[..|body|] == body;
  }

  /**
   * What `float()` accepts starts, after whitespace, with a sign, a digit, a
   * point, or the first letter of `inf` or `nan`.
   */
  lemma FloatSyntaxStart(s: string)
    requires FloatSyntax(s)
    ensures var t := NumberStrip(s); t != "" && (t[0] in "+-.0123456789iInN")
  {
    var t := NumberStrip(s);
    var body := SignAndBody(t).1;
    if t != [] && (t[0] == '+' || t[0] == '-') {
    } else {
      assert body == t;
      if IsInfOrNan(body) {
        assert Lower(body)[0] == LowerChar(body[0]);
      } else {
        var e := FindExponent(body);
        var m := body[..e];
        assert Mantissa(m);
        var d := FindDot(m);
        if d == |m| {
          assert IsDigit(m[0]);
        } else if d == 0 {
          assert m[0] == '.';
        } else {
          assert m[..d][0] == m[0];
          assert IsDigit(m[0]);
        }
        assert body[0] == m[0];
      }
    }
  }

  /** `float()` rejects every string that starts, after whitespace, with any other character. */
  lemma NotFloatSyntax(s: string)
    requires var t := NumberStrip(s); t == "" || t[0] !in "+-.0123456789iInN"
    ensures !FloatSyntax(s)
  {
    if FloatSyntax(s) {
      FloatSyntaxStart(s);
    }
  }
}
