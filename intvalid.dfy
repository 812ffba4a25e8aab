/**
 * `IntValidator`: Python's `int(value)`, with every exception it raises
 * turned into the one failure "Value is not an integer."
 */
module IntValid {
  import opened PyText
  import opened PyValue
  import opened PyNumber
  import opened Validator

  /** `IntValidator.validate(value)`. */
  function Validate(v: Value): (r: Validated)
    ensures r.Ok? <==> IntCall(v).Some?
    ensures r.Ok? ==> r.value == VInt(IntCall(v).value)
    ensures r.Err? ==> r.error == NotAnInteger
  {
    match IntCall(v)
    case Some(n) => Ok(VInt(n))
    case None => Err(NotAnInteger)
  }

  /** `int(str(n)) == n`: the decimal text of any integer validates to that integer. */
  lemma ValidatesDecimal(n: int)
    ensures Validate(VStr(Decimal(n))) == Ok(VInt(n))
  {
    ParseDecimal(n);
  }

  /** Surrounding whitespace and a sign are accepted: `" -42 "` gives -42. */
  lemma ValidatesSignedPadded()
    ensures Validate(VStr(" -42 ")) == Ok(VInt(-42))
  {
    PaddedFortyTwo();
    FortyTwoDigits();
    assert SignAndBody("-42") == (-1, "42");
  }

  lemma PaddedFortyTwo()
    ensures NumberStrip(" -42 ") == "-42"
  {
    var s := " -42 ";
    NumberStripUnique(s, 1, 4);
    assert s[1..4] == "-42";
  }

  lemma FortyTwoDigits()
    ensures DigitPart("42") && DigitsValue("42") == 42
  {
    var s := "42";
    assert s[..1] == "4" && "4"[..0] == "";
  }

  /** Underscores between digits are accepted, as in Python literals: `"1_000"` gives 1000. */
  lemma ValidatesUnderscores()
    ensures Validate(VStr("1_000")) == Ok(VInt(1000))
  {
    ThousandDigits();
    assert SignAndBody("1_000") == (1, "1_000");
  }

  lemma ThousandDigits()
    ensures NumberStrip("1_000") == "1_000" && DigitPart("1_000") && DigitsValue("1_000") == 1000
  {
    NumberStripNoop("1_000");
    ThousandIsDigitPart();
    ThousandValue();
  }

  lemma ThousandIsDigitPart()
    ensures DigitPart("1_000")
  {
    var s := "1_000";
    assert s[0] == '1' && s[1] == '_' && s[2] == '0' && s[3] == '0' && s[4] == '0';
  }

  lemma ThousandValue()
    ensures DigitsValue("1_000") == 1000
  {
    var s := "1_000";
    assert s[..4] == "1_00" && "1_00"[..3] == "1_0" && "1_0"[..2] == "1_" && "1_"[..1] == "1" && "1"[..0] == "";
  }

  /** A decimal fraction is not an integer literal: `"3.5"` fails. */
  lemma RejectsFraction()
    ensures Validate(VStr("3.5")) == Err(NotAnInteger)
  {
    NumberStripNoop("3.5");
    assert !IsDigit("3.5"[1]);
  }

  /** A word fails: `"abc"`. */
  lemma RejectsWord()
    ensures Validate(VStr("abc")) == Err(NotAnInteger)
  {
    NumberStripNoop("abc");
    assert !IsDigit("abc"[0]);
  }

  /** The empty string fails. */
  lemma RejectsEmpty()
    ensures Validate(VStr("")) == Err(NotAnInteger)
  {
    NumberStripNoop("");
  }

  /** A JSON integer is returned unchanged, and a JSON boolean becomes 1 or 0. */
  lemma IntsAndBools(n: int, b: bool)
    ensures Validate(VInt(n)) == Ok(VInt(n))
    ensures Validate(VBool(b)) == Ok(VInt(if b then 1 else 0))
  {
  }

  /** `None`, lists, objects and datetimes make `int()` raise `TypeError`, reported as not an integer. */
  lemma RejectsContainers(v: Value)
    requires v.VNone? || v.VList? || v.VDict? || v.VDatetime?
    ensures Validate(v) == Err(NotAnInteger)
  {
  }

  /** A JSON float is truncated toward zero: 2.5 gives 2. */
  lemma TruncatesPositive()
    ensures Validate(VFloat(Double(0x4004_0000_0000_0000))) == Ok(VInt(2))
  {
    Pow2FiftyOne();
    var d := Double(0x4004_0000_0000_0000);
    assert Exponent(d) == 1024;
    assert Fraction(d) == 0x4_0000_0000_0000;
    assert 0x14_0000_0000_0000 / 0x8_0000_0000_0000 == 2;
  }

  /** And -2.5 gives -2. */
  lemma TruncatesNegative()
    ensures Validate(VFloat(Double(0xC004_0000_0000_0000))) == Ok(VInt(-2))
  {
    Pow2FiftyOne();
    var d := Double(0xC004_0000_0000_0000);
    assert Exponent(d) == 1024;
    assert Fraction(d) == 0x4_0000_0000_0000;
    assert 0x14_0000_0000_0000 / 0x8_0000_0000_0000 == 2;
  }

  /** NaN and the infinities make `int()` raise, so they fail. */
  lemma RejectsNanAndInfinity(d: Double)
    requires NonFinite(d)
    ensures Validate(VFloat(d)) == Err(NotAnInteger)
  {
  }
}
