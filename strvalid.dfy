/**
 * `StrValidator`: accepts a string only when it does not read as a number or
 * as a boolean word. The numeric check runs first and uses Python's `float()`,
 * which also accepts booleans and numbers, so every non-string fails there or
 * with the exception `float()` raises.
 */
module StrValid {
  import opened PyText
  import opened PyValue
  import opened PyNumber
  import opened Validator

  /** `StrValidator.is_numeric(v)`: whether `float(v)` succeeds; exceptions other than `ValueError` escape. */
  function IsNumeric(rt: Runtime, v: Value): (r: Result<bool, ValidationError>)
    ensures v.VStr? ==> r == Ok(FloatSyntax(v.s))
    ensures v.VBool? || v.VFloat? ==> r == Ok(true)
    ensures v.VInt? ==> r == if -FloatOverflowThreshold < v.i < FloatOverflowThreshold then Ok(true) else Err(Uncaught(OverflowError))
    ensures v.VNone? || v.VList? || v.VDict? || v.VDatetime? ==> r == Err(Uncaught(TypeError))
  {
    match FloatCall(rt, v)
    case Ok(_) => Ok(true)
    case Err(ValueError) => Ok(false)
    case Err(e) => Err(Uncaught(e))
  }

  /** `StrValidator.validate(value)`. */
  function Validate(rt: Runtime, v: Value): (r: Validated)
    ensures r.Ok? <==> v.VStr? && !FloatSyntax(v.s) && Lower(v.s) != "true" && Lower(v.s) != "false"
    ensures r.Ok? ==> r.value == v
    ensures v.VStr? && FloatSyntax(v.s) ==> r == Err(NumericString)
    ensures !v.VStr? ==> r.Err? && r.error != NotAString
  {
    match IsNumeric(rt, v)
    case Err(e) => Err(e)
    case Ok(true) => Err(NumericString)
    case Ok(false) =>
      if v.VStr? && Lower(v.s) in ["true", "false"] then Err(BooleanString)
      else if !v.VStr? then Err(NotAString)
      else Ok(v)
  }

  /** The first letter of `true` or `false`, in either case, cannot start a number or be whitespace. */
  lemma BooleanInitial(c: char)
    requires LowerChar(c) == 't' || LowerChar(c) == 'f'
    ensures !IsSpace(c) && c !in "+-.0123456789iInN"
  {
  }

  /** Case variants of `true` and `false` are not numbers, so they reach the boolean check. */
  lemma BooleanWordsAreNotNumeric(s: string)
    requires Lower(s) == "true" || Lower(s) == "false"
    ensures !FloatSyntax(s)
  {
    var w := Lower(s);
    var n := |s|;
    assert w[0] == LowerChar(s[0]) && w[n - 1] == LowerChar(s[n - 1]);
    assert w[n - 1] == 'e';
    BooleanInitial(s[0]);
    LowerKeepsSpace(s[n - 1]);
    NumberStripNoop(s);
    NotFloatSyntax(s);
  }

  /** `"true"` and `"false"` in any letter case fail with "String value cannot be a boolean." */
  lemma RejectsBooleanWords(rt: Runtime, s: string)
    requires Lower(s) == "true" || Lower(s) == "false"
    ensures Validate(rt, VStr(s)) == Err(BooleanString)
  {
    BooleanWordsAreNotNumeric(s);
  }

  /**
   * The validator never reports "Value is not a string.": a non-string either
   * converts with `float()` (and is reported as numeric) or makes it raise.
   */
  lemma NeverNotAString(rt: Runtime, v: Value)
    ensures Validate(rt, v) != Err(NotAString)
  {
  }

  /** Which error each kind of non-string gets. */
  lemma NonStringErrors(rt: Runtime, v: Value)
    ensures v.VBool? || v.VFloat? ==> Validate(rt, v) == Err(NumericString)
    ensures v.VInt? && -FloatOverflowThreshold < v.i < FloatOverflowThreshold ==> Validate(rt, v) == Err(NumericString)
    ensures v.VInt? && !(-FloatOverflowThreshold < v.i < FloatOverflowThreshold) ==> Validate(rt, v) == Err(Uncaught(OverflowError))
    ensures v.VNone? || v.VList? || v.VDict? || v.VDatetime? ==> Validate(rt, v) == Err(Uncaught(TypeError))
  {
  }

  /** The decimal form of any integer is rejected as numeric. */
  lemma RejectsIntegerText(rt: Runtime, n: int)
    ensures Validate(rt, VStr(Decimal(n))) == Err(NumericString)
  {
    ParseDecimal(n);
    IntSyntaxIsFloatSyntax(Decimal(n));
  }

  /** The numeric check comes first: `"1"`, `"3.14"`, `" 7 "` and `"nan"` are reported as numeric. */
  lemma NumericExamples(rt: Runtime)
    ensures Validate(rt, VStr("1")) == Err(NumericString)
    ensures Validate(rt, VStr("3.14")) == Err(NumericString)
    ensures Validate(rt, VStr(" 7 ")) == Err(NumericString)
    ensures Validate(rt, VStr("nan")) == Err(NumericString)
  {
    FloatExamples();
  }

  lemma FloatExamples()
    ensures FloatSyntax("1") && FloatSyntax("3.14") && FloatSyntax(" 7 ") && FloatSyntax("nan")
  {
    FloatOne();
    FloatPi();
    FloatSeven();
    FloatNan();
  }

  lemma FloatOne()
    ensures FloatSyntax("1")
  {
    assert "1"[0] == '1';
    NumberStripNoop("1");
    assert DigitPart("1");
    IntSyntaxIsFloatSyntax("1");
  }

  lemma FloatPi()
    ensures FloatSyntax("3.14")
  {
    var u := "3.14";
    assert u[0] == '3' && u[|u| - 1] == '4';
    NumberStripNoop(u);
    assert SignAndBody(u).1 == u;
    assert FindExponent(u) == 4 by {
      assert FindExponent(u[3..]) == 1;
      assert FindExponent(u[2..]) == 2;
      assert FindExponent(u[1..]) == 3;
    }
    assert u[..4] == u;
    assert FindDot(u) == 1;
    assert u[..1] == "3" && u[2..] == "14";
    PiDigits();
  }

  lemma PiDigits()
    ensures DigitPart("3") && DigitPart("14")
  {
    assert "3"[0] == '3';
    assert "14"[0] == '1' && "14"[1] == '4';
  }

  lemma FloatSeven()
    ensures FloatSyntax(" 7 ")
  {
    var s := " 7 ";
    assert s[..1] == " " && s[2..] == " " && s[1] == '7';
    NumberStripUnique(s, 1, 2);
    assert s[1..2] == "7";
    assert DigitPart("7");
    IntSyntaxIsFloatSyntax(s);
  }

  lemma FloatNan()
    ensures FloatSyntax("nan")
  {
    NumberStripNoop("nan");
    assert Lower("nan") == "nan";
  }

  /**
   * An ordinary word passes unchanged: lower-case ASCII letters, other than
   * `true` and `false`, and not starting like `inf` or `nan`.
   */
  lemma AcceptsPlainWord(rt: Runtime, s: string)
    requires s != [] && forall k | 0 <= k < |s| :: 'a' <= s[k] <= 'z'
    requires s[0] != 'i' && s[0] != 'n'
    requires s != "true" && s != "false"
    ensures Validate(rt, VStr(s)) == Ok(VStr(s))
  {
    PlainWordNotNumeric(s);
    PlainWordLower(s);
  }

  /** `"hello"` is accepted as it is. */
  lemma AcceptsHello(rt: Runtime)
    ensures Validate(rt, VStr("hello")) == Ok(VStr("hello"))
  {
    var s := "hello";
    assert s[0] == 'h' && s[1] == 'e' && s[2] == 'l' && s[3] == 'l' && s[4] == 'o';
    AcceptsPlainWord(rt, s);
  }

  lemma PlainWordNotNumeric(s: string)
    requires s != [] && forall k | 0 <= k < |s| :: 'a' <= s[k] <= 'z'
    requires s[0] != 'i' && s[0] != 'n'
    ensures !FloatSyntax(s)
  {
    NumberStripNoop(s);
    NotFloatSyntax(s);
  }

  lemma PlainWordLower(s: string)
    requires forall k | 0 <= k < |s| :: 'a' <= s[k] <= 'z'
    ensures Lower(s) == s
  {
  }

  /** The empty string is neither a number nor a boolean word, so it is accepted. */
  lemma AcceptsEmpty(rt: Runtime)
    ensures Validate(rt, VStr("")) == Ok(VStr(""))
  {
    NotFloatSyntax("");
  }
}
