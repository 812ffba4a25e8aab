/**
 * `ValidationService`: a fixed registry from field-type name to validator, and
 * `check_type`, which looks the name up exactly as given and runs the
 * validator found, or fails with "Unsupported field type: <name>".
 */
module ValidationService {
  import opened PyText
  import opened PyValue
  import opened PyNumber
  import opened Validator
  import StrValid
  import IntValid
  import FloatValid
  import BoolValid
  import DatetimeValid
  import ListValid

  datatype ValidatorKind = StrKind | IntKind | FloatKind | BoolKind | DatetimeKind | ListKind

  /** `VALIDATOR_REGISTRY`: the six type names and their validators; nothing ever changes it. */
  const Registry: map<string, ValidatorKind> := map[
    "str" := StrKind,
    "int" := IntKind,
    "float" := FloatKind,
    "bool" := BoolKind,
    "datetime" := DatetimeKind,
    "list" := ListKind]

  /** `validator.validate(value)` for the validator of the given kind. */
  function RunValidator(rt: Runtime, kind: ValidatorKind, v: Value): (r: Validated)
    ensures r.Err? ==> !r.error.UnsupportedFieldType?
  {
    match kind
    case StrKind => StrValid.Validate(rt, v)
    case IntKind => IntValid.Validate(v)
    case FloatKind => FloatValid.Validate(rt, v)
    case BoolKind => BoolValid.Validate(v)
    case DatetimeKind => DatetimeValid.Validate(rt, v)
    case ListKind => ListValid.Validate(rt, v)
  }

  /** `ValidationService.check_type(field_type, value)`. */
  function CheckType(rt: Runtime, fieldType: string, v: Value): (r: Validated)
    ensures r == Err(UnsupportedFieldType(fieldType)) <==> fieldType !in Registry
    ensures r.Err? && r.error.UnsupportedFieldType? ==> r.error.fieldType == fieldType
  {
    if fieldType in Registry then RunValidator(rt, Registry[fieldType], v)
    else Err(UnsupportedFieldType(fieldType))
  }

  /** The supported names are exactly the six, so any other name is unsupported. */
  lemma SupportedNames(rt: Runtime, fieldType: string, v: Value)
    ensures CheckType(rt, fieldType, v) == Err(UnsupportedFieldType(fieldType)) <==>
      fieldType !in {"str", "int", "float", "bool", "datetime", "list"}
  {
    assert Registry.Keys == {"str", "int", "float", "bool", "datetime", "list"};
  }

  /** Each of the six names selects its own validator, and the result is that validator's. */
  lemma Dispatch(rt: Runtime, v: Value)
    ensures CheckType(rt, "str", v) == StrValid.Validate(rt, v)
    ensures CheckType(rt, "int", v) == IntValid.Validate(v)
    ensures CheckType(rt, "float", v) == FloatValid.Validate(rt, v)
    ensures CheckType(rt, "bool", v) == BoolValid.Validate(v)
    ensures CheckType(rt, "datetime", v) == DatetimeValid.Validate(rt, v)
    ensures CheckType(rt, "list", v) == ListValid.Validate(rt, v)
  {
    assert Registry["str"] == StrKind;
    assert Registry["int"] == IntKind;
    assert Registry["float"] == FloatKind;
    assert Registry["bool"] == BoolKind;
    assert Registry["datetime"] == DatetimeKind;
    assert Registry["list"] == ListKind;
  }

  /** The lookup is exact: `"Int"` and `" int"` are not supported names. */
  lemma ExactKeys(rt: Runtime, v: Value)
    ensures CheckType(rt, "Int", v) == Err(UnsupportedFieldType("Int"))
    ensures CheckType(rt, " int", v) == Err(UnsupportedFieldType(" int"))
  {
    assert "Int" != "int" by { assert "Int"[0] != "int"[0]; }
  }

  /** A name the caller has stripped and lower-cased is supported whenever its stripped lower-case form is one of the six. */
  lemma NormalisedKey(rt: Runtime, t: string, v: Value)
    requires Lower(Strip(t)) in Registry
    ensures CheckType(rt, Lower(Strip(t)), v) == RunValidator(rt, Registry[Lower(Strip(t))], v)
  {
  }

  /**
   * The string validator and the int, float and bool validators never both
   * accept the same string: whatever they accept, it rejects.
   */
  lemma StrExcludesOthers(rt: Runtime, s: string, t: string)
    requires t in {"int", "float", "bool"}
    requires CheckType(rt, t, VStr(s)).Ok?
    ensures CheckType(rt, "str", VStr(s)).Err?
  {
    Dispatch(rt, VStr(s));
    if t == "int" {
      IntSyntaxIsFloatSyntax(s);
    }
  }

  /**
   * The ASCII separators U+001C to U+001F are whitespace to `strip()` but not
   * to `int()` and `float()`: in front of an integer's digits, the int and
   * float validators reject the text and the string validator accepts it.
   */
  lemma SeparatorBeforeDigits(rt: Runtime, c: char, n: int)
    requires '\U{1C}' <= c <= '\U{1F}'
    ensures IntValid.Validate(VStr([c] + Decimal(n))) == Err(NotAnInteger)
    ensures FloatValid.Validate(rt, VStr([c] + Decimal(n))) == Err(NotAFloat)
    ensures StrValid.Validate(rt, VStr([c] + Decimal(n))) == Ok(VStr([c] + Decimal(n)))
  {
    var d := Decimal(n);
    var s := [c] + d;
    assert IsSpace(c) && !IsNumberSpace(c);
    assert IsDigit(d[|d| - 1]);
    assert s[|s| - 1] == d[|d| - 1];
    NumberStripNoop(s);
    assert SignAndBody(s).1 == s;
    assert !DigitPart(s) by { assert !IsDigit(s[0]); }
    NotFloatSyntax(s);
    assert Lower(s)[0] == c;
  }

  /**
   * Other whitespace is skipped by `int()`: a no-break space U+00A0 in front of
   * an integer's digits still validates to that integer.
   */
  lemma NoBreakSpaceBeforeDigits(n: int)
    ensures IntValid.Validate(VStr(['\U{A0}'] + Decimal(n))) == Ok(VInt(n))
  {
    var d := Decimal(n);
    ParseDecimal(n);
    DecimalEnds(n);
    SpaceBefore('\U{A0}', d);
    assert ParseInt(['\U{A0}'] + d) == ParseInt(d);
  }
}
