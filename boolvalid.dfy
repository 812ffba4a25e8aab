/**
 * `BoolValidator`: a string whose lower-case form is `"true"` or `"false"`
 * becomes that boolean. Nothing else is accepted: a non-string is compared
 * with the two words as it is, and no Python value other than a string equals
 * a string.
 */
module BoolValid {
  import opened PyText
  import opened PyValue
  import opened Validator

  /** `BoolValidator.validate(value)`. */
  function Validate(v: Value): (r: Validated)
    ensures r.Ok? <==> v.VStr? && (Lower(v.s) == "true" || Lower(v.s) == "false")
    ensures r.Ok? ==> r.value == VBool(Lower(v.s) == "true")
    ensures r.Err? ==> r.error == NotABoolean
  {
    var lowered := if v.VStr? then VStr(Lower(v.s)) else v;
    if lowered == VStr("true") then Ok(VBool(true))
    else if lowered == VStr("false") then Ok(VBool(false))
    else Err(NotABoolean)
  }

  /** Python's `str(b)` for a `bool`. */
  function BoolText(b: bool): string {
    if b then "True" else "False"
  }

  /** `"True"` and `"False"`, as Python prints them, validate back to the boolean. */
  lemma ValidatesPrinted(b: bool)
    ensures Validate(VStr(BoolText(b))) == Ok(VBool(b))
  {
    assert Lower(BoolText(b)) == if b then "true" else "false";
  }

  /** The letter case of the input does not matter. */
  lemma CaseInsensitive(s: string)
    ensures Validate(VStr(s)) == Validate(VStr(Lower(s)))
  {
    LowerIdempotent(s);
  }

  /** Exactly the 16 letter-case variants of `true` are accepted as `True`. */
  lemma TrueVariants(s: string)
    ensures Validate(VStr(s)) == Ok(VBool(true)) <==>
      |s| == 4 && forall k | 0 <= k < 4 :: s[k] == "true"[k] || s[k] as int == "true"[k] as int - 32
  {
    LowerEqualsIff(s, "true");
  }

  /** `"TRUE"` gives `True` and `"False"` gives `False`. */
  lemma MixedCaseExamples()
    ensures Validate(VStr("TRUE")) == Ok(VBool(true))
    ensures Validate(VStr("False")) == Ok(VBool(false))
  {
    assert Lower("TRUE") == "true";
    assert Lower("False") == "false";
  }

  /** No whitespace is stripped: `" true"` is not a boolean. */
  lemma RejectsPadded()
    ensures Validate(VStr(" true")) == Err(NotABoolean)
  {
    assert Lower(" true")[0] == ' ';
  }

  /** JSON `true` and `false`, and every other non-string, are rejected. */
  lemma RejectsNonStrings(v: Value)
    requires !v.VStr?
    ensures Validate(v) == Err(NotABoolean)
  {
  }
}
