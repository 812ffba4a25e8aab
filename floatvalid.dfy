/** `FloatValidator`: Python's `float(value)`, every exception becoming "Value is not a float." */
module FloatValid {
  import opened PyValue
  import opened PyNumber
  import opened Validator

  function Validate(rt: Runtime, v: Value): (r: Validated)
    ensures r.Ok? <==> FloatCall(rt, v).Ok?
    ensures r.Ok? ==> r.value == VFloat(FloatCall(rt, v).value)
    ensures r.Err? ==> r.error == NotAFloat
    ensures v.VStr? ==> (r.Ok? <==> FloatSyntax(v.s))
  {
    match FloatCall(rt, v)
    case Ok(d) => Ok(VFloat(d))
    case Err(_) => Err(NotAFloat)
  }

  /** Integers at or beyond 2^1024 - 2^970 in magnitude overflow `float()`, and fail. */
  lemma RejectsHugeIntegers(rt: Runtime, n: int)
    requires n >= FloatOverflowThreshold || n <= -FloatOverflowThreshold
    ensures Validate(rt, VInt(n)) == Err(NotAFloat)
  {
  }

  /** A JSON float is returned as it is. */
  lemma KeepsFloats(rt: Runtime, d: Double)
    ensures Validate(rt, VFloat(d)) == Ok(VFloat(d))
  {
  }
}
