/** `DatetimeValidator`: `datetime.fromisoformat(value)`, every exception becoming "Value is not a valid datetime." */
module DatetimeValid {
  import opened PyValue
  import opened Validator

  function Validate(rt: Runtime, v: Value): (r: Validated)
    ensures r.Ok? <==> v.VStr? && rt.fromIsoFormat(v.s).Some?
    ensures r.Ok? ==> r.value == VDatetime(rt.fromIsoFormat(v.s).value)
    ensures r.Err? ==> r.error == NotADatetime
  {
    if v.VStr? && rt.fromIsoFormat(v.s).Some? then Ok(VDatetime(rt.fromIsoFormat(v.s).value))
    else Err(NotADatetime)
  }
}
