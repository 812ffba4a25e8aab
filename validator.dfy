/**
 * The failures a field validator reports. Each validator raises `ValueError`
 * with one fixed message; here each message is a constructor.
 */
module Validator {
  import opened PyValue
  import opened PyNumber

  datatype ValidationError =
    | NumericString                           // "String value cannot be numeric."
    | BooleanString                           // "String value cannot be a boolean."
    | NotAString                              // "Value is not a string."
    | NotABoolean                             // "Value is not a boolean."
    | NotAnInteger                            // "Value is not an integer."
    | NotAFloat                               // "Value is not a float."
    | NotADatetime                            // "Value is not a valid datetime."
    | NotAList                                // "Value is not a list."
    | Uncaught(exc: Exc)                      // an exception other than ValueError leaving float()
    | UnsupportedFieldType(fieldType: string) // "Unsupported field type: <fieldType>"

  /** What a validator returns: the converted value, or the failure it raises. */
  type Validated = Result<Value, ValidationError>
}
