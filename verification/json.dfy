/**
  The parsed résumé record as the renderer reads it: JSON objects are maps
  from keys to values, read with `obj.get(key, "")`, and values are shown
  through f-string formatting.
 */
module Json {

  /**
    A JSON value: a string, or any other value (number, list, object,
    boolean, null) together with the text Python's `str()` gives for it.
   */
  datatype Value = Str(text: string) | NonStr(shown: string)

  /** A JSON object. */
  type Object = map<string, Value>

  /** `obj.get(key, "")`: a missing key reads as the empty string. */
  function Field(obj: Object, key: string): (v: Value)
    ensures key !in obj ==> v == Str("")
    ensures key in obj ==> v == obj[key]
  {
    if key in obj then obj[key] else Str("")
  }

  /** How `f"{v}"` renders a value. */
  function Show(v: Value): string
  {
    match v
    case Str(s) => s
    case NonStr(shown) => shown
  }
}
