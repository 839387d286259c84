/** The dynamically typed values the core passes around: a health check's
    `object? Response`, the values of a Quartz `JobDataMap`, a job's
    `lastRunOutput`; and the JSON shape a response body is serialised to. */
module Values {
  import opened Wrappers
  import Text

  /** A `DateTimeOffset` in UTC, as its tick count. */
  type Timestamp = nat

  /** An `object?`: `Null` is the null reference; `Other` is any object of
      another type, known here by the text its `ToString()` returns. */
  datatype Value =
    | Null
    | Bool(b: bool)
    | Str(s: string)
    | Time(t: Timestamp)
    | Other(text: string)

  /** `v.ToString()`; `None` for a null reference, on which the call throws. */
  function ToText(v: Value): (text: Option<string>)
    ensures text.None? <==> v == Null
    ensures v.Str? ==> text == Some(v.s)
    ensures v.Bool? || v.Time? ==> !Text.IsNullOrWhiteSpace(text)
  {
    match v
    case Null => None
    case Bool(b) =>
      var word := if b then "True" else "False";
      assert !Text.IsWhiteSpace(word[0]);
      Some(word)
    case Str(s) => Some(s)
    case Time(t) =>
      var digits := Text.NatToString(t);
      assert !Text.IsWhiteSpace(digits[0]);
      Some(digits)
    case Other(text) => Some(text)
  }

  /** A JSON value as Newtonsoft's `JToken` tree; field order is not modelled. */
  datatype Json =
    | JBool(b: bool)
    | JValue(v: Value)
    | JObject(fields: map<string, Json>)

}
