/** `HealthResponse`: the immutable result of one health check, a verdict
    and an optional payload, and the JSON object it is serialised to. */
module HealthResponse {
  import opened Values
  import opened Exceptions

  /** `IsHealthy` and `Response`; a `Response` of `Null` is the absent payload. */
  datatype HealthResponse = HealthResponse(isHealthy: bool, response: Value)

  /** What every payload built from an exception begins with. */
  const ExceptionMarker: string := "EXCEPTION: "

  /** `Healthy()`: passed, no payload. */
  function Healthy(): (r: HealthResponse)
    ensures r.isHealthy && r.response == Null
  {
    HealthResponse(true, Null)
  }

  /** `Healthy(object)`: passed, with exactly the given payload. */
  function HealthyWith(response: Value): (r: HealthResponse)
    ensures r.isHealthy && r.response == response
  {
    HealthResponse(true, response)
  }

  /** `Unhealthy()`: failed, no payload. */
  function Unhealthy(): (r: HealthResponse)
    ensures !r.isHealthy && r.response == Null
  {
    HealthResponse(false, Null)
  }

  /** `Unhealthy(object)`: failed, with exactly the given payload. */
  function UnhealthyWith(response: Value): (r: HealthResponse)
    ensures !r.isHealthy && r.response == response
  {
    HealthResponse(false, response)
  }

  /** The payload text `EXCEPTION: <type name>, <message>`. */
  function ExceptionMessage(e: Exception): (text: string)
    ensures |text| == |ExceptionMarker| + |e.typeName| + 2 + |e.message|
    ensures text[..|ExceptionMarker|] == ExceptionMarker
  {
    ExceptionMarker + e.typeName + ", " + e.message
  }

  /** `Unhealthy(Exception)`: failed, with a string payload that starts with the marker. */
  function UnhealthyFrom(e: Exception): (r: HealthResponse)
    ensures !r.isHealthy && r.response.Str?
    ensures |r.response.s| >= |ExceptionMarker| && r.response.s[..|ExceptionMarker|] == ExceptionMarker
  {
    HealthResponse(false, Str(ExceptionMessage(e)))
  }

  /** The type name and the message can be read back from the payload text. */
  lemma ExceptionMessageParts(e: Exception)
    ensures var text := ExceptionMessage(e);
            var n := |ExceptionMarker|;
            && text[n..n + |e.typeName|] == e.typeName
            && text[n + |e.typeName|..n + |e.typeName| + 2] == ", "
            && text[n + |e.typeName| + 2..] == e.message
  {
    var text := ExceptionMessage(e);
    var n := |ExceptionMarker|;
    assert text == ExceptionMarker + e.typeName + ", " + e.message;
    assert text[n..] == e.typeName + ", " + e.message;
  }

  /** The serialised object: `healthy` always, `responseData` only when there is
      a payload (null values are ignored on output). */
  function ToJson(r: HealthResponse): (j: Json)
    ensures j.JObject? && j.fields.Keys <= {"healthy", "responseData"}
    ensures "healthy" in j.fields && j.fields["healthy"] == JBool(r.isHealthy)
    ensures "responseData" in j.fields <==> r.response != Null
    ensures "responseData" in j.fields ==> j.fields["responseData"] == JValue(r.response)
  {
    var verdict := map["healthy" := JBool(r.isHealthy)];
    if r.response == Null then JObject(verdict)
    else JObject(verdict["responseData" := JValue(r.response)])
  }

}
