/** `HealthCheck`: a registered probe, and its execution with every exception
    the probe throws turned into an unhealthy response. */
module HealthCheck {
  import opened Wrappers
  import opened Exceptions
  import opened Values
  import opened HealthResponse

  /** A `Func<HealthResponse>`: it either returns a response or throws. */
  type Probe = () -> Result<HealthResponse, Exception>

  datatype HealthCheck = HealthCheck(checkFunc: Probe) {

    /** `Execute`: the probe's own response when it returns, `Unhealthy(exception)`
        when it throws; nothing escapes. */
    function Execute(): (r: HealthResponse)
      ensures checkFunc().Success? ==> r == checkFunc().value
      ensures checkFunc().Failure? ==> !r.isHealthy && r.response == Str(ExceptionMessage(checkFunc().error))
    {
      match checkFunc()
      case Success(response) => response
      case Failure(x) => UnhealthyFrom(x)
    }
  }

  /** A probe that throws always yields an unhealthy verdict whose payload
      names the exception. */
  lemma ThrowingProbeIsUnhealthy(check: HealthCheck)
    requires check.checkFunc().Failure?
    ensures !check.Execute().isHealthy
    ensures check.Execute().response.Str?
    ensures var text := check.Execute().response.s;
            |text| >= |ExceptionMarker| && text[..|ExceptionMarker|] == ExceptionMarker
  {
  }

  /** A healthy result of `Execute` comes from a probe that returned it. */
  lemma HealthyMeansReturned(check: HealthCheck)
    requires check.Execute().isHealthy
    ensures check.checkFunc() == Success(check.Execute())
  {
  }

}
