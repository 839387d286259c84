/** `ApplicationHealthStatus`: the results of all checks by name, and their conjunction. */
module ApplicationHealthStatus {
  import opened HealthResponse

  datatype ApplicationHealthStatus = ApplicationHealthStatus(isHealthy: bool, results: map<string, HealthResponse>)

  predicate AllHealthy(results: map<string, HealthResponse>) {
    forall name :: name in results ==> results[name].isHealthy
  }

  /** The constructor: keeps the map it is given and computes `All(IsHealthy)` over it. */
  function FromResults(results: map<string, HealthResponse>): (status: ApplicationHealthStatus)
    ensures status.results == results
    ensures status.isHealthy <==> forall name :: name in results ==> results[name].isHealthy
  {
    ApplicationHealthStatus(AllHealthy(results), results)
  }

  /** No results is vacuously healthy. */
  lemma EmptyIsHealthy()
    ensures FromResults(map[]).isHealthy
  {
  }

  /** One unhealthy result makes the whole unhealthy, whatever the others are. */
  lemma OneUnhealthyDecides(results: map<string, HealthResponse>, name: string)
    requires name in results && !results[name].isHealthy
    ensures !FromResults(results).isHealthy
  {
  }

  /** Adding a healthy result under a new name never changes the verdict;
      adding an unhealthy one forces it false. */
  lemma AddResult(results: map<string, HealthResponse>, name: string, r: HealthResponse)
    requires name !in results
    ensures r.isHealthy ==> FromResults(results[name := r]).isHealthy == FromResults(results).isHealthy
    ensures !r.isHealthy ==> !FromResults(results[name := r]).isHealthy
  {
    var grown := results[name := r];
    assert grown[name] == r;
    if r.isHealthy && FromResults(results).isHealthy {
      forall n | n in grown
        ensures grown[n].isHealthy
      {
        if n != name {
          assert grown[n] == results[n];
        }
      }
    }
    if r.isHealthy && !FromResults(results).isHealthy {
      var bad :| bad in results && !results[bad].isHealthy;
      assert bad != name && grown[bad] == results[bad];
    }
  }

}
