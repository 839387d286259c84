/** `HealthCheckRegistry`: the process-wide map from check names to checks. */
module HealthCheckRegistry {
  import opened Wrappers
  import opened Exceptions
  import opened Values
  import opened HealthResponse
  import opened HealthCheck
  import opened ApplicationHealthStatus

  class HealthCheckRegistry {
    /** `RegisteredChecks`. */
    var registeredChecks: map<string, HealthCheck>

    constructor()
      ensures registeredChecks == map[]
    {
      registeredChecks := map[];
    }

    /** `RegisterHealthCheck`: `TryAdd`, so a name already present keeps its first probe. */
    method RegisterHealthCheck(name: string, check: Probe)
      modifies this
      ensures name in old(registeredChecks) ==> registeredChecks == old(registeredChecks)
      ensures name !in old(registeredChecks) ==> registeredChecks == old(registeredChecks)[name := HealthCheck(check)]
    {
      if name !in registeredChecks {
        registeredChecks := registeredChecks[name := HealthCheck(check)];
      }
    }

    /** `RunHealthChecks`: every registered check executed, under its own name,
        and the verdict over all of them. */
    function RunHealthChecks(): (status: ApplicationHealthStatus)
      reads this
      ensures status.results.Keys == registeredChecks.Keys
      ensures forall name :: name in registeredChecks ==> status.results[name] == registeredChecks[name].Execute()
      ensures status.isHealthy <==> forall name :: name in registeredChecks ==> registeredChecks[name].Execute().isHealthy
    {
      FromResults(map name | name in registeredChecks :: registeredChecks[name].Execute())
    }

    /** `UnregisterAllHealthChecks`. */
    method UnregisterAllHealthChecks()
      modifies this
      ensures registeredChecks == map[]
    {
      registeredChecks := map[];
    }
  }

  /** A throwing probe gives its own entry an unhealthy, exception-marked
      result, and every other entry is still its own check's result. */
  lemma ThrowingCheckIsolated(registry: HealthCheckRegistry, name: string)
    requires name in registry.registeredChecks && registry.registeredChecks[name].checkFunc().Failure?
    ensures var status := registry.RunHealthChecks();
            && !status.isHealthy
            && status.results[name] == UnhealthyFrom(registry.registeredChecks[name].checkFunc().error)
            && forall other :: other in registry.registeredChecks && other != name ==>
                 status.results[other] == registry.registeredChecks[other].Execute()
  {
    var status := registry.RunHealthChecks();
    assert status.results[name] == registry.registeredChecks[name].Execute();
  }

  /** Once cleared, the registry reports no results and a healthy application. */
  lemma ClearedIsHealthy(registry: HealthCheckRegistry)
    requires registry.registeredChecks == map[]
    ensures registry.RunHealthChecks().results == map[] && registry.RunHealthChecks().isHealthy
  {
  }

  function HealthyProbe(): Probe {
    () => Success(Healthy())
  }

  function UnhealthyProbe(): Probe {
    () => Success(Unhealthy())
  }

  /** Two probes that pass give a healthy application; one passing and one
      failing give an unhealthy one. */
  method RegistryScenario() returns (bothHealthy: bool, mixed: bool)
    ensures bothHealthy && !mixed
  {
    var registry := new HealthCheckRegistry();
    registry.RegisterHealthCheck("healthy_test1", HealthyProbe());
    registry.RegisterHealthCheck("healthy_test2", HealthyProbe());
    bothHealthy := registry.RunHealthChecks().isHealthy;
    registry.UnregisterAllHealthChecks();
    registry.RegisterHealthCheck("healthy_test", HealthyProbe());
    registry.RegisterHealthCheck("unhealthy_test", UnhealthyProbe());
    assert registry.registeredChecks["unhealthy_test"].Execute() == Unhealthy();
    mixed := registry.RunHealthChecks().isHealthy;
  }

  /** Registering a name twice keeps the first probe. */
  method FirstRegistrationWins() returns (r: HealthResponse)
    ensures r == Healthy()
  {
    var registry := new HealthCheckRegistry();
    registry.RegisterHealthCheck("test", HealthyProbe());
    registry.RegisterHealthCheck("test", UnhealthyProbe());
    r := registry.RunHealthChecks().results["test"];
  }

}
