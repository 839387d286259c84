/** `ActuatorMiddleware`: the four request handlers. Each matches one exact
    path, marks the response as JSON, refuses a caller outside the allow-list
    with 401, and otherwise writes the endpoint's payload; any other path is
    handed to the next middleware. */
module ActuatorMiddleware {
  import opened Wrappers
  import opened Exceptions
  import opened Values
  import opened IpAddressRange
  import opened ActuatorConfiguration
  import opened ActuatorEndpoint
  import opened HealthResponse
  import opened ApplicationHealthStatus
  import opened HealthCheckRegistry
  import opened QuartzEndpointResponse
  import opened QuartzEndpoint

  datatype Endpoint = Health | Info | Environment | Quartz

  /** The one path each handler answers. */
  function PathOf(endpoint: Endpoint): string {
    match endpoint
    case Health => "/health"
    case Info => "/info"
    case Environment => "/env"
    case Quartz => "/quartz"
  }

  const JsonContentType := "application/json"

  /** `context.Request.Path.Value` (null when absent) and `context.Connection.RemoteIpAddress`. */
  datatype Request = Request(path: Option<string>, remoteIpAddress: Option<Ipv4>)

  /** What a handler writes: a JSON object, or the serialised Quartz response. */
  datatype Body = JsonBody(json: Json) | QuartzBody(quartz: QuartzEndpointResponse)

  /** What the endpoint itself contributes once the gate has let the caller
      through: a status code to set (or none, keeping the default) and the body,
      or the exception building it raised. */
  datatype Evaluation = Evaluation(statusCode: Option<int>, body: Result<Body, Exception>)

  /** A request the handler answers, or one it passes to `next()`. */
  datatype Outcome =
    | Next
    | Handled(contentType: string, statusCode: Option<int>, body: Result<Body, Exception>)

  /** `{ message = "Forbidden" }`. */
  function ForbiddenJson(): (j: Json)
    ensures j.JObject? && j.fields.Keys == {"message"} && j.fields["message"] == JValue(Str("Forbidden"))
  {
    JObject(map["message" := JValue(Str("Forbidden"))])
  }

  /** The gate: the flag is on, the caller's address is known, and the allow-list refuses it. */
  predicate Forbidding(ipAllowListEnabled: bool, request: Request, config: ActuatorConfiguration)
    reads config
  {
    && ipAllowListEnabled
    && request.remoteIpAddress.Some?
    && !ActuatorEndpoint(ipAllowListEnabled).IpIsAllowed(config, request.remoteIpAddress.value)
  }

  /** The decision every handler makes, for the endpoint's own evaluation. */
  function Respond(endpoint: Endpoint, request: Request, ipAllowListEnabled: bool,
                   config: ActuatorConfiguration, evaluation: Evaluation): Outcome
    reads config
  {
    if request.path != Some(PathOf(endpoint)) then Next
    else if Forbidding(ipAllowListEnabled, request, config) then
      Handled(JsonContentType, Some(401), Success(JsonBody(ForbiddenJson())))
    else Handled(JsonContentType, evaluation.statusCode, evaluation.body)
  }

  /** The text Newtonsoft's duplicate-property message opens with, before the name. */
  const DuplicatePropertyPrefix := "Can not add property "

  /** Newtonsoft's `JObject.Add` refusing a property name already present. */
  function DuplicateProperty(name: string): (e: Exception)
    ensures e.typeName == "ArgumentException"
  {
    ArgumentError(DuplicatePropertyPrefix + name + " to Newtonsoft.Json.Linq.JObject. Property with the same name already exists on object.")
  }

  /** The duplicate-property message opens with the fixed prefix, followed by the name. */
  lemma DuplicatePropertyNamesIt(name: string)
    ensures var message := DuplicateProperty(name).message;
            var n := |DuplicatePropertyPrefix|;
            && |message| > n + |name|
            && message[..n] == DuplicatePropertyPrefix
            && message[n..n + |name|] == name
  {
  }

  /** The health payload: a root `healthy` flag and one object per check, keyed
      by the check's name. A check itself named `healthy` collides with the root
      flag, and the assembly throws. */
  function HealthJson(status: ApplicationHealthStatus): (r: Result<Json, Exception>)
    ensures r.Failure? <==> "healthy" in status.results
    ensures r.Failure? ==> r.error == DuplicateProperty("healthy")
    ensures r.Success? ==>
              && r.value.JObject?
              && r.value.fields.Keys == {"healthy"} + status.results.Keys
              && r.value.fields["healthy"] == JBool(status.isHealthy)
              && forall name :: name in status.results ==> r.value.fields[name] == ToJson(status.results[name])
  {
    if "healthy" in status.results then Failure(DuplicateProperty("healthy"))
    else Success(JObject(map key | key in {"healthy"} + status.results.Keys ::
                           if key == "healthy" then JBool(status.isHealthy) else ToJson(status.results[key])))
  }

  /** ActuatorMiddleware.cs:40-45: the root flag first, then `Add` for each result in turn. */
  method AssembleHealthJson(status: ApplicationHealthStatus) returns (r: Result<Json, Exception>)
    ensures r == HealthJson(status)
  {
    var jsonResponseRoot := map["healthy" := JBool(status.isHealthy)];
    var remaining := status.results.Keys;
    while remaining != {}
      invariant remaining <= status.results.Keys
      invariant "healthy" in status.results ==> "healthy" in remaining
      invariant jsonResponseRoot.Keys == {"healthy"} + (status.results.Keys - remaining)
      invariant jsonResponseRoot["healthy"] == JBool(status.isHealthy)
      invariant forall key :: key in status.results && key !in remaining ==> jsonResponseRoot[key] == ToJson(status.results[key])
      decreases remaining
    {
      var key :| key in remaining;
      if key in jsonResponseRoot {
        return Failure(DuplicateProperty(key));
      }
      jsonResponseRoot := jsonResponseRoot[key := ToJson(status.results[key])];
      remaining := remaining - {key};
    }
    assert "healthy" !in status.results;
    ghost var expected := map key | key in {"healthy"} + status.results.Keys ::
                            if key == "healthy" then JBool(status.isHealthy) else ToJson(status.results[key]);
    assert jsonResponseRoot.Keys == expected.Keys;
    assert forall key :: key in expected ==> jsonResponseRoot[key] == expected[key];
    assert jsonResponseRoot == expected;
    return Success(JObject(jsonResponseRoot));
  }

  /** ActuatorMiddleware.cs:31-45: the aggregate over every registered check; 503 when any
      check failed, the default status otherwise. */
  function HealthEvaluation(status: ApplicationHealthStatus): (e: Evaluation)
    ensures e.statusCode == Some(503) <==> !status.isHealthy
    ensures e.statusCode.None? <==> status.isHealthy
    ensures HealthJson(status).Success? ==> e.body == Success(JsonBody(HealthJson(status).value))
    ensures HealthJson(status).Failure? ==> e.body == Failure(HealthJson(status).error)
  {
    Evaluation(if !status.isHealthy then Some(503) else None,
               match HealthJson(status)
               case Success(json) => Success(JsonBody(json))
               case Failure(error) => Failure(error))
  }

  /** The response as far as the handlers touch it. */
  datatype ResponseState = ResponseState(statusCode: int, contentType: Option<string>, body: Option<Body>)

  /** The response after the handler's decision: untouched for `next()`;
      otherwise JSON, the status set when there is one, and the body written
      unless building it threw. */
  function After(before: ResponseState, outcome: Outcome): ResponseState {
    match outcome
    case Next => before
    case Handled(contentType, statusCode, body) =>
      ResponseState(statusCode.GetOr(before.statusCode), Some(contentType),
                    if body.Success? then Some(body.value) else before.body)
  }

  /** `HttpContext.Response`. */
  class HttpResponse {
    var statusCode: int
    var contentType: Option<string>
    var body: Option<Body>

    /** A fresh response: status 200, no content type, nothing written. */
    constructor()
      ensures State() == ResponseState(200, None, None)
    {
      statusCode := 200;
      contentType := None;
      body := None;
    }

    function State(): ResponseState
      reads this
    {
      ResponseState(statusCode, contentType, body)
    }
  }

  /** How a handler gets past the path match and the gate: reports whether it
      answered with 401 (or passed the request on) and the evaluation may be
      skipped. */
  method Admit(endpoint: Endpoint, request: Request, ipAllowListEnabled: bool,
               config: ActuatorConfiguration, response: HttpResponse) returns (calledNext: bool, done: bool)
    modifies response
    ensures calledNext <==> request.path != Some(PathOf(endpoint))
    ensures done <==> calledNext || Forbidding(ipAllowListEnabled, request, config)
    ensures calledNext ==> response.State() == old(response.State())
    ensures !calledNext && done ==>
              response.State() == After(old(response.State()), Handled(JsonContentType, Some(401), Success(JsonBody(ForbiddenJson()))))
    ensures !done ==> response.State() == old(response.State()).(contentType := Some(JsonContentType))
  {
    if request.path.None? || request.path.value != PathOf(endpoint) {
      return true, true;
    }
    response.contentType := Some(JsonContentType);
    var endpointObject := ActuatorEndpoint(ipAllowListEnabled);
    if endpointObject.ipAllowListEnabled && request.remoteIpAddress.Some?
       && !endpointObject.IpIsAllowed(config, request.remoteIpAddress.value) {
      response.statusCode := 401;
      response.body := Some(JsonBody(ForbiddenJson()));
      return false, true;
    }
    return false, false;
  }

  /** `UseActuatorHealthEndpoint`'s handler. `thrown` is the exception it lets escape. */
  method HandleHealth(request: Request, ipAllowListEnabled: bool, config: ActuatorConfiguration,
                      registry: HealthCheckRegistry, response: HttpResponse) returns (calledNext: bool, thrown: Option<Exception>)
    modifies response
    ensures var outcome := Respond(Health, request, ipAllowListEnabled, config, HealthEvaluation(registry.RunHealthChecks()));
            && calledNext == outcome.Next?
            && response.State() == After(old(response.State()), outcome)
            && thrown == (if outcome.Handled? && outcome.body.Failure? then Some(outcome.body.error) else None)
  {
    var done;
    calledNext, done := Admit(Health, request, ipAllowListEnabled, config, response);
    if done {
      return calledNext, None;
    }
    var applicationHealthStatus := registry.RunHealthChecks();
    thrown := WriteHealth(applicationHealthStatus, response);
  }

  /** ActuatorMiddleware.cs:31-47, once past the gate: the status code, then the payload. */
  method WriteHealth(applicationHealthStatus: ApplicationHealthStatus, response: HttpResponse) returns (thrown: Option<Exception>)
    requires response.contentType == Some(JsonContentType)
    modifies response
    ensures var evaluation := HealthEvaluation(applicationHealthStatus);
            && response.State() == After(old(response.State()), Handled(JsonContentType, evaluation.statusCode, evaluation.body))
            && thrown == (if evaluation.body.Failure? then Some(evaluation.body.error) else None)
  {
    if !applicationHealthStatus.isHealthy {
      response.statusCode := 503;
    }
    var jsonResponseRoot := AssembleHealthJson(applicationHealthStatus);
    if jsonResponseRoot.Failure? {
      return Some(jsonResponseRoot.error);
    }
    response.body := Some(JsonBody(jsonResponseRoot.value));
    return None;
  }

  /** The handlers of `UseActuatorInfoEndpoint` and `UseActuatorEnvironmentEndpoint`:
      `payload` is what the endpoint's own code computes. */
  method HandleInfoOrEnvironment(endpoint: Endpoint, request: Request, ipAllowListEnabled: bool,
                                 config: ActuatorConfiguration, payload: Json, response: HttpResponse) returns (calledNext: bool)
    requires endpoint == Info || endpoint == Environment
    modifies response
    ensures var outcome := Respond(endpoint, request, ipAllowListEnabled, config, Evaluation(None, Success(JsonBody(payload))));
            && calledNext == outcome.Next?
            && response.State() == After(old(response.State()), outcome)
  {
    var done;
    calledNext, done := Admit(endpoint, request, ipAllowListEnabled, config, response);
    if done {
      return;
    }
    response.body := Some(JsonBody(payload));
  }

  /** ActuatorMiddleware.cs:130-131: the scheduler status, or the exception
      `GetSchedulerStatus` throws when some kept job stores a null message. */
  function QuartzEvaluation(registeredSchedulers: seq<SchedulerSnapshot>): (e: Evaluation)
    ensures e.statusCode.None?
    ensures AnyThrows(registeredSchedulers) ==> e.body == Failure(NullReference())
    ensures !AnyThrows(registeredSchedulers) ==>
              e.body == Success(QuartzBody(QuartzEndpointResponse(ProjectSchedulers(registeredSchedulers))))
  {
    SchedulersAsWrittenAgree(registeredSchedulers);
    Evaluation(None, match SchedulersAsWritten(registeredSchedulers)
                     case Success(schedulers) => Success(QuartzBody(QuartzEndpointResponse(schedulers)))
                     case Failure(error) => Failure(error))
  }

  /** `UseActuatorQuartzEndpoint`'s handler over a snapshot of the registered
      schedulers. `thrown` is the exception it lets escape. */
  method HandleQuartz(request: Request, ipAllowListEnabled: bool, config: ActuatorConfiguration,
                      registeredSchedulers: seq<SchedulerSnapshot>, response: HttpResponse)
      returns (calledNext: bool, thrown: Option<Exception>)
    requires DistinctNames(registeredSchedulers)
    modifies response
    ensures var outcome := Respond(Quartz, request, ipAllowListEnabled, config, QuartzEvaluation(registeredSchedulers));
            && calledNext == outcome.Next?
            && response.State() == After(old(response.State()), outcome)
            && thrown == (if outcome.Handled? && outcome.body.Failure? then Some(outcome.body.error) else None)
  {
    var done;
    calledNext, done := Admit(Quartz, request, ipAllowListEnabled, config, response);
    if done {
      return calledNext, None;
    }
    var status := GetSchedulerStatus(registeredSchedulers);
    if status.Failure? {
      return false, Some(status.error);
    }
    response.body := Some(QuartzBody(status.value));
    thrown := None;
  }

  // Properties of the decision.

  /** Only the exact path is answered; anything else, or no path at all, goes to `next()`. */
  lemma NextIffOtherPath(endpoint: Endpoint, request: Request, ipAllowListEnabled: bool,
                         config: ActuatorConfiguration, evaluation: Evaluation)
    ensures Respond(endpoint, request, ipAllowListEnabled, config, evaluation) == Next
            <==> request.path != Some(PathOf(endpoint))
  {
  }

  /** Every answered request is JSON. */
  lemma AnsweredIsJson(endpoint: Endpoint, request: Request, ipAllowListEnabled: bool,
                       config: ActuatorConfiguration, evaluation: Evaluation)
    ensures Respond(endpoint, request, ipAllowListEnabled, config, evaluation).Handled? ==>
              Respond(endpoint, request, ipAllowListEnabled, config, evaluation).contentType == "application/json"
  {
  }

  /** On the endpoint's path the answer is 401 with the Forbidden message exactly
      when the gate refuses, for every endpoint whose own evaluation never sets 401. */
  lemma UnauthorizedIff(endpoint: Endpoint, request: Request, ipAllowListEnabled: bool,
                        config: ActuatorConfiguration, evaluation: Evaluation)
    requires request.path == Some(PathOf(endpoint))
    requires evaluation.statusCode != Some(401)
    ensures var outcome := Respond(endpoint, request, ipAllowListEnabled, config, evaluation);
            outcome.statusCode == Some(401)
            <==> (&& ipAllowListEnabled
                  && request.remoteIpAddress.Some?
                  && !ActuatorEndpoint(ipAllowListEnabled).IpIsAllowed(config, request.remoteIpAddress.value))
    ensures var outcome := Respond(endpoint, request, ipAllowListEnabled, config, evaluation);
            outcome.statusCode == Some(401) ==> outcome.body == Success(JsonBody(ForbiddenJson()))
  {
  }

  /** A 401 is decided before the endpoint is evaluated: the answer does not
      depend on the evaluation at all. */
  lemma RefusalIgnoresEvaluation(endpoint: Endpoint, request: Request, ipAllowListEnabled: bool,
                                 config: ActuatorConfiguration, first: Evaluation, second: Evaluation)
    requires Forbidding(ipAllowListEnabled, request, config)
    ensures Respond(endpoint, request, ipAllowListEnabled, config, first)
            == Respond(endpoint, request, ipAllowListEnabled, config, second)
  {
  }

  /** With the flag off, or the caller's address unknown, the gate is not consulted:
      an empty or hostile allow-list makes no difference. */
  lemma GateBypassed(endpoint: Endpoint, request: Request, ipAllowListEnabled: bool,
                     config: ActuatorConfiguration, evaluation: Evaluation)
    requires request.path == Some(PathOf(endpoint))
    requires !ipAllowListEnabled || request.remoteIpAddress.None?
    ensures Respond(endpoint, request, ipAllowListEnabled, config, evaluation)
            == Handled("application/json", evaluation.statusCode, evaluation.body)
  {
  }

  /** `/health` past the gate: 503 exactly when some registered check is
      unhealthy, and otherwise the default status is kept. */
  lemma HealthStatusCode(request: Request, ipAllowListEnabled: bool, config: ActuatorConfiguration,
                         registry: HealthCheckRegistry, before: ResponseState)
    requires request.path == Some("/health")
    requires !Forbidding(ipAllowListEnabled, request, config)
    ensures var outcome := Respond(Health, request, ipAllowListEnabled, config, HealthEvaluation(registry.RunHealthChecks()));
            After(before, outcome).statusCode
            == if forall name :: name in registry.registeredChecks ==> registry.registeredChecks[name].Execute().isHealthy
               then before.statusCode else 503
  {
  }

  /** `/health` past the gate, with no check named `healthy`: the body has the
      root flag and one entry per registered check, its `Execute()` result. */
  lemma HealthBodyShape(request: Request, ipAllowListEnabled: bool, config: ActuatorConfiguration,
                        registry: HealthCheckRegistry)
    requires request.path == Some("/health")
    requires !Forbidding(ipAllowListEnabled, request, config)
    requires "healthy" !in registry.registeredChecks
    ensures var outcome := Respond(Health, request, ipAllowListEnabled, config, HealthEvaluation(registry.RunHealthChecks()));
            && outcome.body.Success? && outcome.body.value.JsonBody?
            && var fields := outcome.body.value.json.fields;
               && fields.Keys == {"healthy"} + registry.registeredChecks.Keys
               && fields["healthy"] == JBool(registry.RunHealthChecks().isHealthy)
               && forall name :: name in registry.registeredChecks ==>
                    fields[name] == ToJson(registry.registeredChecks[name].Execute())
  {
    var status := registry.RunHealthChecks();
    assert status.results.Keys == registry.registeredChecks.Keys;
  }

  /** A check registered under the name `healthy` makes `/health` throw once past the gate. */
  lemma HealthNamedHealthyThrows(request: Request, ipAllowListEnabled: bool, config: ActuatorConfiguration,
                                 registry: HealthCheckRegistry)
    requires request.path == Some("/health")
    requires !Forbidding(ipAllowListEnabled, request, config)
    requires "healthy" in registry.registeredChecks
    ensures Respond(Health, request, ipAllowListEnabled, config, HealthEvaluation(registry.RunHealthChecks())).body
            == Failure(DuplicateProperty("healthy"))
  {
  }
}
