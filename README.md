# DotnetActuatorMiddleware in Dafny

A model of the Actuator middleware for ASP.NET Core. The middleware serves
four endpoints (`/health`, `/info`, `/env` and `/quartz`). An optional IP
allow-list gates each one. The model covers the decision logic behind them and
proves properties of it:

- **IP allow-list.** `ActuatorConfiguration` holds the allowed ranges
  (`actuator_configuration.dfy`). Each setter replaces that list wholesale,
  and only after the whole input has parsed. `ActuatorEndpoint.IpIsAllowed`
  fails open on an empty list and otherwise admits an address iff some range
  contains it (`actuator_endpoint.dfy`). Addresses are IPv4 (`nat < 2^32`). A
  range is `[begin, end]`, built from one address or from a CIDR block
  `a.b.c.d/n` (`ip_address_range.dfy`).
- **Health aggregation.**
  - `HealthResponse` covers the factories and the `"EXCEPTION: <Type>, <Message>"` text.
  - `HealthCheck.Execute` turns a throwing probe into an unhealthy response.
  - `HealthCheckRegistry` is a registry in which the first registration wins.
  - `ApplicationHealthStatus` is the AND over all results.
- **Quartz status.**
  - `QuartzEndpoint.GetSchedulerStatus` folds a snapshot of schedulers, jobs
    and triggers into the response datatypes of `QuartzEndpointResponse`. It
    applies the status rule, the skip rules and the reads of the job data map
    as the code makes them. The bool and time reads are type-checked, but the
    message read calls `ToString()` on whatever is stored. So a null stored
    under `lastErrorMessage` throws NullReferenceException, and `/quartz` then
    writes no body.
  - `ProjectSchedulers` is the response when no job stores a null message. It
    is proved to be exactly what `GetSchedulerStatus` returns in that case.
  - `QuartzActuatorUtil` writes the same four keys into a `JobDataMap` in place.
  - Together they give write-then-read round trips. These hold for the map the
    endpoint reads, which is the job store's copy. That copy receives the
    job's `Put`s only when the job class carries `[PersistJobDataAfterExecution]`,
    as both integration-test jobs do; the lemmas take that for granted.
- **Configuration registry.**
  - `ConfigurationRegistry` is a class holding a map of named configuration
    roots. Each root is a tree of sections with a key, an optional value and
    children, and paths are joined by `:`.
  - It raises errors for duplicate and missing source names.
  - `RecurseConfig` flattens a tree into a path → value map. It is proved equal
    to the specification function `Flatten`.
  - A path is in `Flatten` exactly when a section on that path exists and is
    emitted, with that section's value.
- **Endpoint decisions** in `ActuatorMiddleware`. A handler first matches the
  path, then applies the 401 gate (bypassed when the remote address is null).
  For `/health` it then sets 503 iff the aggregate is unhealthy, and builds a
  body holding the root `healthy` flag plus one object per check. Handlers
  update an `HttpResponse` object (status code, content type, body).

Exceptions are values (`Exceptions.Exception`: a type name and a message). An
operation of the source that throws returns `Some(exception)` or a `Failure`.
Static state (`AllowedRanges`, the two registries) becomes a field of a class
instance that is passed explicitly. The wall clock is a `now` parameter.
Probes, and the payloads of `/info` and `/env`, are parameters.

The code is followed wherever it differs from the library's own description:

- the comma split does not trim its pieces;
- `RegisterHealthCheck` uses `TryAdd`, so a second registration under the
  same name is silently ignored;
- a scheduler that has job keys is listed even when every job is skipped;
- a null error message stored by a job makes `/quartz` throw (see Findings).

## Model

| member | source | states |
|---|---|---|
| `ActuatorConfiguration.ParseEach` | src/DotnetActuatorMiddleware/ActuatorConfiguration.cs:25-35 | succeeds iff every piece parses; then the result has one range per piece, in order. On failure the error is the first piece that fails, and every earlier piece parsed |
| `ActuatorConfiguration.ParseRanges` | src/DotnetActuatorMiddleware/ActuatorConfiguration.cs:25-35 | the same, for the IPv4 range parser |
| `ActuatorConfiguration.ParseRangesFailsAt` | src/DotnetActuatorMiddleware/ActuatorConfiguration.cs:27-33 | the first piece that does not parse is the one reported |
| `ActuatorConfiguration.ParseFailureMessage` | src/DotnetActuatorMiddleware/ActuatorConfiguration.cs:33 | the InvalidOperationException message ends with the piece that failed to parse |
| `ActuatorConfiguration.ActuatorConfiguration.constructor` | src/DotnetActuatorMiddleware/ActuatorConfiguration.cs:10 | the allow-list starts empty |
| `ActuatorConfiguration.ActuatorConfiguration.SetEndpointAllowedIps` | src/DotnetActuatorMiddleware/ActuatorConfiguration.cs:18-38 | a null or empty string throws ArgumentNullException and leaves the list unchanged. A piece that does not parse throws InvalidOperationException "Failed to parse IP range …", and the list is unchanged. Otherwise the list becomes exactly the parsed pieces of the untrimmed comma split, in order |
| `ActuatorConfiguration.ActuatorConfiguration.SetEndpointAllowedRanges` | src/DotnetActuatorMiddleware/ActuatorConfiguration.cs:45-55 | a null array throws ArgumentNullException. An empty array leaves the list unchanged. A non-empty array replaces the list verbatim |
| `ActuatorConfiguration.ActuatorConfiguration.ClearIpAllowList` | src/DotnetActuatorMiddleware/ActuatorConfiguration.cs:60-63 | the list is empty afterwards, whatever it was (so the call is idempotent) |
| `ActuatorEndpoint.ActuatorEndpoint.IpIsAllowed` | src/DotnetActuatorMiddleware/Endpoints/ActuatorEndpoint.cs:14-17 | allowed iff the list is empty or some range in it contains the address; it only reads the configuration |
| `ActuatorEndpoint.AnyContains` | src/DotnetActuatorMiddleware/Endpoints/ActuatorEndpoint.cs:16 | `Any(r => r.Contains(ip))` holds iff some range contains the address |
| `ActuatorEndpoint.EmptyListAllowsAll` | src/DotnetActuatorMiddleware/Endpoints/ActuatorEndpoint.cs:16 | with an empty allow-list every address is allowed |
| `ActuatorEndpoint.IpIsAllowedIgnoresFlag` | src/DotnetActuatorMiddleware/Endpoints/ActuatorEndpoint.cs:9-17 | the answer does not depend on the stored `IpAllowListEnabled` flag |
| `ActuatorEndpoint.AppendKeepsAllowed` | src/DotnetActuatorMiddleware/Endpoints/ActuatorEndpoint.cs:16 | appending a range to a non-empty list never turns an allowed address into a refused one |
| `ActuatorEndpoint.MultipleIpString` | tests/DotnetActuatorMiddleware.Tests.Unit/IpAccessRestrictionTests.cs:20-28 | after installing "192.168.0.0/16,10.0.0.0/8", 192.168.1.1 and 10.255.255.1 are allowed and 172.21.1.1 is not |
| `ActuatorEndpoint.TwoBlocks` | tests/DotnetActuatorMiddleware.Tests.Unit/IpAccessRestrictionTests.cs:22 | "192.168.0.0/16,10.0.0.0/8" parses to the two CIDR blocks, in order |
| `ActuatorEndpoint.AllowSingleIp` | tests/DotnetActuatorMiddleware.Tests.Unit/IpAccessRestrictionTests.cs:35-42 | after installing "192.168.1.1", that address is allowed and 192.168.1.2 is not |
| `ActuatorEndpoint.SingleIp` | tests/DotnetActuatorMiddleware.Tests.Unit/IpAccessRestrictionTests.cs:37 | "192.168.1.1" parses to the one-address range |
| `ActuatorEndpoint.RejectsFiveOctets` | tests/DotnetActuatorMiddleware.Tests.Unit/IpAccessRestrictionTests.cs:49-52 | "1.1.1.1.1" fails to parse, and that piece is the one reported |
| `ActuatorEndpoint.ParseTwoRanges` | src/DotnetActuatorMiddleware/ActuatorConfiguration.cs:25-35 | two pieces that parse give the two ranges, in order |
| `ActuatorEndpoint.ParseOneRange` | src/DotnetActuatorMiddleware/ActuatorConfiguration.cs:25-35 | one piece that parses gives that one range |
| `IpAddressRange.ParseAddress` | src/DotnetActuatorMiddleware/ActuatorConfiguration.cs:27 | parses iff the text splits on '.' into exactly four octets (1-3 digits, value at most 255) |
| `IpAddressRange.TryParse` | src/DotnetActuatorMiddleware/ActuatorConfiguration.cs:27 | a parsed range is never inverted (begin ≤ end) |
| `IpAddressRange.SingleAddressRange` | src/DotnetActuatorMiddleware/ActuatorConfiguration.cs:27 | an address without '/' parses to the range holding exactly that address |
| `IpAddressRange.Cidr` | src/DotnetActuatorMiddleware/ActuatorConfiguration.cs:27 | a CIDR block contains its own base address |
| `IpAddressRange.CidrContainsIff` | src/DotnetActuatorMiddleware/Endpoints/ActuatorEndpoint.cs:16 | `a/n` contains `x` iff `x` and `a` agree on their first `n` bits |
| `IpAddressRange.SameBlockIff` | src/DotnetActuatorMiddleware/Endpoints/ActuatorEndpoint.cs:16 | an aligned block contains `x` iff `x` lies in the same block as the base address |
| `IpAddressRange.Slash16Iff` | src/DotnetActuatorMiddleware/Endpoints/ActuatorEndpoint.cs:16 | a /16 block contains exactly the addresses with the same first two octets |
| `IpAddressRange.Slash8Iff` | src/DotnetActuatorMiddleware/Endpoints/ActuatorEndpoint.cs:16 | a /8 block contains exactly the addresses with the same first octet |
| `IpAddressRange.Pow2Add` | src/DotnetActuatorMiddleware/Endpoints/ActuatorEndpoint.cs:16 | `2^(m+n) = 2^m · 2^n`, the block-size arithmetic the CIDR ranges rest on |
| `Text.IndexOf` | src/DotnetActuatorMiddleware/ActuatorConfiguration.cs:22 | the first position of the separator, or the length when there is none |
| `Text.Split` | src/DotnetActuatorMiddleware/ActuatorConfiguration.cs:22 | `string.Split` yields at least one piece, and no piece holds the separator |
| `Text.JoinSplit` | src/DotnetActuatorMiddleware/ActuatorConfiguration.cs:22 | joining the pieces with the separator gives back the input: nothing is trimmed or dropped |
| `Text.SplitJoin` | src/DotnetActuatorMiddleware/ActuatorConfiguration.cs:22 | splitting the join of separator-free pieces gives back those pieces |
| `Text.SplitNone` | src/DotnetActuatorMiddleware/Util/ConfigurationRegistry.cs:80 | a text without the separator is one piece |
| `Text.SplitFour` | src/DotnetActuatorMiddleware/ActuatorConfiguration.cs:27 | four separator-free parts joined by the separator split back into those four |
| `Text.EmptyIsWhiteSpace` | src/DotnetActuatorMiddleware/Endpoints/QuartzEndpoint.cs:78 | null-or-empty implies null-or-white-space, and " " shows that the converse fails |
| `Text.NatToString` | src/DotnetActuatorMiddleware/Endpoints/QuartzEndpoint.cs:78 | the decimal text of a number is a non-empty string of digits |
| `Values.ToText` | src/DotnetActuatorMiddleware/Endpoints/QuartzEndpoint.cs:78 | `ToString()` is undefined exactly on the null reference; a string is its own text; a bool or a time never prints as white space |
| `HealthResponse.Healthy` | src/DotnetActuatorMiddleware/Health/HealthResponse.cs:23-26 | `Healthy()` is healthy with no payload |
| `HealthResponse.HealthyWith` | src/DotnetActuatorMiddleware/Health/HealthResponse.cs:28-31 | `Healthy(x)` is healthy with payload exactly x |
| `HealthResponse.Unhealthy` | src/DotnetActuatorMiddleware/Health/HealthResponse.cs:33-36 | `Unhealthy()` is unhealthy with no payload |
| `HealthResponse.UnhealthyWith` | src/DotnetActuatorMiddleware/Health/HealthResponse.cs:38-41 | `Unhealthy(x)` is unhealthy with payload exactly x |
| `HealthResponse.ExceptionMessage` | src/DotnetActuatorMiddleware/Health/HealthResponse.cs:45 | the message starts with "EXCEPTION: ", and its length is that prefix plus the type name, ", " and the message |
| `HealthResponse.ExceptionMessageParts` | src/DotnetActuatorMiddleware/Health/HealthResponse.cs:45 | after the prefix come exactly the type name, then ", ", then the exception's message |
| `HealthResponse.UnhealthyFrom` | src/DotnetActuatorMiddleware/Health/HealthResponse.cs:43-47 | `Unhealthy(exception)` is unhealthy with a string payload starting with "EXCEPTION: " |
| `HealthResponse.ToJson` | src/DotnetActuatorMiddleware/Health/HealthResponse.cs:7-10 | serialises to an object that always has `healthy` with the flag, and has `responseData` (holding the payload) iff the payload is not null |
| `HealthCheck.HealthCheck.Execute` | src/DotnetActuatorMiddleware/Health/HealthCheck.cs:12-22 | the probe's response when it returns normally; when it throws, an unhealthy response whose payload is the exception message. Nothing propagates |
| `HealthCheck.ThrowingProbeIsUnhealthy` | src/DotnetActuatorMiddleware/Health/HealthCheck.cs:18-21 | a throwing probe gives an unhealthy response with an "EXCEPTION: " string payload |
| `HealthCheck.HealthyMeansReturned` | src/DotnetActuatorMiddleware/Health/HealthCheck.cs:14-21 | a healthy result can only come from a probe that returned that very response |
| `ApplicationHealthStatus.FromResults` | src/DotnetActuatorMiddleware/Health/ApplicationHealthStatus.cs:15-19 | `Results` is exactly the map given; `IsHealthy` holds iff every result is healthy |
| `ApplicationHealthStatus.EmptyIsHealthy` | src/DotnetActuatorMiddleware/Health/ApplicationHealthStatus.cs:17 | no results means healthy |
| `ApplicationHealthStatus.OneUnhealthyDecides` | src/DotnetActuatorMiddleware/Health/ApplicationHealthStatus.cs:17 | one unhealthy result makes the aggregate unhealthy, whatever the others are |
| `ApplicationHealthStatus.AddResult` | src/DotnetActuatorMiddleware/Health/ApplicationHealthStatus.cs:17 | adding a healthy result keeps the aggregate; adding an unhealthy one makes it false |
| `HealthCheckRegistry.HealthCheckRegistry.constructor` | src/DotnetActuatorMiddleware/Health/HealthCheckRegistry.cs:7 | the registry starts empty |
| `HealthCheckRegistry.HealthCheckRegistry.RegisterHealthCheck` | src/DotnetActuatorMiddleware/Health/HealthCheckRegistry.cs:9-12 | a fresh name adds exactly that entry; a name already present leaves the registry unchanged, so the first probe is kept |
| `HealthCheckRegistry.HealthCheckRegistry.RunHealthChecks` | src/DotnetActuatorMiddleware/Health/HealthCheckRegistry.cs:14-21 | the result names are the registered names. Each result is that check's `Execute()`. The aggregate is healthy iff every check reports healthy. It reads the registry and does not change it |
| `HealthCheckRegistry.HealthCheckRegistry.UnregisterAllHealthChecks` | src/DotnetActuatorMiddleware/Health/HealthCheckRegistry.cs:23-26 | the registry is empty afterwards |
| `HealthCheckRegistry.ThrowingCheckIsolated` | src/DotnetActuatorMiddleware/Health/HealthCheckRegistry.cs:18 | a throwing check makes the aggregate unhealthy. Its own entry is `Unhealthy(exception)`, and every other entry is still that check's own result |
| `HealthCheckRegistry.ClearedIsHealthy` | src/DotnetActuatorMiddleware/Health/HealthCheckRegistry.cs:23-26 | an emptied registry runs to no results and healthy |
| `HealthCheckRegistry.RegistryScenario` | tests/DotnetActuatorMiddleware.Tests.Unit/HealthCheckRegistryTests.cs:62-92 | two healthy checks give a healthy aggregate; a healthy and an unhealthy one give an unhealthy one |
| `HealthCheckRegistry.FirstRegistrationWins` | src/DotnetActuatorMiddleware/Health/HealthCheckRegistry.cs:11 | registering an unhealthy probe under a name that already holds a healthy one keeps the healthy result |
| `QuartzEndpointResponse.NewResponse` | src/DotnetActuatorMiddleware/Endpoints/QuartzEndpointResponse.cs:3-6 | a new response has no schedulers |
| `QuartzEndpointResponse.NewScheduler` | src/DotnetActuatorMiddleware/Endpoints/QuartzEndpointResponse.cs:8-12 | a new scheduler entry has a null status and no jobs |
| `QuartzEndpointResponse.NewJob` | src/DotnetActuatorMiddleware/Endpoints/QuartzEndpointResponse.cs:14-27 | a new job has null name, group, description, class and metadata, both flags false, and no triggers |
| `QuartzEndpoint.SchedulerStatus` | src/DotnetActuatorMiddleware/Endpoints/QuartzEndpoint.cs:21-33 | STARTED iff started; SHUTDOWN iff not started but shut down; STANDBY iff neither but in standby; UNKNOWN otherwise |
| `QuartzEndpoint.LastRunSuccessfulOf` | src/DotnetActuatorMiddleware/Endpoints/QuartzEndpoint.cs:72-75 | set iff the key is present and holds a bool, and then it is that bool |
| `QuartzEndpoint.LastErrorTimeOf` | src/DotnetActuatorMiddleware/Endpoints/QuartzEndpoint.cs:84-87 | set iff the key is present and holds a time, and then it is that time |
| `QuartzEndpoint.LastRunOutputOf` | src/DotnetActuatorMiddleware/Endpoints/QuartzEndpoint.cs:90-93 | the stored value verbatim when the key is present, null otherwise |
| `QuartzEndpoint.LastErrorMessageAsWritten` | src/DotnetActuatorMiddleware/Endpoints/QuartzEndpoint.cs:78-81 | the read as written throws NullReferenceException exactly when the key holds null |
| `QuartzEndpoint.LastErrorMessageOf` | src/DotnetActuatorMiddleware/Endpoints/QuartzEndpoint.cs:78-81 | set iff the key is present and its text is not null or white space, and then it is that text |
| `QuartzEndpoint.NullErrorMessageThrows` | src/DotnetActuatorMiddleware/Endpoints/QuartzEndpoint.cs:78 | a stored null error message makes the read throw, where the corrected read leaves the field null |
| `QuartzEndpoint.ErrorMessageReadingsAgree` | src/DotnetActuatorMiddleware/Endpoints/QuartzEndpoint.cs:78-81 | on every other map the read as written and the corrected read agree |
| `QuartzEndpoint.ProjectTriggers` | src/DotnetActuatorMiddleware/Endpoints/QuartzEndpoint.cs:96-108 | one entry per trigger, in order: name, group and the five times copied, description never set |
| `QuartzEndpoint.ProjectJob` | src/DotnetActuatorMiddleware/Endpoints/QuartzEndpoint.cs:61-108 | name and group come from the key; description, class and persist flag from the detail; `ConcurrentExecutionAllowed` is the negated flag. `LastRunSuccessful` and `LastErrorTimeUtc` are set iff the key holds a bool (a time), and then hold that value. `LastRunErrorMessage` is set iff the key's text is neither null nor white space, and then is that text. `LastRunOutput` is the stored value, or null when the key is absent. The triggers are projected |
| `QuartzEndpoint.ProjectJobs` | src/DotnetActuatorMiddleware/Endpoints/QuartzEndpoint.cs:45-111 | never more jobs out than job keys in |
| `QuartzEndpoint.ProjectJobsAppend` | src/DotnetActuatorMiddleware/Endpoints/QuartzEndpoint.cs:45-111 | the job list of a concatenation is the concatenation of the job lists, so job-key order is kept |
| `QuartzEndpoint.ProjectJobsSingle` | src/DotnetActuatorMiddleware/Endpoints/QuartzEndpoint.cs:50-59 | one job key gives no entry when its detail is null or it has no trigger, and otherwise its entry |
| `QuartzEndpoint.AllSkippedIff` | src/DotnetActuatorMiddleware/Endpoints/QuartzEndpoint.cs:50-59 | the job list is empty iff every job is skipped |
| `QuartzEndpoint.ProjectSchedulersKeys` | src/DotnetActuatorMiddleware/Endpoints/QuartzEndpoint.cs:38-41 | the listed names are exactly the schedulers that have at least one job key |
| `QuartzEndpoint.ProjectSchedulersEntry` | src/DotnetActuatorMiddleware/Endpoints/QuartzEndpoint.cs:113-117 | a scheduler with job keys is listed under its name with its status and its projected jobs |
| `QuartzEndpoint.ListedWhenAllSkipped` | src/DotnetActuatorMiddleware/Endpoints/QuartzEndpoint.cs:113-117 | a scheduler whose every job is skipped is still listed, with an empty job list |
| `QuartzEndpoint.ProjectTrigger` | src/DotnetActuatorMiddleware/Endpoints/QuartzEndpoint.cs:98-107 | reference definition of one trigger entry: name and group from the key, the five times copied, no description (its properties are stated through `ProjectTriggers`) |
| `QuartzEndpoint.Skipped` | src/DotnetActuatorMiddleware/Endpoints/QuartzEndpoint.cs:50-59 | reference definition of the skip rule: a null job detail, or no trigger (used by `ProjectJobsSingle` and `AllSkippedIff`) |
| `QuartzEndpoint.SchedulerEntry` | src/DotnetActuatorMiddleware/Endpoints/QuartzEndpoint.cs:113-117 | reference definition of a listed scheduler: its status and its projected jobs (used by `ProjectSchedulersEntry`) |
| `QuartzEndpoint.ProjectSchedulers` | src/DotnetActuatorMiddleware/Endpoints/QuartzEndpoint.cs:11-126 | reference definition of the schedulers map when nothing throws. Its keys are stated by `ProjectSchedulersKeys`, its entries by `ProjectSchedulersEntry`, and its agreement with the code by `SchedulersAsWrittenAgree` |
| `QuartzEndpoint.JobEntryAsWritten` | src/DotnetActuatorMiddleware/Endpoints/QuartzEndpoint.cs:61-108 | building a kept job's entry throws NullReferenceException iff its stored message is null. Otherwise it is exactly the projected job |
| `QuartzEndpoint.JobsAsWritten` | src/DotnetActuatorMiddleware/Endpoints/QuartzEndpoint.cs:44-111 | reference definition of the job loop as written: the first throwing entry ends it (its meaning is stated by `JobsAsWrittenAgree`) |
| `QuartzEndpoint.SchedulersAsWritten` | src/DotnetActuatorMiddleware/Endpoints/QuartzEndpoint.cs:11-126 | reference definition of the scheduler loop as written (its meaning is stated by `SchedulersAsWrittenAgree`) |
| `QuartzEndpoint.JobsAsWrittenAgree` | src/DotnetActuatorMiddleware/Endpoints/QuartzEndpoint.cs:44-111 | the job loop throws NullReferenceException iff some kept job stores a null message, and otherwise yields the projected job list |
| `QuartzEndpoint.SchedulersAsWrittenAgree` | src/DotnetActuatorMiddleware/Endpoints/QuartzEndpoint.cs:11-126 | the scheduler loop throws NullReferenceException iff some scheduler has a kept job storing a null message, and otherwise yields `ProjectSchedulers` |
| `QuartzEndpoint.JobsFailurePersists` | src/DotnetActuatorMiddleware/Endpoints/QuartzEndpoint.cs:78 | once the job loop has thrown, later job keys do not change the outcome |
| `QuartzEndpoint.SchedulersFailurePersists` | src/DotnetActuatorMiddleware/Endpoints/QuartzEndpoint.cs:78 | once the scheduler loop has thrown, later schedulers do not change the outcome |
| `QuartzEndpoint.GetSchedulerStatus` | src/DotnetActuatorMiddleware/Endpoints/QuartzEndpoint.cs:11-126 | if some kept job stores a null message, the call throws NullReferenceException. Otherwise it returns exactly the projected schedulers map |
| `QuartzEndpoint.CollectJobs` | src/DotnetActuatorMiddleware/Endpoints/QuartzEndpoint.cs:44-111 | the job loop returns exactly the as-written job list or its exception: the projected jobs, unless some kept job stores a null message |
| `QuartzEndpoint.BuildJob` | src/DotnetActuatorMiddleware/Endpoints/QuartzEndpoint.cs:61-108 | the conditional field assignments on `jobObj` and its trigger loop give the projected job. The message read throws NullReferenceException on a stored null |
| `QuartzEndpoint.CollectTriggers` | src/DotnetActuatorMiddleware/Endpoints/QuartzEndpoint.cs:96-108 | the trigger loop builds exactly the projected trigger list |
| `QuartzActuatorUtil.AfterFailed` | src/DotnetActuatorMiddleware/Util/QuartzActuatorUtil.cs:44-58 | the map after a failure keeps every key, holds `lastRunSuccessful = false` and `lastErrorTimeUtc = now` (the other keys are stated by `OtherKeysUnchanged` and `FailedRoundTrip`) |
| `QuartzActuatorUtil.AfterSuccessful` | src/DotnetActuatorMiddleware/Util/QuartzActuatorUtil.cs:79-87 | the map after a success keeps every key and holds `lastRunSuccessful = true` |
| `QuartzActuatorUtil.JobDataMap.constructor` | src/DotnetActuatorMiddleware/Util/QuartzActuatorUtil.cs:44 | the job data map holds the entries given |
| `QuartzActuatorUtil.JobDataMap.Put` | src/DotnetActuatorMiddleware/Util/QuartzActuatorUtil.cs:46 | `Put` sets one key and leaves the others |
| `QuartzActuatorUtil.JobDataMap.MarkJobFailed` | src/DotnetActuatorMiddleware/Util/QuartzActuatorUtil.cs:18-21 | the same update as the full overload with a null message and a null output |
| `QuartzActuatorUtil.JobDataMap.MarkJobFailedWithMessage` | src/DotnetActuatorMiddleware/Util/QuartzActuatorUtil.cs:32-35 | the same update as the full overload with a null output |
| `QuartzActuatorUtil.JobDataMap.MarkJobFailedWithOutput` | src/DotnetActuatorMiddleware/Util/QuartzActuatorUtil.cs:44-58 | puts `false` and `now`. It puts the message only when it is neither null nor empty, and the output only when it is not null |
| `QuartzActuatorUtil.JobDataMap.MarkJobSuccessful` | src/DotnetActuatorMiddleware/Util/QuartzActuatorUtil.cs:68-71 | the same update as the full overload with a null output |
| `QuartzActuatorUtil.JobDataMap.MarkJobSuccessfulWithOutput` | src/DotnetActuatorMiddleware/Util/QuartzActuatorUtil.cs:79-87 | puts `true`, and the output only when it is not null |
| `QuartzActuatorUtil.OtherKeysUnchanged` | src/DotnetActuatorMiddleware/Util/QuartzActuatorUtil.cs:44-87 | neither writer adds, removes or changes a key other than the four marker keys |
| `QuartzActuatorUtil.FailedRoundTrip` | src/DotnetActuatorMiddleware/Util/QuartzActuatorUtil.cs:44-58 | the endpoint then reads `LastRunSuccessful = false` and the error time `now`. A non-empty message is read back, as none when it is white space. A null or empty one keeps the earlier reading, both for the read as written (so an earlier stored null still throws) and for the corrected read. The output is the new one when given, else the old one |
| `QuartzActuatorUtil.SuccessfulRoundTrip` | src/DotnetActuatorMiddleware/Util/QuartzActuatorUtil.cs:79-87 | the endpoint then reads `LastRunSuccessful = true`, the same error time as before, and the same message reading as before (the read as written still throws after an earlier stored null). It reads the new output when one is given |
| `QuartzActuatorUtil.StaleErrorSurvivesSuccess` | src/DotnetActuatorMiddleware/Util/QuartzActuatorUtil.cs:79-87 | a success after a failure reads as successful, and still reports the earlier error message under both reads |
| `QuartzActuatorUtil.WritersStoreNoNullMessage` | src/DotnetActuatorMiddleware/Util/QuartzActuatorUtil.cs:49-52 | neither writer stores a null message: a null under `lastErrorMessage` afterwards was already there |
| `QuartzActuatorUtil.JobRunScenario` | tests/DotnetActuatorMiddleware.Tests.Integration/QuartzEndpointTests.cs:233-237 | on fresh maps, `MarkJobFailed("error")` reads back as false with "error", and `MarkJobSuccessful("stringOutput")` as true with no message |
| `ConfigurationRegistry.FindChild` | src/DotnetActuatorMiddleware/Util/ConfigurationRegistry.cs:65 | the first child with the key, or the number of children when there is none |
| `ConfigurationRegistry.Find` | src/DotnetActuatorMiddleware/Util/ConfigurationRegistry.cs:65 | the section found on a path has the path's last key (`GetSection` follows the first match at each level) |
| `ConfigurationRegistry.ValueOf` | src/DotnetActuatorMiddleware/Util/ConfigurationRegistry.cs:80 | reference definition of `GetSection(key).Value`: the value of the section on the path, null when there is none (stated by `SetThenGet` and `SetKeepsOthers`) |
| `ConfigurationRegistry.Create` | src/DotnetActuatorMiddleware/Util/ConfigurationRegistry.cs:96 | the sections a new path creates start with its first key, and the value set reads back on that path |
| `ConfigurationRegistry.SetAt` | src/DotnetActuatorMiddleware/Util/ConfigurationRegistry.cs:96 | setting a value adds at most one top-level section and keeps the existing sections in place, with their keys |
| `ConfigurationRegistry.FindChildAppend` | src/DotnetActuatorMiddleware/Util/ConfigurationRegistry.cs:65 | appending a child leaves an earlier match in place and otherwise finds the new child iff its key matches |
| `ConfigurationRegistry.FindChildUpdate` | src/DotnetActuatorMiddleware/Util/ConfigurationRegistry.cs:96 | replacing a child by one with the same key does not change any lookup |
| `ConfigurationRegistry.SetThenGet` | src/DotnetActuatorMiddleware/Util/ConfigurationRegistry.cs:96 | a value set on a path reads back on that path |
| `ConfigurationRegistry.SetKeepsOthers` | src/DotnetActuatorMiddleware/Util/ConfigurationRegistry.cs:96 | setting one path leaves the value read on every other path unchanged |
| `ConfigurationRegistry.CreateWellFormed` | src/DotnetActuatorMiddleware/Util/ConfigurationRegistry.cs:96 | a section created on a path of delimiter-free keys is well formed (sibling keys distinct and without ':') |
| `ConfigurationRegistry.SetAtWellFormed` | src/DotnetActuatorMiddleware/Util/ConfigurationRegistry.cs:96 | setting a value keeps a tree well formed |
| `ConfigurationRegistry.ChildPath` | src/DotnetActuatorMiddleware/Util/ConfigurationRegistry.cs:135 | reference definition of `child.Path` (stated by `ChildPathParts`) |
| `ConfigurationRegistry.ChildPathParts` | src/DotnetActuatorMiddleware/Util/ConfigurationRegistry.cs:135 | a child's path ends with its key. A top-level section's path is its key, and a nested one starts with its parent's path and ':' |
| `ConfigurationRegistry.Emits` | src/DotnetActuatorMiddleware/Util/ConfigurationRegistry.cs:130-135 | reference definition of when a child is listed: it has no children, or its value is neither null nor empty (stated by `FlattenSound` and `FlattenComplete`) |
| `ConfigurationRegistry.Flatten` | src/DotnetActuatorMiddleware/Util/ConfigurationRegistry.cs:119-140 | reference definition of what `RecurseConfig` returns (its content is stated by `FlattenSound` and `FlattenComplete`) |
| `ConfigurationRegistry.PathOfInjective` | src/DotnetActuatorMiddleware/Util/ConfigurationRegistry.cs:135 | distinct delimiter-free key paths give distinct `Path` strings |
| `ConfigurationRegistry.Merge` | src/DotnetActuatorMiddleware/Util/ConfigurationRegistry.cs:127 | `Concat` then `GroupBy` then `First` holds the keys of both maps, and on a shared key the earlier map's entry wins |
| `ConfigurationRegistry.FlattenSound` | src/DotnetActuatorMiddleware/Util/ConfigurationRegistry.cs:119-140 | every key in the flattened map is the path of a section that exists and is emitted, with that section's value |
| `ConfigurationRegistry.FlattenComplete` | src/DotnetActuatorMiddleware/Util/ConfigurationRegistry.cs:119-140 | every emitted section (a leaf, or a parent with a non-empty value) appears under its full path |
| `ConfigurationRegistry.PathIsNew` | src/DotnetActuatorMiddleware/Util/ConfigurationRegistry.cs:135 | in a well-formed tree the child's path is not yet in `result`, so `result.Add` cannot throw |
| `ConfigurationRegistry.RecurseConfig` | src/DotnetActuatorMiddleware/Util/ConfigurationRegistry.cs:119-140 | the loop over the children, with its recursion and merges, builds exactly the flattened map |
| `ConfigurationRegistry.AllValuesAreKeys` | src/DotnetActuatorMiddleware/Util/ConfigurationRegistry.cs:104-117 | every entry of `GetAllValuesFromSource` is a key that locates an emitted section, and its value is what `GetKey` reads for that key |
| `ConfigurationRegistry.KeysAreListed` | src/DotnetActuatorMiddleware/Util/ConfigurationRegistry.cs:104-117 | every key locating an emitted section is listed |
| `ConfigurationRegistry.SectionAt` | src/DotnetActuatorMiddleware/Util/ConfigurationRegistry.cs:65 | `GetSection` returns the section on the path, or an empty one with a null value when there is none |
| `ConfigurationRegistry.ConfigurationRegistry.constructor` | src/DotnetActuatorMiddleware/Util/ConfigurationRegistry.cs:12 | there are no sources yet |
| `ConfigurationRegistry.ConfigurationRegistry.AddConfigurationSource` | src/DotnetActuatorMiddleware/Util/ConfigurationRegistry.cs:19-27 | a name already present throws InvalidOperationException and changes nothing; a fresh name adds exactly that source |
| `ConfigurationRegistry.ConfigurationRegistry.RemoveConfigurationSource` | src/DotnetActuatorMiddleware/Util/ConfigurationRegistry.cs:33-41 | a missing name throws InvalidOperationException and changes nothing; a present one removes only that source |
| `ConfigurationRegistry.ConfigurationRegistry.RemoveAllConfigurationSources` | src/DotnetActuatorMiddleware/Util/ConfigurationRegistry.cs:46-49 | no sources remain |
| `ConfigurationRegistry.ConfigurationRegistry.GetConfigurationSection` | src/DotnetActuatorMiddleware/Util/ConfigurationRegistry.cs:58-66 | an unknown source throws InvalidOperationException; otherwise the section at the key |
| `ConfigurationRegistry.ConfigurationRegistry.GetKey` | src/DotnetActuatorMiddleware/Util/ConfigurationRegistry.cs:73-81 | an unknown source throws InvalidOperationException; otherwise the value at the key, null when absent |
| `ConfigurationRegistry.ConfigurationRegistry.SetKey` | src/DotnetActuatorMiddleware/Util/ConfigurationRegistry.cs:89-97 | an unknown source throws InvalidOperationException and changes nothing. Otherwise only that source's tree changes, by setting the value at the key |
| `ConfigurationRegistry.ConfigurationRegistry.GetAllValuesFromSource` | src/DotnetActuatorMiddleware/Util/ConfigurationRegistry.cs:104-117 | an unknown source throws InvalidOperationException "No configuration source registered with name …"; otherwise the flattened tree |
| `ConfigurationRegistry.GetKeyAfterSetKey` | src/DotnetActuatorMiddleware/Util/ConfigurationRegistry.cs:89-97 | `SetKey(s, k, v)` followed by `GetKey(s, k)` gives v |
| `ConfigurationRegistry.RegistryRefusesDuplicate` | tests/DotnetActuatorMiddleware.Tests.Unit/ConfigurationRegistryTests.cs:51-54 | adding the same source name twice throws on the second call |
| `ConfigurationRegistry.RegistryReadsBack` | tests/DotnetActuatorMiddleware.Tests.Unit/ConfigurationRegistryTests.cs:79-83 | on an empty source, a key that was set reads back its value and another key reads as null |
| `ConfigurationRegistry.RegistryForgetsRemoved` | tests/DotnetActuatorMiddleware.Tests.Unit/ConfigurationRegistryTests.cs:37-39 | after a source is removed, reading from it throws |
| `ActuatorMiddleware.Forbidding` | src/DotnetActuatorMiddleware/ActuatorMiddleware.cs:24 | reference definition of the gate: the flag is on, the remote address is known and the allow-list refuses it (stated by `UnauthorizedIff` and `GateBypassed`) |
| `ActuatorMiddleware.Respond` | src/DotnetActuatorMiddleware/ActuatorMiddleware.cs:17-31 | reference definition of every handler's decision: `next()`, 401, or the endpoint's own evaluation (stated by `NextIffOtherPath`, `AnsweredIsJson`, `UnauthorizedIff`, `RefusalIgnoresEvaluation` and `GateBypassed`) |
| `ActuatorMiddleware.After` | src/DotnetActuatorMiddleware/ActuatorMiddleware.cs:17-31 | reference definition of the response after a decision: untouched for `next()`; otherwise JSON, the status when one is set, and the body unless building it threw |
| `ActuatorMiddleware.DuplicateProperty` | src/DotnetActuatorMiddleware/ActuatorMiddleware.cs:41-44 | the exception `JObject.Add` throws is an ArgumentException |
| `ActuatorMiddleware.DuplicatePropertyNamesIt` | src/DotnetActuatorMiddleware/ActuatorMiddleware.cs:41-44 | the message opens with `DuplicatePropertyPrefix` ("Can not add property "), followed by the duplicated property's name |
| `ActuatorMiddleware.ForbiddenJson` | src/DotnetActuatorMiddleware/ActuatorMiddleware.cs:27 | the 401 body is the object with the single field `message = "Forbidden"` |
| `ActuatorMiddleware.HealthJson` | src/DotnetActuatorMiddleware/ActuatorMiddleware.cs:40-45 | fails iff a check is named `healthy` (JObject.Add refuses the duplicate). Otherwise the fields are `healthy` (holding the aggregate) and one per check, holding that check's serialised response |
| `ActuatorMiddleware.AssembleHealthJson` | src/DotnetActuatorMiddleware/ActuatorMiddleware.cs:40-45 | the `Add` loop builds exactly that object, or throws that exception |
| `ActuatorMiddleware.HealthEvaluation` | src/DotnetActuatorMiddleware/ActuatorMiddleware.cs:31-45 | status 503 iff unhealthy, none set iff healthy; the body is the health object or the exception building it |
| `ActuatorMiddleware.HttpResponse.constructor` | src/DotnetActuatorMiddleware/ActuatorMiddleware.cs:15 | a fresh response is 200 with no content type and no body |
| `ActuatorMiddleware.Admit` | src/DotnetActuatorMiddleware/ActuatorMiddleware.cs:17-29 | another path goes to `next()` and leaves the response alone. A matching path sets JSON, then either answers 401 with the Forbidden body (when the gate refuses) or lets the handler go on |
| `ActuatorMiddleware.HandleHealth` | src/DotnetActuatorMiddleware/ActuatorMiddleware.cs:13-54 | the response afterwards is the decision for the health evaluation of the registry, and an exception building the body propagates |
| `ActuatorMiddleware.WriteHealth` | src/DotnetActuatorMiddleware/ActuatorMiddleware.cs:31-47 | sets 503 when unhealthy and writes the health object, or propagates the exception building it |
| `ActuatorMiddleware.HandleInfoOrEnvironment` | src/DotnetActuatorMiddleware/ActuatorMiddleware.cs:56-83 | the response afterwards is the decision for writing the given payload with the default status |
| `ActuatorMiddleware.QuartzEvaluation` | src/DotnetActuatorMiddleware/ActuatorMiddleware.cs:130-131 | no status is set. The body is the NullReferenceException when some kept job stores a null message, and otherwise the projected schedulers |
| `ActuatorMiddleware.HandleQuartz` | src/DotnetActuatorMiddleware/ActuatorMiddleware.cs:113-139 | the response afterwards is the decision for the Quartz evaluation, and the exception when `GetSchedulerStatus` throws propagates |
| `ActuatorMiddleware.NextIffOtherPath` | src/DotnetActuatorMiddleware/ActuatorMiddleware.cs:17 | a request goes to `next()` iff its path is not exactly the endpoint's path (a null path never matches) |
| `ActuatorMiddleware.AnsweredIsJson` | src/DotnetActuatorMiddleware/ActuatorMiddleware.cs:19 | every answered request has content type application/json |
| `ActuatorMiddleware.UnauthorizedIff` | src/DotnetActuatorMiddleware/ActuatorMiddleware.cs:24-29 | on a matching path the answer is 401 iff the flag is on, the remote address is known and the allow-list refuses it; a 401 carries the Forbidden body |
| `ActuatorMiddleware.RefusalIgnoresEvaluation` | src/DotnetActuatorMiddleware/ActuatorMiddleware.cs:28-31 | once the gate refuses, the answer does not depend on the endpoint's evaluation |
| `ActuatorMiddleware.GateBypassed` | src/DotnetActuatorMiddleware/ActuatorMiddleware.cs:24 | with the flag off or no remote address, a matching request gets the endpoint's own status and body |
| `ActuatorMiddleware.HealthStatusCode` | src/DotnetActuatorMiddleware/ActuatorMiddleware.cs:33-37 | an admitted health request ends with 503 iff some registered check is unhealthy, and otherwise keeps the status it had (200 by default) |
| `ActuatorMiddleware.HealthBodyShape` | src/DotnetActuatorMiddleware/ActuatorMiddleware.cs:40-45 | unless a check is named `healthy`, the body has the root `healthy` flag plus one field per registered check, holding that check's `Execute()` result |
| `ActuatorMiddleware.HealthNamedHealthyThrows` | src/DotnetActuatorMiddleware/ActuatorMiddleware.cs:41-44 | a check named `healthy` makes the health handler throw the duplicate-property exception |

## Left out

- IPv6, "a-b" ranges, bit-mask forms and the rest of the NetTools `IPAddressRange` grammar. The address parser takes dotted-quad IPv4 with 1-3 digit decimal octets, and CIDR prefixes of 1-2 digits up to 32.
- `IpAddressRange.TryParse`: this is a simplified parser, not the library's. It does not model leading or trailing white space, which the library tolerates. Nor does it model the non-canonical IPv4 forms that `IPAddress.Parse` accepts: fewer than four parts, hexadecimal octets, and octets with a leading zero read as octal, so "010.0.0.1" is 8.0.0.1 there but 10.0.0.1 here.
- Trimming: the comma split is not trimmed, so "a, b" gives the piece " b", and the simplified parser refuses it.
- Concurrency: `ConcurrentDictionary` atomicity, `Task.Run`, `async`/`await` and the blocking `.Result` calls on Quartz are modelled as sequential maps and sequential calls.
- `ActuatorConfiguration.ActuatorConfiguration.SetEndpointAllowedRanges`: the model stores a copy of the caller's ranges. The source keeps the caller's array itself, so a later write to that array is not seen by the allow-list in the model (aliasing is not modelled).
- `ConfigurationRegistry.ConfigurationRegistry.AddConfigurationSource`: the model stores a copy of the caller's root. The source keeps the caller's `IConfigurationRoot` by reference, so a change the application makes through its own reference, which `GetKey` would then read, is not modelled.
- `ConfigurationRegistry.ConfigurationRegistry.SetKey`: a configuration root is modelled by its section tree alone, standing for a root with at least one configuration provider. A root built with no provider (`new ConfigurationBuilder().Build()`) makes the value setter throw InvalidOperationException ("A configuration source is not registered. Please register one before setting a value.") in the source, and `GetKey` then still reads null. The model does not tell such a root from an empty one, so there it neither throws nor fails the read-back that `ConfigurationRegistry.GetKeyAfterSetKey` states.
- `ConfigurationRegistry.ConfigurationRegistry.SetKey`: the model changes only the registry's copy. The source writes through the shared `IConfigurationRoot`, so the application's own configuration changes too, and that is not modelled.
- Process-wide static state: `AllowedRanges` and the two registries are fields of class instances passed explicitly; aliasing between handlers is not modelled.
- The wall clock: `DateTimeOffset.UtcNow` is the parameter `now`; a time is a tick count (`nat`).
- `Values.ToText`: the text of a time is its tick count in decimal, not `DateTimeOffset.ToString()`'s format. Only its not being white space is used.
- The `/info` and `/env` payloads (assembly reflection, environment and OS introspection, DNS, the `double` uptime) are parameters of `HandleInfoOrEnvironment`.
- The Elasticsearch and MySQL health checks are network clients over foreign libraries and are not part of this model. A probe is a function returning a response or an exception.
- `HealthEndpoint` is a one-line call to `RunHealthChecks` and is inlined into `HandleHealth`.
- JSON text: Newtonsoft's serialisation is modelled as a `Json` tree. Byte output, field order and dictionary iteration order are not modelled.
- Configuration keys are compared exactly; `IConfiguration`'s case-insensitive key comparison is not modelled. An `IConfigurationRoot` is a tree of sections, and `GetSection` and the value setter are modelled on that tree.
- `ConfigurationRegistry.RecurseConfig` requires a well-formed tree (distinct sibling keys without ':'), as every `IConfiguration` tree is. On other trees `result.Add` could throw, and that is not modelled.
- `ConfigurationRegistry.ConfigurationRegistry.GetConfigurationSection`: returns a snapshot of the section, not the live `IConfigurationSection`. A later `SetKey` seen through the returned section, and a write to its `Value` reaching the source (aliasing), are not modelled.
- `QuartzEndpoint.GetSchedulerStatus` requires distinct scheduler names, as Quartz guarantees; `schedulers.Add` would throw on a duplicate.
- What the host does with an exception that escapes a handler (`HandleHealth` and `HandleQuartz` return it) is outside the middleware.
- Quartz internals (`StdSchedulerFactory`, job stores) are an input snapshot in factory order.

## Findings

| source | as written | input that shows it | evidently intended | confidence | as-written member | corrected member |
|---|---|---|---|---|---|---|
| src/DotnetActuatorMiddleware/Endpoints/QuartzEndpoint.cs:78 | `lastErrorMessage.ToString()` is called on the stored value without a null check, so a null stored under the key throws NullReferenceException and the whole endpoint fails | a job whose data map holds "lastErrorMessage" → null | the comment says the value is used only when it is a non-null, non-empty string, so a null should leave `LastRunErrorMessage` unset | not executed | `QuartzEndpoint.LastErrorMessageAsWritten` (shown by `QuartzEndpoint.NullErrorMessageThrows`), which `QuartzEndpoint.GetSchedulerStatus` and `ActuatorMiddleware.HandleQuartz` use | `QuartzEndpoint.LastErrorMessageOf` (agreeing elsewhere by `QuartzEndpoint.ErrorMessageReadingsAgree`), on which `QuartzEndpoint.ProjectSchedulers` rests, proved equal to the code's result when no null is stored by `QuartzEndpoint.SchedulersAsWrittenAgree` |
