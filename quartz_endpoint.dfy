/** `QuartzEndpoint.GetSchedulerStatus`: projects what the registered Quartz
    schedulers report into the endpoint's response. The schedulers are given
    as a snapshot, in the order the scheduler factory lists them. */
module QuartzEndpoint {
  import opened Wrappers
  import opened Exceptions
  import opened Values
  import opened Text
  import opened QuartzEndpointResponse

  /** A trigger as the scheduler reports it. */
  datatype TriggerSnapshot = TriggerSnapshot(
    name: string,
    group: string,
    previousFireTimeUtc: Option<Timestamp>,
    nextFireTimeUtc: Option<Timestamp>,
    finalFireTimeUtc: Option<Timestamp>,
    startTimeUtc: Timestamp,
    endTimeUtc: Option<Timestamp>)

  /** An `IJobDetail`; the job type is known by its full name, which may be null. */
  datatype JobDetail = JobDetail(
    description: Option<string>,
    concurrentExecutionDisallowed: bool,
    persistJobDataAfterExecution: bool,
    jobTypeFullName: Option<string>,
    jobDataMap: map<string, Value>)

  /** One job key with what the scheduler returns for it: the detail (null
      when the job has gone) and the triggers of the job. */
  datatype JobSnapshot = JobSnapshot(name: string, group: string, detail: Option<JobDetail>, triggers: seq<TriggerSnapshot>)

  datatype SchedulerSnapshot = SchedulerSnapshot(
    schedulerName: string,
    isStarted: bool,
    isShutdown: bool,
    inStandbyMode: bool,
    jobs: seq<JobSnapshot>)

  /** The job-data-map keys the endpoint reads and `QuartzActuatorUtil` writes. */
  const LastRunSuccessfulKey: string := "lastRunSuccessful"
  const LastErrorMessageKey: string := "lastErrorMessage"
  const LastErrorTimeUtcKey: string := "lastErrorTimeUtc"
  const LastRunOutputKey: string := "lastRunOutput"

  /** The status rule: started wins over shut down, which wins over standby. */
  function SchedulerStatus(s: SchedulerSnapshot): (status: string)
    ensures status == "STARTED" <==> s.isStarted
    ensures status == "SHUTDOWN" <==> !s.isStarted && s.isShutdown
    ensures status == "STANDBY" <==> !s.isStarted && !s.isShutdown && s.inStandbyMode
    ensures status == "UNKNOWN" <==> !s.isStarted && !s.isShutdown && !s.inStandbyMode
  {
    if s.isStarted then "STARTED"
    else if s.isShutdown then "SHUTDOWN"
    else if s.inStandbyMode then "STANDBY"
    else "UNKNOWN"
  }

  /** `LastRunSuccessful` is read only from a stored bool. */
  function LastRunSuccessfulOf(m: map<string, Value>): (r: Option<bool>)
    ensures r.Some? <==> LastRunSuccessfulKey in m && m[LastRunSuccessfulKey].Bool?
    ensures r.Some? ==> r.value == m[LastRunSuccessfulKey].b
  {
    if LastRunSuccessfulKey in m && m[LastRunSuccessfulKey].Bool? then Some(m[LastRunSuccessfulKey].b) else None
  }

  /** `LastErrorTimeUtc` is read only from a stored `DateTimeOffset`. */
  function LastErrorTimeOf(m: map<string, Value>): (r: Option<Timestamp>)
    ensures r.Some? <==> LastErrorTimeUtcKey in m && m[LastErrorTimeUtcKey].Time?
    ensures r.Some? ==> r.value == m[LastErrorTimeUtcKey].t
  {
    if LastErrorTimeUtcKey in m && m[LastErrorTimeUtcKey].Time? then Some(m[LastErrorTimeUtcKey].t) else None
  }

  /** `LastRunOutput` is whatever is stored, of any type, null included. */
  function LastRunOutputOf(m: map<string, Value>): (r: Value)
    ensures LastRunOutputKey in m ==> r == m[LastRunOutputKey]
    ensures LastRunOutputKey !in m ==> r == Null
  {
    if LastRunOutputKey in m then m[LastRunOutputKey] else Null
  }

  /** `LastRunErrorMessage` as QuartzEndpoint.cs:78 reads it: the string form of
      the stored value, kept unless null or white space; `ToString()` is called
      on the stored value even when that value is null, which throws. */
  function LastErrorMessageAsWritten(m: map<string, Value>): (r: Result<Option<string>, Exception>)
    ensures r.Failure? <==> LastErrorMessageKey in m && m[LastErrorMessageKey] == Null
    ensures r.Failure? ==> r.error == NullReference()
  {
    if LastErrorMessageKey in m then
      match ToText(m[LastErrorMessageKey])
      case None => Failure(NullReference())
      case Some(text) => if IsNullOrWhiteSpace(Some(text)) then Success(None) else Success(Some(text))
    else
      Success(None)
  }

  /** `LastRunErrorMessage` as the comment at QuartzEndpoint.cs:77 intends it: a
      stored null counts as no message. */
  function LastErrorMessageOf(m: map<string, Value>): (r: Option<string>)
    ensures r.Some? <==> LastErrorMessageKey in m && !IsNullOrWhiteSpace(ToText(m[LastErrorMessageKey]))
    ensures r.Some? ==> ToText(m[LastErrorMessageKey]) == r && !IsNullOrWhiteSpace(r)
  {
    if LastErrorMessageKey in m && !IsNullOrWhiteSpace(ToText(m[LastErrorMessageKey])) then ToText(m[LastErrorMessageKey])
    else None
  }

  /** A stored null message makes the endpoint as written throw, where the
      intended reading has no message. */
  lemma NullErrorMessageThrows(m: map<string, Value>)
    requires LastErrorMessageKey in m && m[LastErrorMessageKey] == Null
    ensures LastErrorMessageAsWritten(m) == Failure(NullReference())
    ensures LastErrorMessageOf(m) == None
  {
  }

  /** On every other map the two readings agree. */
  lemma ErrorMessageReadingsAgree(m: map<string, Value>)
    requires !(LastErrorMessageKey in m && m[LastErrorMessageKey] == Null)
    ensures LastErrorMessageAsWritten(m) == Success(LastErrorMessageOf(m))
  {
  }

  /** The trigger entry: name, group and the five times copied; no description. */
  function ProjectTrigger(t: TriggerSnapshot): QuartzEndpointJobTriggers {
    QuartzEndpointJobTriggers(t.name, t.group, None, t.previousFireTimeUtc, t.nextFireTimeUtc,
                              t.finalFireTimeUtc, t.startTimeUtc, t.endTimeUtc)
  }

  /** One entry per trigger, in order. */
  function ProjectTriggers(ts: seq<TriggerSnapshot>): (r: seq<QuartzEndpointJobTriggers>)
    ensures |r| == |ts|
    ensures forall k :: 0 <= k < |ts| ==> r[k] == ProjectTrigger(ts[k])
  {
    if ts == [] then [] else ProjectTriggers(ts[..|ts| - 1]) + [ProjectTrigger(ts[|ts| - 1])]
  }

  /** A job is left out when its detail is null or it has no trigger. */
  predicate Skipped(j: JobSnapshot) {
    j.detail.None? || |j.triggers| == 0
  }

  /** The entry of a job that is not skipped. */
  function ProjectJob(j: JobSnapshot): (r: QuartzEndpointJob)
    requires j.detail.Some?
    ensures r.name == Some(j.name) && r.group == Some(j.group)
    ensures r.concurrentExecutionAllowed == !j.detail.value.concurrentExecutionDisallowed
    ensures r.description == j.detail.value.description && r.jobClass == j.detail.value.jobTypeFullName
    ensures r.persistJobData == j.detail.value.persistJobDataAfterExecution
    ensures var m := j.detail.value.jobDataMap;
      && (r.lastRunSuccessful.Some? <==> LastRunSuccessfulKey in m && m[LastRunSuccessfulKey].Bool?)
      && (r.lastErrorTimeUtc.Some? <==> LastErrorTimeUtcKey in m && m[LastErrorTimeUtcKey].Time?)
      && (r.lastRunErrorMessage.Some? <==> LastErrorMessageKey in m && !IsNullOrWhiteSpace(ToText(m[LastErrorMessageKey])))
      && (LastRunOutputKey in m ==> r.lastRunOutput == m[LastRunOutputKey])
      && (LastRunOutputKey !in m ==> r.lastRunOutput == Null)
      && (r.lastRunSuccessful.Some? ==> r.lastRunSuccessful.value == m[LastRunSuccessfulKey].b)
      && (r.lastErrorTimeUtc.Some? ==> r.lastErrorTimeUtc.value == m[LastErrorTimeUtcKey].t)
      && (r.lastRunErrorMessage.Some? ==> r.lastRunErrorMessage == ToText(m[LastErrorMessageKey]))
    ensures r.triggers == ProjectTriggers(j.triggers)
  {
    var d := j.detail.value;
    var m := d.jobDataMap;
    QuartzEndpointJob(Some(j.name), Some(j.group), d.description, d.jobTypeFullName,
                      LastRunSuccessfulOf(m), LastErrorTimeOf(m), LastErrorMessageOf(m), LastRunOutputOf(m),
                      !d.concurrentExecutionDisallowed, d.persistJobDataAfterExecution,
                      ProjectTriggers(j.triggers))
  }

  /** The jobs of one scheduler, skipped ones left out, in job-key order. */
  function ProjectJobs(js: seq<JobSnapshot>): (r: seq<QuartzEndpointJob>)
    ensures |r| <= |js|
  {
    if js == [] then []
    else
      var last := js[|js| - 1];
      ProjectJobs(js[..|js| - 1]) + (if Skipped(last) then [] else [ProjectJob(last)])
  }

  /** The entry of a scheduler that has at least one job key. */
  function SchedulerEntry(s: SchedulerSnapshot): QuartzEndpointScheduler {
    QuartzEndpointScheduler(Some(SchedulerStatus(s)), ProjectJobs(s.jobs))
  }

  /** The schedulers map as the loop builds it; a scheduler without job keys is left out. */
  function ProjectSchedulers(ss: seq<SchedulerSnapshot>): map<string, QuartzEndpointScheduler> {
    if ss == [] then map[]
    else
      var last := ss[|ss| - 1];
      var before := ProjectSchedulers(ss[..|ss| - 1]);
      if |last.jobs| == 0 then before else before[last.schedulerName := SchedulerEntry(last)]
  }

  /** Quartz keeps scheduler names unique. */
  predicate DistinctNames(ss: seq<SchedulerSnapshot>) {
    forall i, j :: 0 <= i < j < |ss| ==> ss[i].schedulerName != ss[j].schedulerName
  }

  /** The listed names are those of the schedulers that have job keys. */
  lemma {:induction false} ProjectSchedulersKeys(ss: seq<SchedulerSnapshot>)
    ensures forall name :: name in ProjectSchedulers(ss) <==>
              exists i :: 0 <= i < |ss| && ss[i].schedulerName == name && |ss[i].jobs| > 0
  {
    if ss != [] {
      var init := ss[..|ss| - 1];
      ProjectSchedulersKeys(init);
      assert forall i :: 0 <= i < |init| ==> init[i] == ss[i];
    }
  }

  /** Each scheduler with job keys is listed under its name with its status and its jobs. */
  lemma {:induction false} ProjectSchedulersEntry(ss: seq<SchedulerSnapshot>, i: nat)
    requires DistinctNames(ss) && i < |ss| && |ss[i].jobs| > 0
    ensures ss[i].schedulerName in ProjectSchedulers(ss)
    ensures ProjectSchedulers(ss)[ss[i].schedulerName] == SchedulerEntry(ss[i])
  {
    var init := ss[..|ss| - 1];
    if i < |ss| - 1 {
      assert init[i] == ss[i];
      assert DistinctNames(init) by {
        forall a, b | 0 <= a < b < |init| ensures init[a].schedulerName != init[b].schedulerName {
          assert init[a] == ss[a] && init[b] == ss[b];
        }
      }
      ProjectSchedulersEntry(init, i);
      assert ss[|ss| - 1].schedulerName != ss[i].schedulerName;
    }
  }

  /** A scheduler whose every job is skipped is still listed, with no jobs. */
  lemma ListedWhenAllSkipped(ss: seq<SchedulerSnapshot>, i: nat)
    requires DistinctNames(ss) && i < |ss| && |ss[i].jobs| > 0
    requires forall k :: 0 <= k < |ss[i].jobs| ==> Skipped(ss[i].jobs[k])
    ensures ss[i].schedulerName in ProjectSchedulers(ss)
    ensures ProjectSchedulers(ss)[ss[i].schedulerName] == QuartzEndpointScheduler(Some(SchedulerStatus(ss[i])), [])
  {
    ProjectSchedulersEntry(ss, i);
    AllSkippedIff(ss[i].jobs);
  }

  /** The projection of a concatenation is the concatenation of the projections:
      jobs keep their relative order. */
  lemma {:induction false} ProjectJobsAppend(a: seq<JobSnapshot>, b: seq<JobSnapshot>)
    ensures ProjectJobs(a + b) == ProjectJobs(a) + ProjectJobs(b)
  {
    if b == [] {
      assert a + b == a;
    } else {
      var init := b[..|b| - 1];
      var last := b[|b| - 1];
      ProjectJobsAppend(a, init);
      assert (a + b)[..|a + b| - 1] == a + init;
      assert (a + b)[|a + b| - 1] == last;
      var tail := if Skipped(last) then [] else [ProjectJob(last)];
      var front, middle := ProjectJobs(a), ProjectJobs(init);
      assert ProjectJobs(a + b) == (front + middle) + tail;
      assert ProjectJobs(b) == middle + tail;
      AppendAssociates(front, middle, tail);
    }
  }

  lemma AppendAssociates<T>(x: seq<T>, y: seq<T>, z: seq<T>)
    ensures (x + y) + z == x + (y + z)
  {
  }

  /** One job is either skipped or projected. */
  lemma ProjectJobsSingle(j: JobSnapshot)
    ensures ProjectJobs([j]) == if Skipped(j) then [] else [ProjectJob(j)]
  {
    assert [j][..0] == [];
  }

  /** No job is listed exactly when every job is skipped. */
  lemma {:induction false} AllSkippedIff(js: seq<JobSnapshot>)
    ensures ProjectJobs(js) == [] <==> forall k :: 0 <= k < |js| ==> Skipped(js[k])
  {
    if js != [] {
      var init := js[..|js| - 1];
      AllSkippedIff(init);
      assert forall k :: 0 <= k < |init| ==> init[k] == js[k];
    }
  }

  // The endpoint as written: the read at QuartzEndpoint.cs:78 throws on a
  // stored null message, and the exception leaves `GetSchedulerStatus`.

  /** A kept job whose data map stores null under `lastErrorMessage`: building its entry throws. */
  predicate ThrowsOnMessage(j: JobSnapshot) {
    !Skipped(j) && LastErrorMessageAsWritten(j.detail.value.jobDataMap).Failure?
  }

  /** Some scheduler has a job whose entry throws. */
  predicate AnyThrows(ss: seq<SchedulerSnapshot>) {
    exists i, k :: 0 <= i < |ss| && 0 <= k < |ss[i].jobs| && ThrowsOnMessage(ss[i].jobs[k])
  }

  /** The entry of a kept job as the code builds it, or the exception the message read throws. */
  function JobEntryAsWritten(j: JobSnapshot): (r: Result<QuartzEndpointJob, Exception>)
    requires j.detail.Some?
    ensures r.Failure? <==> LastErrorMessageAsWritten(j.detail.value.jobDataMap).Failure?
    ensures r.Failure? ==> r.error == NullReference()
    ensures r.Success? ==> r.value == ProjectJob(j)
  {
    var m := j.detail.value.jobDataMap;
    match LastErrorMessageAsWritten(m)
    case Failure(e) => Failure(e)
    case Success(message) =>
      ErrorMessageReadingsAgree(m);
      Success(ProjectJob(j).(lastRunErrorMessage := message))
  }

  /** The job loop as written: the first job whose entry throws ends it. */
  function JobsAsWritten(js: seq<JobSnapshot>): Result<seq<QuartzEndpointJob>, Exception> {
    if js == [] then Success([])
    else
      var last := js[|js| - 1];
      match JobsAsWritten(js[..|js| - 1])
      case Failure(e) => Failure(e)
      case Success(before) =>
        if Skipped(last) then Success(before)
        else
          match JobEntryAsWritten(last)
          case Failure(e) => Failure(e)
          case Success(entry) => Success(before + [entry])
  }

  /** The scheduler loop as written: the first job whose entry throws ends it. */
  function SchedulersAsWritten(ss: seq<SchedulerSnapshot>): Result<map<string, QuartzEndpointScheduler>, Exception> {
    if ss == [] then Success(map[])
    else
      var last := ss[|ss| - 1];
      match SchedulersAsWritten(ss[..|ss| - 1])
      case Failure(e) => Failure(e)
      case Success(before) =>
        if |last.jobs| == 0 then Success(before)
        else
          match JobsAsWritten(last.jobs)
          case Failure(e) => Failure(e)
          case Success(jobs) => Success(before[last.schedulerName := QuartzEndpointScheduler(Some(SchedulerStatus(last)), jobs)])
  }

  /** The job loop throws NullReferenceException iff some kept job stores a null
      message, and otherwise gives the projected jobs. */
  lemma {:induction false} JobsAsWrittenAgree(js: seq<JobSnapshot>)
    ensures JobsAsWritten(js) == if exists k :: 0 <= k < |js| && ThrowsOnMessage(js[k])
                                  then Failure(NullReference()) else Success(ProjectJobs(js))
  {
    if js != [] {
      var init := js[..|js| - 1];
      var last := js[|js| - 1];
      JobsAsWrittenAgree(init);
      assert forall k :: 0 <= k < |init| ==> init[k] == js[k];
      var throwsBefore := exists k :: 0 <= k < |init| && ThrowsOnMessage(init[k]);
      if !throwsBefore && (exists k :: 0 <= k < |js| && ThrowsOnMessage(js[k])) {
        var k :| 0 <= k < |js| && ThrowsOnMessage(js[k]);
        assert k == |js| - 1;
      }
      if throwsBefore {
        var k :| 0 <= k < |init| && ThrowsOnMessage(init[k]);
        assert ThrowsOnMessage(js[k]);
      } else if Skipped(last) {
        assert ProjectJobs(js) == ProjectJobs(init) + [];
        assert ProjectJobs(init) + [] == ProjectJobs(init);
        assert !ThrowsOnMessage(last);
      } else {
        var entry := JobEntryAsWritten(last);
        assert entry.Failure? <==> ThrowsOnMessage(last);
        if entry.Success? {
          assert JobsAsWritten(js) == Success(ProjectJobs(init) + [ProjectJob(last)]);
        }
      }
    }
  }

  /** The scheduler loop throws NullReferenceException iff some scheduler has a
      job storing a null message, and otherwise gives the projected schedulers. */
  lemma {:induction false} SchedulersAsWrittenAgree(ss: seq<SchedulerSnapshot>)
    ensures SchedulersAsWritten(ss) == if AnyThrows(ss) then Failure(NullReference()) else Success(ProjectSchedulers(ss))
  {
    if ss != [] {
      var init := ss[..|ss| - 1];
      var last := ss[|ss| - 1];
      SchedulersAsWrittenAgree(init);
      JobsAsWrittenAgree(last.jobs);
      assert forall i :: 0 <= i < |init| ==> init[i] == ss[i];
      if AnyThrows(ss) && !AnyThrows(init) {
        var i, k :| 0 <= i < |ss| && 0 <= k < |ss[i].jobs| && ThrowsOnMessage(ss[i].jobs[k]);
        assert i == |ss| - 1;
      }
    }
  }

  /** A failure in the first `n` job keys is the failure of the whole loop. */
  lemma {:induction false} JobsFailurePersists(js: seq<JobSnapshot>, n: nat)
    requires n <= |js| && JobsAsWritten(js[..n]).Failure?
    ensures JobsAsWritten(js) == JobsAsWritten(js[..n])
    decreases |js| - n
  {
    if n < |js| {
      assert js[..n + 1][..n] == js[..n];
      JobsFailurePersists(js, n + 1);
    } else {
      assert js[..n] == js;
    }
  }

  /** A failure in the first `n` schedulers is the failure of the whole loop. */
  lemma {:induction false} SchedulersFailurePersists(ss: seq<SchedulerSnapshot>, n: nat)
    requires n <= |ss| && SchedulersAsWritten(ss[..n]).Failure?
    ensures SchedulersAsWritten(ss) == SchedulersAsWritten(ss[..n])
    decreases |ss| - n
  {
    if n < |ss| {
      assert ss[..n + 1][..n] == ss[..n];
      SchedulersFailurePersists(ss, n + 1);
    } else {
      assert ss[..n] == ss;
    }
  }

  /** `GetSchedulerStatus`, over a snapshot of the registered schedulers: the
      projected response, unless some kept job stores a null message, in which
      case the call throws NullReferenceException. */
  method GetSchedulerStatus(registeredSchedulers: seq<SchedulerSnapshot>) returns (result: Result<QuartzEndpointResponse, Exception>)
    requires DistinctNames(registeredSchedulers)
    ensures result == if AnyThrows(registeredSchedulers) then Failure(NullReference())
                      else Success(QuartzEndpointResponse(ProjectSchedulers(registeredSchedulers)))
  {
    var schedulers: map<string, QuartzEndpointScheduler> := map[];
    for i := 0 to |registeredSchedulers|
      invariant SchedulersAsWritten(registeredSchedulers[..i]) == Success(schedulers)
    {
      var registeredScheduler := registeredSchedulers[i];
      assert registeredSchedulers[..i + 1][..i] == registeredSchedulers[..i];
      var schedulerStatus := "UNKNOWN";
      if registeredScheduler.isStarted {
        schedulerStatus := "STARTED";
      } else if registeredScheduler.isShutdown {
        schedulerStatus := "SHUTDOWN";
      } else if registeredScheduler.inStandbyMode {
        schedulerStatus := "STANDBY";
      }
      var jobKeys := registeredScheduler.jobs;
      if |jobKeys| == 0 {
        continue;
      }
      var jobs := CollectJobs(jobKeys);
      if jobs.Failure? {
        SchedulersFailurePersists(registeredSchedulers, i + 1);
        SchedulersAsWrittenAgree(registeredSchedulers);
        return Failure(jobs.error);
      }
      assert schedulerStatus == SchedulerStatus(registeredScheduler);
      // `Dictionary.Add` throws on a name already present; unique names rule that out.
      SchedulersAsWrittenAgree(registeredSchedulers[..i]);
      ProjectSchedulersKeys(registeredSchedulers[..i]);
      assert registeredScheduler.schedulerName !in schedulers;
      schedulers := schedulers[registeredScheduler.schedulerName := QuartzEndpointScheduler(Some(schedulerStatus), jobs.value)];
    }
    assert registeredSchedulers[..|registeredSchedulers|] == registeredSchedulers;
    SchedulersAsWrittenAgree(registeredSchedulers);
    result := Success(QuartzEndpointResponse(schedulers));
  }

  /** The loop over one scheduler's job keys. */
  method CollectJobs(jobKeys: seq<JobSnapshot>) returns (result: Result<seq<QuartzEndpointJob>, Exception>)
    ensures result == JobsAsWritten(jobKeys)
  {
    var jobs := [];
    for j := 0 to |jobKeys|
      invariant JobsAsWritten(jobKeys[..j]) == Success(jobs)
    {
      assert jobKeys[..j + 1][..j] == jobKeys[..j];
      var jobKey := jobKeys[j];
      var job := jobKey.detail;
      var jobTriggers := jobKey.triggers;
      if job.None? {
        continue;
      }
      if |jobTriggers| == 0 {
        continue;
      }
      var jobObj := BuildJob(jobKey, job.value);
      if jobObj.Failure? {
        JobsFailurePersists(jobKeys, j + 1);
        return Failure(jobObj.error);
      }
      jobs := jobs + [jobObj.value];
    }
    assert jobKeys[..|jobKeys|] == jobKeys;
    result := Success(jobs);
  }

  /** The body of that loop for a job that is kept: the fixed fields, then the
      metadata read field by field (the message read throwing on a stored
      null), then one entry per trigger. */
  method BuildJob(jobKey: JobSnapshot, detail: JobDetail) returns (result: Result<QuartzEndpointJob, Exception>)
    requires jobKey.detail == Some(detail)
    ensures result == JobEntryAsWritten(jobKey)
  {
    var jobObj := NewJob().(name := Some(jobKey.name), group := Some(jobKey.group),
                            description := detail.description,
                            concurrentExecutionAllowed := !detail.concurrentExecutionDisallowed,
                            persistJobData := detail.persistJobDataAfterExecution,
                            jobClass := detail.jobTypeFullName);
    var dataMap := detail.jobDataMap;
    if LastRunSuccessfulKey in dataMap && dataMap[LastRunSuccessfulKey].Bool? {
      jobObj := jobObj.(lastRunSuccessful := Some(dataMap[LastRunSuccessfulKey].b));
    }
    assert jobObj.lastRunSuccessful == LastRunSuccessfulOf(dataMap);
    if LastErrorMessageKey in dataMap {
      // `lastErrorMessage.ToString()` on a null reference
      var text := ToText(dataMap[LastErrorMessageKey]);
      if text.None? {
        return Failure(NullReference());
      }
      if !IsNullOrWhiteSpace(text) {
        jobObj := jobObj.(lastRunErrorMessage := text);
      }
    }
    assert LastErrorMessageAsWritten(dataMap) == Success(jobObj.lastRunErrorMessage);
    if LastErrorTimeUtcKey in dataMap && dataMap[LastErrorTimeUtcKey].Time? {
      jobObj := jobObj.(lastErrorTimeUtc := Some(dataMap[LastErrorTimeUtcKey].t));
    }
    assert jobObj.lastErrorTimeUtc == LastErrorTimeOf(dataMap);
    if LastRunOutputKey in dataMap {
      jobObj := jobObj.(lastRunOutput := dataMap[LastRunOutputKey]);
    }
    assert jobObj.lastRunOutput == LastRunOutputOf(dataMap);
    var triggers := CollectTriggers(jobKey.triggers);
    jobObj := jobObj.(triggers := triggers);
    result := Success(jobObj);
  }

  /** The inner loop of `GetSchedulerStatus`: one entry per trigger of the job, in order. */
  method CollectTriggers(jobTriggers: seq<TriggerSnapshot>) returns (triggers: seq<QuartzEndpointJobTriggers>)
    ensures triggers == ProjectTriggers(jobTriggers)
  {
    triggers := [];
    for k := 0 to |jobTriggers|
      invariant triggers == ProjectTriggers(jobTriggers[..k])
    {
      assert jobTriggers[..k + 1][..k] == jobTriggers[..k];
      var trigger := jobTriggers[k];
      triggers := triggers + [ProjectTrigger(trigger)];
    }
    assert jobTriggers[..|jobTriggers|] == jobTriggers;
  }

}
