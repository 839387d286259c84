/** The shape of the Quartz endpoint's answer: schedulers by name, each with
    its status and jobs, each job with its triggers; and the values each
    object starts with before the endpoint fills it in. */
module QuartzEndpointResponse {
  import opened Wrappers
  import opened Values

  datatype QuartzEndpointJobTriggers = QuartzEndpointJobTriggers(
    name: string,
    group: string,
    description: Option<string>,
    lastFireTimeUtc: Option<Timestamp>,
    nextFireTimeUtc: Option<Timestamp>,
    finalFireTimeUtc: Option<Timestamp>,
    startTimeUtc: Timestamp,
    endTimeUtc: Option<Timestamp>)

  datatype QuartzEndpointJob = QuartzEndpointJob(
    name: Option<string>,
    group: Option<string>,
    description: Option<string>,
    jobClass: Option<string>,
    lastRunSuccessful: Option<bool>,
    lastErrorTimeUtc: Option<Timestamp>,
    lastRunErrorMessage: Option<string>,
    lastRunOutput: Value,
    concurrentExecutionAllowed: bool,
    persistJobData: bool,
    triggers: seq<QuartzEndpointJobTriggers>)

  datatype QuartzEndpointScheduler = QuartzEndpointScheduler(
    schedulerStatus: Option<string>,
    jobs: seq<QuartzEndpointJob>)

  datatype QuartzEndpointResponse = QuartzEndpointResponse(
    schedulers: map<string, QuartzEndpointScheduler>)

  /** `new QuartzEndpointResponse()`: no schedulers. */
  function NewResponse(): (r: QuartzEndpointResponse)
    ensures r.schedulers == map[]
  {
    QuartzEndpointResponse(map[])
  }

  /** `new QuartzEndpointScheduler()`: no status and no jobs. */
  function NewScheduler(): (s: QuartzEndpointScheduler)
    ensures s.schedulerStatus.None? && s.jobs == []
  {
    QuartzEndpointScheduler(None, [])
  }

  /** `new QuartzEndpointJob()`: every reference field null, both flags false, no triggers. */
  function NewJob(): (j: QuartzEndpointJob)
    ensures j.name.None? && j.group.None? && j.description.None? && j.jobClass.None?
    ensures j.lastRunSuccessful.None? && j.lastErrorTimeUtc.None? && j.lastRunErrorMessage.None? && j.lastRunOutput == Null
    ensures !j.concurrentExecutionAllowed && !j.persistJobData && j.triggers == []
  {
    QuartzEndpointJob(None, None, None, None, None, None, None, Null, false, false, [])
  }

}
