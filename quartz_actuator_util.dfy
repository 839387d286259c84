/** `QuartzActuatorUtil`: the helpers a job calls to leave its outcome in its
    own job data map, where the Quartz endpoint later reads it. The wall clock
    is the parameter `now`. */
module QuartzActuatorUtil {
  import opened Wrappers
  import opened Values
  import opened Text
  import opened QuartzEndpoint

  /** The map after `MarkJobFailed(errorMessage, outputObject)`. */
  function AfterFailed(m: map<string, Value>, errorMessage: Option<string>, outputObject: Value, now: Timestamp): (r: map<string, Value>)
    ensures m.Keys <= r.Keys
    ensures LastRunSuccessfulKey in r && r[LastRunSuccessfulKey] == Bool(false)
    ensures LastErrorTimeUtcKey in r && r[LastErrorTimeUtcKey] == Time(now)
  {
    var marked := m[LastRunSuccessfulKey := Bool(false)][LastErrorTimeUtcKey := Time(now)];
    var withMessage := if IsNullOrEmpty(errorMessage) then marked else marked[LastErrorMessageKey := Str(errorMessage.value)];
    if outputObject == Null then withMessage else withMessage[LastRunOutputKey := outputObject]
  }

  /** The map after `MarkJobSuccessful(outputObject)`. */
  function AfterSuccessful(m: map<string, Value>, outputObject: Value): (r: map<string, Value>)
    ensures m.Keys <= r.Keys
    ensures LastRunSuccessfulKey in r && r[LastRunSuccessfulKey] == Bool(true)
  {
    var marked := m[LastRunSuccessfulKey := Bool(true)];
    if outputObject == Null then marked else marked[LastRunOutputKey := outputObject]
  }

  /** A job's `JobDataMap`, updated in place by `Put`. */
  class JobDataMap {
    var entries: map<string, Value>

    constructor(entries: map<string, Value>)
      ensures this.entries == entries
    {
      this.entries := entries;
    }

    method Put(key: string, value: Value)
      modifies this
      ensures entries == old(entries)[key := value]
    {
      entries := entries[key := value];
    }

    /** `MarkJobFailed()`: the full writer with neither message nor output. */
    method MarkJobFailed(now: Timestamp)
      modifies this
      ensures entries == AfterFailed(old(entries), None, Null, now)
    {
      MarkJobFailedWithOutput(None, Null, now);
    }

    /** `MarkJobFailed(string?)`: the full writer without output. */
    method MarkJobFailedWithMessage(errorMessage: Option<string>, now: Timestamp)
      modifies this
      ensures entries == AfterFailed(old(entries), errorMessage, Null, now)
    {
      MarkJobFailedWithOutput(errorMessage, Null, now);
    }

    /** `MarkJobFailed(string?, object?)`: always records the failure and its time;
        the message only when it is non-empty, the output only when non-null. */
    method MarkJobFailedWithOutput(errorMessage: Option<string>, outputObject: Value, now: Timestamp)
      modifies this
      ensures entries == AfterFailed(old(entries), errorMessage, outputObject, now)
    {
      Put(LastRunSuccessfulKey, Bool(false));
      Put(LastErrorTimeUtcKey, Time(now));
      if !IsNullOrEmpty(errorMessage) {
        Put(LastErrorMessageKey, Str(errorMessage.value));
      }
      if outputObject != Null {
        Put(LastRunOutputKey, outputObject);
      }
    }

    /** `MarkJobSuccessful()`: the full writer without output. */
    method MarkJobSuccessful()
      modifies this
      ensures entries == AfterSuccessful(old(entries), Null)
    {
      MarkJobSuccessfulWithOutput(Null);
    }

    /** `MarkJobSuccessful(object?)`: records success, and the output when non-null. */
    method MarkJobSuccessfulWithOutput(outputObject: Value)
      modifies this
      ensures entries == AfterSuccessful(old(entries), outputObject)
    {
      Put(LastRunSuccessfulKey, Bool(true));
      if outputObject != Null {
        Put(LastRunOutputKey, outputObject);
      }
    }
  }

  /** The four keys the writers may touch. */
  predicate IsMarkerKey(key: string) {
    key == LastRunSuccessfulKey || key == LastErrorMessageKey || key == LastErrorTimeUtcKey || key == LastRunOutputKey
  }

  /** Neither writer touches any other key. */
  lemma OtherKeysUnchanged(m: map<string, Value>, errorMessage: Option<string>, outputObject: Value, now: Timestamp, key: string)
    requires !IsMarkerKey(key)
    ensures key in AfterFailed(m, errorMessage, outputObject, now) <==> key in m
    ensures key in AfterSuccessful(m, outputObject) <==> key in m
    ensures key in m ==> AfterFailed(m, errorMessage, outputObject, now)[key] == m[key]
                         && AfterSuccessful(m, outputObject)[key] == m[key]
  {
  }

  /** Writing a failure and reading it back through the endpoint: failed, at
      `now`; a non-empty message replaces the old one but is shown only when
      it is not white space; an empty or null message leaves the old reading,
      including the exception an earlier stored null causes; the output
      replaces the old one only when non-null. The message clause is stated
      both for the read as written and for the corrected one. */
  lemma FailedRoundTrip(m: map<string, Value>, errorMessage: Option<string>, outputObject: Value, now: Timestamp)
    ensures var after := AfterFailed(m, errorMessage, outputObject, now);
            && LastRunSuccessfulOf(after) == Some(false)
            && LastErrorTimeOf(after) == Some(now)
            && LastErrorMessageOf(after) == (if IsNullOrEmpty(errorMessage) then LastErrorMessageOf(m)
                                             else if IsNullOrWhiteSpace(errorMessage) then None
                                             else errorMessage)
            && LastErrorMessageAsWritten(after) == (if IsNullOrEmpty(errorMessage) then LastErrorMessageAsWritten(m)
                                                    else if IsNullOrWhiteSpace(errorMessage) then Success(None)
                                                    else Success(errorMessage))
            && LastRunOutputOf(after) == (if outputObject == Null then LastRunOutputOf(m) else outputObject)
  {
    var after := AfterFailed(m, errorMessage, outputObject, now);
    if IsNullOrEmpty(errorMessage) {
      assert LastErrorMessageKey in after <==> LastErrorMessageKey in m;
      assert LastErrorMessageKey in m ==> after[LastErrorMessageKey] == m[LastErrorMessageKey];
    } else {
      assert after[LastErrorMessageKey] == Str(errorMessage.value);
    }
  }

  /** Writing a success and reading it back: successful; the error message and
      time of an earlier failure are still there (so is the exception an
      earlier stored null causes); the output as for a failure. */
  lemma SuccessfulRoundTrip(m: map<string, Value>, outputObject: Value)
    ensures var after := AfterSuccessful(m, outputObject);
            && LastRunSuccessfulOf(after) == Some(true)
            && LastErrorTimeOf(after) == LastErrorTimeOf(m)
            && LastErrorMessageOf(after) == LastErrorMessageOf(m)
            && LastErrorMessageAsWritten(after) == LastErrorMessageAsWritten(m)
            && LastRunOutputOf(after) == (if outputObject == Null then LastRunOutputOf(m) else outputObject)
  {
    var after := AfterSuccessful(m, outputObject);
    assert LastErrorMessageKey in after <==> LastErrorMessageKey in m;
    assert LastErrorMessageKey in m ==> after[LastErrorMessageKey] == m[LastErrorMessageKey];
    assert LastErrorTimeUtcKey in after <==> LastErrorTimeUtcKey in m;
    assert LastErrorTimeUtcKey in m ==> after[LastErrorTimeUtcKey] == m[LastErrorTimeUtcKey];
  }

  /** Neither writer stores a null message: after either one, a null under
      `lastErrorMessage` is one that was already there. */
  lemma WritersStoreNoNullMessage(m: map<string, Value>, errorMessage: Option<string>, outputObject: Value, now: Timestamp)
    ensures var after := AfterFailed(m, errorMessage, outputObject, now);
            LastErrorMessageKey in after && after[LastErrorMessageKey] == Null
            ==> LastErrorMessageKey in m && m[LastErrorMessageKey] == Null
    ensures var after := AfterSuccessful(m, outputObject);
            LastErrorMessageKey in after && after[LastErrorMessageKey] == Null
            ==> LastErrorMessageKey in m && m[LastErrorMessageKey] == Null
  {
  }

  /** A failure followed by a success still shows the failure's message. */
  lemma StaleErrorSurvivesSuccess(m: map<string, Value>, errorMessage: string, now: Timestamp)
    requires !IsNullOrWhiteSpace(Some(errorMessage))
    ensures var after := AfterSuccessful(AfterFailed(m, Some(errorMessage), Null, now), Null);
            && LastRunSuccessfulOf(after) == Some(true)
            && LastErrorMessageOf(after) == Some(errorMessage)
            && LastErrorMessageAsWritten(after) == Success(Some(errorMessage))
  {
    EmptyIsWhiteSpace(Some(errorMessage));
    FailedRoundTrip(m, Some(errorMessage), Null, now);
    SuccessfulRoundTrip(AfterFailed(m, Some(errorMessage), Null, now), Null);
  }

  /** A job that calls `MarkJobFailed("error")` on a fresh map is listed as
      failed with message "error"; one that calls `MarkJobSuccessful("stringOutput")`
      is listed as successful with no message. */
  method JobRunScenario(now: Timestamp) returns (failed: Option<bool>, failedMessage: Option<string>,
                                                  succeeded: Option<bool>, succeededMessage: Option<string>)
    ensures failed == Some(false) && failedMessage == Some("error")
    ensures succeeded == Some(true) && succeededMessage.None?
  {
    var failingMap := new JobDataMap(map[]);
    failingMap.MarkJobFailedWithMessage(Some("error"), now);
    var successfulMap := new JobDataMap(map[]);
    successfulMap.MarkJobSuccessfulWithOutput(Str("stringOutput"));
    var trigger := TriggerSnapshot("trigger", "group1", None, None, None, now, None);
    var failingJob := JobSnapshot("failedJob", "group1", Some(JobDetail(None, false, true, None, failingMap.entries)), [trigger]);
    var successfulJob := JobSnapshot("successfulJob", "group1", Some(JobDetail(None, false, true, None, successfulMap.entries)), [trigger]);
    var failedEntry := BuildJob(failingJob, failingJob.detail.value);
    var successfulEntry := BuildJob(successfulJob, successfulJob.detail.value);
    var message := "error";
    assert !IsWhiteSpace(message[0]);
    assert !IsNullOrWhiteSpace(Some(message)) && !IsNullOrEmpty(Some(message));
    FailedRoundTrip(map[], Some(message), Null, now);
    SuccessfulRoundTrip(map[], Str("stringOutput"));
    ErrorMessageReadingsAgree(failingJob.detail.value.jobDataMap);
    ErrorMessageReadingsAgree(successfulJob.detail.value.jobDataMap);
    failed, failedMessage := failedEntry.value.lastRunSuccessful, failedEntry.value.lastRunErrorMessage;
    succeeded, succeededMessage := successfulEntry.value.lastRunSuccessful, successfulEntry.value.lastRunErrorMessage;
  }

}
