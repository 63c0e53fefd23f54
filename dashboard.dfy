/**
 * The dashboard component's state (its `useState` cells) and the handlers
 * that change it. Each `fetch` outcome, generated id, timestamp and trace id
 * is a parameter; each handler runs as one atomic step.
 */
module DashboardState {
  import opened Wrappers
  import opened Entities
  import opened ErrorLogs
  import opened Jobs
  import opened Calls

  class Dashboard {
    var health: Option<HealthStatus>
    var healthLoading: bool
    var jobs: seq<ExportJob>
    var errors: seq<ErrorLog>
    var isCreatingJob: bool
    var fileIds: string

    /** The error log never holds more than `MaxErrors` entries. */
    ghost predicate Valid()
      reads this
    {
      |errors| <= MaxErrors
    }

    /** The state of a freshly mounted dashboard. */
    constructor ()
      ensures Valid()
      ensures health == None && !healthLoading && !isCreatingJob
      ensures jobs == [] && errors == []
      ensures fileIds == DefaultFileIds
    {
      health := None;
      healthLoading := false;
      jobs := [];
      errors := [];
      isCreatingJob := false;
      fileIds := DefaultFileIds;
    }

    /** `addError`: prepend a new entry and keep the ten most recent. */
    method AddError(message: string, traceId: Option<string>, id: string, timestamp: string)
      modifies this`errors
      ensures Valid()
      ensures errors == Record(old(errors), ErrorLog(id, message, timestamp, traceId))
    {
      var entry := ErrorLog(id, message, timestamp, traceId);
      errors := Record(errors, entry);
    }

    /** The file-id field's `onChange`. */
    method SetFileIds(text: string)
      modifies this`fileIds
      ensures fileIds == text
    {
      fileIds := text;
    }

    /**
     * `fetchHealth`: on success the snapshot is replaced and nothing is
     * logged; on any failure the snapshot is cleared and one entry without a
     * trace id is logged. The loading flag is off again on every path.
     */
    method FetchHealth(f: Fetch<HealthStatus>, errorId: string, now: string)
      requires Valid()
      modifies this`health, this`healthLoading, this`errors
      ensures Valid() && !healthLoading
      ensures HealthCheck(f).Success? ==>
                health == Some(HealthCheck(f).value) && errors == old(errors)
      ensures HealthCheck(f).Failure? ==>
                health == None &&
                errors == Record(old(errors), ErrorLog(errorId, "Health check failed: " + HealthCheck(f).error, now, None))
    {
      healthLoading := true;
      match HealthCheck(f) {
        case Success(data) =>
          health := Some(data);
        case Failure(message) =>
          AddError("Health check failed: " + message, None, errorId, now);
          health := None;
      }
      healthLoading := false;
    }

    /**
     * `createExportJob`: parses the file-id field into the request body; on
     * success prepends the new job and names the job to poll; on failure
     * leaves the jobs alone and logs one entry with the operation's trace id.
     * The busy flag is off again on every path.
     */
    method CreateExportJob(f: Fetch<CreateReply>, errorId: string, now: string, traceId: string)
      returns (request: CreateRequest, pollFor: Option<string>)
      requires Valid()
      modifies this`jobs, this`errors, this`isCreatingJob
      ensures Valid() && !isCreatingJob
      ensures request == CreateRequest(ParseFileIds(fileIds), UserId)
      ensures CreateCall(f).Success? ==>
                jobs == [NewJob(CreateCall(f).value, now)] + old(jobs) &&
                errors == old(errors) &&
                pollFor == Some(CreateCall(f).value.jobId)
      ensures CreateCall(f).Failure? ==>
                jobs == old(jobs) && pollFor == None &&
                errors == Record(old(errors), ErrorLog(errorId, "Create job failed: " + CreateCall(f).error, now, Some(traceId)))
    {
      isCreatingJob := true;
      request := CreateRequest(ParseFileIds(fileIds), UserId);
      match CreateCall(f) {
        case Success(data) =>
          var job := NewJob(data, now);
          jobs := [job] + jobs;
          pollFor := Some(data.jobId);
        case Failure(message) =>
          AddError("Create job failed: " + message, Some(traceId), errorId, now);
          pollFor := None;
      }
      isCreatingJob := false;
    }

    /**
     * One run of `poll` for `jobId`: a failed or undecodable fetch changes
     * nothing and stops; otherwise the reply is merged and polling goes on
     * unless the status is terminal. The error log is never touched.
     */
    method PollOnce(jobId: string, f: Fetch<StatusReply>) returns (again: bool)
      modifies this`jobs
      ensures jobs == Poll(old(jobs), jobId, f).jobs
      ensures again == Poll(old(jobs), jobId, f).again
    {
      var step := Poll(jobs, jobId, f);
      jobs, again := step.jobs, step.again;
    }

    /**
     * `pollJobStatus`: poll once, then again after every poll that asks for
     * it, taking the replies in order; returns the number of polls issued.
     */
    method PollJobStatus(jobId: string, replies: seq<Fetch<StatusReply>>) returns (polls: nat)
      modifies this`jobs
      ensures polls == RunPolls(old(jobs), jobId, replies).polls
      ensures jobs == RunPolls(old(jobs), jobId, replies).jobs
    {
      polls := 0;
      var again := replies != [];
      while again
        invariant polls <= |replies|
        invariant again ==> polls < |replies|
        invariant again ==> RunPolls(old(jobs), jobId, replies) ==
                            PollRun(RunPolls(jobs, jobId, replies[polls..]).jobs,
                                    polls + RunPolls(jobs, jobId, replies[polls..]).polls)
        invariant !again ==> RunPolls(old(jobs), jobId, replies) == PollRun(jobs, polls)
        decreases |replies| - polls, again
      {
        var next := PollOnce(jobId, replies[polls]);
        assert replies[polls..][1..] == replies[polls + 1..];
        polls := polls + 1;
        again := next && polls < |replies|;
        if next && polls == |replies| {
          assert replies[polls..] == [];
        }
      }
    }

    /**
     * `triggerSentryTest`: sends the fixed test file id; whatever the
     * outcome, exactly one entry is logged, and it carries the operation's
     * trace id.
     */
    method TriggerSentryTest(f: Fetch<CheckReply>, errorId: string, now: string, traceId: string)
      returns (fileId: int)
      requires Valid()
      modifies this`errors
      ensures Valid()
      ensures fileId == SentryTestFileId
      ensures errors == Record(old(errors), ErrorLog(errorId, CheckMessage(f), now, Some(traceId)))
    {
      fileId := SentryTestFileId;
      AddError(CheckMessage(f), Some(traceId), errorId, now);
    }
  }
}
