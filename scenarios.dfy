/**
 * Runs of the dashboard over several handler calls: its documented
 * behaviour for sequences of outcomes.
 */
module Scenarios {
  import opened Wrappers
  import opened Entities
  import opened Jobs
  import opened Calls
  import opened DashboardState

  /** An ok response whose body decoded to `value`. */
  function Ok<T>(value: T): (f: Fetch<T>)
    ensures f.Responded? && IsOk(f.status) && f.body == Parsed(value)
  {
    Responded(200, "OK", Parsed(value))
  }

  /**
   * A failing health check followed by a successful one: the dashboard
   * shows the second snapshot, and the log holds the one entry the failure
   * recorded.
   */
  method HealthToggle(failure: Fetch<HealthStatus>, snapshot: HealthStatus, id1: string, id2: string, now: string)
    returns (shown: Option<HealthStatus>, log: seq<ErrorLog>, loading: bool)
    requires HealthCheck(failure).Failure?
    ensures shown == Some(snapshot) && !loading
    ensures log == [ErrorLog(id1, "Health check failed: " + HealthCheck(failure).error, now, None)]
  {
    var d := new Dashboard();
    d.FetchHealth(failure, id1, now);
    d.FetchHealth(Ok(snapshot), id2, now);
    shown, log, loading := d.health, d.errors, d.healthLoading;
  }

  /**
   * Creating three jobs lists them newest first; a status reply for the
   * second one changes that entry alone.
   */
  method JobListIdentity(j1: CreateReply, j2: CreateReply, j3: CreateReply, reply: StatusReply, input: string, now: string, trace: string)
    returns (created: seq<ExportJob>, polled: seq<ExportJob>)
    requires j1.jobId != j2.jobId && j2.jobId != j3.jobId && j1.jobId != j3.jobId
    ensures Ids(created) == [j3.jobId, j2.jobId, j1.jobId]
    ensures |polled| == 3
    ensures polled[0] == created[0] && polled[2] == created[2]
    ensures polled[1] == Merged(created[1], reply)
  {
    var d := new Dashboard();
    d.SetFileIds(input);
    var _, _ := d.CreateExportJob(Ok(j1), "e1", now, trace);
    var _, _ := d.CreateExportJob(Ok(j2), "e2", now, trace);
    var _, _ := d.CreateExportJob(Ok(j3), "e3", now, trace);
    created := d.jobs;
    assert created == [NewJob(j3, now), NewJob(j2, now), NewJob(j1, now)];
    var _ := d.PollOnce(j2.jobId, Ok(reply));
    polled := d.jobs;
  }

  /**
   * Replies pending, running, completed: exactly three polls, whatever the
   * service would have answered afterwards.
   */
  lemma TerminalStop(jobs: seq<ExportJob>, jobId: string, p1: StatusReply, p2: StatusReply, p3: StatusReply, later: seq<Fetch<StatusReply>>)
    requires p1.status == "pending" && p2.status == "running" && p3.status == "completed"
    ensures RunPolls(jobs, jobId, [Ok(p1), Ok(p2), Ok(p3)] + later).polls == 3
  {
    var replies := [Ok(p1), Ok(p2), Ok(p3)] + later;
    assert Continues(replies[0]) && Continues(replies[1]) && !Continues(replies[2]);
    PollsUpToFirstStop(jobs, jobId, replies, 2);
  }

  /**
   * A server error on the second poll ends polling after two polls, and the
   * job keeps what the first reply set.
   */
  lemma DropOnServerError(jobs: seq<ExportJob>, jobId: string, p1: StatusReply, text: string, body: Body<StatusReply>, later: seq<Fetch<StatusReply>>)
    requires !IsTerminal(p1.status)
    ensures RunPolls(jobs, jobId, [Ok(p1), Responded(500, text, body)] + later) ==
            PollRun(MergeStatus(jobs, jobId, p1), 2)
  {
    var replies := [Ok(p1), Responded(500, text, body)] + later;
    assert replies[1..] == [Responded(500, text, body)] + later;
    assert replies[1..][1..] == later;
  }

  /** The same run on a dashboard: no error is logged and no job is added. */
  method DropPolicy(d: Dashboard, jobId: string, p1: StatusReply, text: string, body: Body<StatusReply>, later: seq<Fetch<StatusReply>>)
    returns (polls: nat)
    requires !IsTerminal(p1.status)
    modifies d`jobs
    ensures polls == 2
    ensures d.errors == old(d.errors) && d.jobs == MergeStatus(old(d.jobs), jobId, p1)
  {
    DropOnServerError(d.jobs, jobId, p1, text, body, later);
    polls := d.PollJobStatus(jobId, [Ok(p1), Responded(500, text, body)] + later);
  }
}
