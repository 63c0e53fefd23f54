/**
 * The job list: new jobs are prepended; a status reply is merged, in place,
 * into the entry with the polled `jobId`; and the rule that decides whether
 * polling continues after a reply.
 */
module Jobs {
  import opened Wrappers
  import opened Entities

  /** The entry `createExportJob` adds for a successful create reply. */
  function NewJob(reply: CreateReply, createdAt: string): (job: ExportJob)
    ensures job.jobId == reply.jobId && job.status == reply.status
    ensures job.progress == None && job.result == None && job.error == None
    ensures job.createdAt == Some(createdAt)
  {
    ExportJob(reply.jobId, reply.status, None, None, None, Some(createdAt))
  }

  /** The ids of a job list, in order. */
  function Ids(jobs: seq<ExportJob>): (ids: seq<string>)
    ensures |ids| == |jobs|
    ensures forall i :: 0 <= i < |jobs| ==> ids[i] == jobs[i].jobId
  {
    if jobs == [] then [] else [jobs[0].jobId] + Ids(jobs[1..])
  }

  /** `{...job, status, progress, result, error}` taken from a status reply. */
  function Merged(job: ExportJob, reply: StatusReply): (r: ExportJob)
    ensures r.jobId == job.jobId && r.createdAt == job.createdAt
    ensures r.status == reply.status && r.progress == reply.progress
    ensures r.result == reply.result && r.error == reply.error
  {
    job.(status := reply.status, progress := reply.progress, result := reply.result, error := reply.error)
  }

  /**
   * `prev.map(job => job.jobId === jobId ? {...} : job)`: same length and
   * order; entries with the polled id take the reply's fields, every other
   * entry is unchanged.
   */
  function MergeStatus(jobs: seq<ExportJob>, jobId: string, reply: StatusReply): (r: seq<ExportJob>)
    ensures |r| == |jobs|
    ensures forall i :: 0 <= i < |jobs| && jobs[i].jobId != jobId ==> r[i] == jobs[i]
    ensures forall i :: 0 <= i < |jobs| && jobs[i].jobId == jobId ==> r[i] == Merged(jobs[i], reply)
  {
    if jobs == [] then []
    else
      [if jobs[0].jobId == jobId then Merged(jobs[0], reply) else jobs[0]]
      + MergeStatus(jobs[1..], jobId, reply)
  }

  /** If no entry has the polled id, the merge leaves the list as it was. */
  lemma MergeWithoutMatch(jobs: seq<ExportJob>, jobId: string, reply: StatusReply)
    requires forall i :: 0 <= i < |jobs| ==> jobs[i].jobId != jobId
    ensures MergeStatus(jobs, jobId, reply) == jobs
  {
  }

  /** A merge never changes the ids or their order. */
  lemma MergeKeepsIds(jobs: seq<ExportJob>, jobId: string, reply: StatusReply)
    ensures Ids(MergeStatus(jobs, jobId, reply)) == Ids(jobs)
  {
  }

  /** Merging the same reply twice is the same as merging it once. */
  lemma MergeIdempotent(jobs: seq<ExportJob>, jobId: string, reply: StatusReply)
    ensures MergeStatus(MergeStatus(jobs, jobId, reply), jobId, reply) == MergeStatus(jobs, jobId, reply)
  {
  }

  /** A status after which polling stops. */
  predicate IsTerminal(status: string)
  {
    status == "completed" || status == "failed"
  }

  /** The reply a poll merges: an ok response whose body decoded; anything else stops polling silently. */
  function StatusOf(f: Fetch<StatusReply>): (r: Option<StatusReply>)
    ensures r.Some? <==> f.Responded? && IsOk(f.status) && f.body.Parsed?
    ensures r.Some? ==> r.value == f.body.value
  {
    match f
    case NetworkError(_) => None
    case Responded(status, _, body) =>
      if !IsOk(status) then None
      else match body
        case Malformed(_) => None
        case Parsed(reply) => Some(reply)
  }

  /** The job list after one poll and whether another poll is scheduled. */
  datatype PollStep = PollStep(jobs: seq<ExportJob>, again: bool)

  /** One run of `poll` for `jobId` given what its `fetch` gave. */
  function Poll(jobs: seq<ExportJob>, jobId: string, f: Fetch<StatusReply>): (r: PollStep)
    ensures r.again <==> StatusOf(f).Some? && !IsTerminal(StatusOf(f).value.status)
    ensures StatusOf(f).None? ==> r.jobs == jobs
    ensures StatusOf(f).Some? ==> r.jobs == MergeStatus(jobs, jobId, StatusOf(f).value)
  {
    match StatusOf(f)
    case None => PollStep(jobs, false)
    case Some(reply) => PollStep(MergeStatus(jobs, jobId, reply), !IsTerminal(reply.status))
  }

  /** Whether a poll that gets `f` schedules another one. */
  predicate Continues(f: Fetch<StatusReply>)
  {
    StatusOf(f).Some? && !IsTerminal(StatusOf(f).value.status)
  }

  /** The job list after polling `jobId` against `replies`, and the number of polls issued. */
  datatype PollRun = PollRun(jobs: seq<ExportJob>, polls: nat)

  /**
   * Polling driven by a sequence of replies: the first poll is always issued,
   * and each further poll only if the previous one scheduled it. If the
   * replies run out while polling would go on, the run ends there.
   */
  function RunPolls(jobs: seq<ExportJob>, jobId: string, replies: seq<Fetch<StatusReply>>): (r: PollRun)
    ensures r.polls <= |replies|
    ensures |r.jobs| == |jobs|
    decreases |replies|
  {
    if replies == [] then PollRun(jobs, 0)
    else
      var step := Poll(jobs, jobId, replies[0]);
      if step.again then
        var rest := RunPolls(step.jobs, jobId, replies[1..]);
        PollRun(rest.jobs, rest.polls + 1)
      else PollRun(step.jobs, 1)
  }

  /**
   * The number of polls is the index of the first reply that stops polling
   * (a non-ok response, a thrown error, or a terminal status), plus one.
   */
  lemma {:induction false} PollsUpToFirstStop(jobs: seq<ExportJob>, jobId: string, replies: seq<Fetch<StatusReply>>, i: nat)
    requires i < |replies| && !Continues(replies[i])
    requires forall k :: 0 <= k < i ==> Continues(replies[k])
    ensures RunPolls(jobs, jobId, replies).polls == i + 1
    decreases i
  {
    if i > 0 {
      var step := Poll(jobs, jobId, replies[0]);
      assert Continues(replies[0]);
      PollsUpToFirstStop(step.jobs, jobId, replies[1..], i - 1);
    }
  }

  /** If no reply stops polling, every reply is consumed by a poll. */
  lemma {:induction false} PollsWithoutStop(jobs: seq<ExportJob>, jobId: string, replies: seq<Fetch<StatusReply>>)
    requires forall k :: 0 <= k < |replies| ==> Continues(replies[k])
    ensures RunPolls(jobs, jobId, replies).polls == |replies|
    decreases |replies|
  {
    if replies != [] {
      var step := Poll(jobs, jobId, replies[0]);
      assert Continues(replies[0]);
      PollsWithoutStop(step.jobs, jobId, replies[1..]);
    }
  }

  /** Polling never adds, removes or reorders jobs. */
  lemma {:induction false} RunPollsKeepsIds(jobs: seq<ExportJob>, jobId: string, replies: seq<Fetch<StatusReply>>)
    ensures Ids(RunPolls(jobs, jobId, replies).jobs) == Ids(jobs)
    decreases |replies|
  {
    if replies != [] {
      var step := Poll(jobs, jobId, replies[0]);
      if StatusOf(replies[0]).Some? {
        MergeKeepsIds(jobs, jobId, StatusOf(replies[0]).value);
      }
      if step.again {
        RunPollsKeepsIds(step.jobs, jobId, replies[1..]);
      }
    }
  }
}
