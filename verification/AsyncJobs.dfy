/**
 The store of asynchronous query jobs (internal/mcp/asyncquery.go). Every operation runs under one lock, so a
 run is an interleaving of whole submissions, completions, cancellations and polls. Times are nanoseconds.
 */
module AsyncJobs {
  import opened Basics

  const SECOND: nat := 1_000_000_000
  const JOB_RESULT_TTL: nat := 600 * SECOND
  const MAX_PER_USER: nat := 5
  const MAX_TOTAL: nat := 200

  datatype Status = Running | Done | Failed

  /** What a poll sees of a job. */
  datatype View = View(user: string, status: Status, finishedAt: Option<int>, outcome: string, cancelRequested: bool)

  type Jobs = map<string, View>

  // ---------------------------------------------------------------- the store as a value

  predicate PastTtl(v: View, now: int) {
    v.finishedAt.Some? && now - v.finishedAt.value > JOB_RESULT_TTL
  }

  function Pruned(js: Jobs, now: int): Jobs {
    map id | id in js && !PastTtl(js[id], now) :: js[id]
  }

  function RunningIds(js: Jobs, user: string): set<string> {
    set id | id in js && js[id].status == Running && js[id].user == user
  }

  datatype Refusal = StoreFull | UserLimit

  function SubmitRefusal(js: Jobs, user: string, now: int): Option<Refusal> {
    if |Pruned(js, now)| >= MAX_TOTAL then Some(StoreFull)
    else if |RunningIds(Pruned(js, now), user)| >= MAX_PER_USER then Some(UserLimit)
    else None
  }

  function Submitted(js: Jobs, id: string, user: string, now: int): Jobs {
    if SubmitRefusal(js, user, now).Some? then Pruned(js, now)
    else Pruned(js, now)[id := View(user, Running, None, "", false)]
  }

  function Completed(js: Jobs, id: string, failed: bool, outcome: string, now: int): Jobs
    requires id in js
  {
    js[id := js[id].(status := if failed then Failed else Done, finishedAt := Some(now), outcome := outcome)]
  }

  predicate MayCancel(js: Jobs, id: string, user: string, isAdmin: bool) {
    id in js && (isAdmin || js[id].user == user)
  }

  function Cancelled(js: Jobs, id: string, user: string, isAdmin: bool): Jobs {
    if MayCancel(js, id, user, isAdmin) && js[id].status == Running
    then js[id := js[id].(cancelRequested := true)] else js
  }

  // ---------------------------------------------------------------- the store in memory

  class AsyncJob {
    const id: string
    const user: string
    const startedAt: int
    var status: Status
    var finishedAt: Option<int>
    var outcome: string
    var cancelRequested: bool

    constructor (id: string, user: string, now: int)
      ensures this.id == id && this.user == user && startedAt == now
      ensures Snapshot() == View(user, Running, None, "", false)
    {
      this.id, this.user, startedAt := id, user, now;
      status, finishedAt, outcome, cancelRequested := Running, None, "", false;
    }

    function Snapshot(): View
      reads this
    {
      View(user, status, finishedAt, outcome, cancelRequested)
    }
  }

  class JobStore {
    var jobs: map<string, AsyncJob>

    constructor ()
      ensures Valid() && Contents() == map[]
    {
      jobs := map[];
    }

    /** Jobs are filed under their own ids. */
    predicate Valid()
      reads this, jobs.Values
    {
      forall id :: id in jobs ==> jobs[id].id == id
    }

    ghost function Contents(): Jobs
      reads this, jobs.Values
    {
      map id | id in jobs :: jobs[id].Snapshot()
    }

    method Prune(now: int)
      requires Valid()
      modifies this
      ensures Valid() && Contents() == Pruned(old(Contents()), now)
      ensures jobs.Keys <= old(jobs).Keys && forall id :: id in jobs ==> jobs[id] == old(jobs)[id]
    {
      var todo := jobs.Keys;
      while todo != {}
        invariant todo <= jobs.Keys <= old(jobs).Keys
        invariant forall id :: id in jobs ==> jobs[id] == old(jobs)[id]
        invariant forall id :: id in old(jobs) && id !in todo ==>
                    (id in jobs <==> !PastTtl(old(jobs)[id].Snapshot(), now))
        decreases todo
      {
        var id :| id in todo;
        todo := todo - {id};
        var j := jobs[id];
        if j.finishedAt.Some? && now - j.finishedAt.value > JOB_RESULT_TTL {
          jobs := jobs - {id};
        }
      }
    }

    method RunningFor(user: string) returns (n: nat)
      requires Valid()
      ensures n == |RunningIds(Contents(), user)|
    {
      n := 0;
      var todo := jobs.Keys;
      ghost var counted: set<string> := {};
      while todo != {}
        invariant todo <= jobs.Keys && counted !! todo && n == |counted|
        invariant forall id :: id in counted <==> id in RunningIds(Contents(), user) && id !in todo
        decreases todo
      {
        var id :| id in todo;
        todo := todo - {id};
        if jobs[id].status == Running && jobs[id].user == user {
          n := n + 1;
          counted := counted + {id};
        }
      }
      assert counted == RunningIds(Contents(), user);
    }

    /** submitAsyncQuery up to the launch; `id` is the fresh random id. */
    method Submit(id: string, user: string, now: int) returns (job: AsyncJob?, refusal: Option<Refusal>)
      requires Valid() && id !in jobs
      modifies this
      ensures Valid() && Contents() == Submitted(old(Contents()), id, user, now)
      ensures refusal == SubmitRefusal(old(Contents()), user, now)
      ensures job == null <==> refusal.Some?
      ensures job != null ==> fresh(job) && id in jobs && jobs[id] == job
    {
      Prune(now);
      SameSize(jobs, Contents());
      if |jobs| >= MAX_TOTAL {
        return null, Some(StoreFull);
      }
      var running := RunningFor(user);
      if running >= MAX_PER_USER {
        return null, Some(UserLimit);
      }
      job := Launch(id, user, now);
      refusal := None;
    }

    method Launch(id: string, user: string, now: int) returns (job: AsyncJob)
      requires Valid() && id !in jobs
      modifies this
      ensures Valid() && Contents() == old(Contents())[id := View(user, Running, None, "", false)]
      ensures fresh(job) && id in jobs && jobs[id] == job
    {
      job := new AsyncJob(id, user, now);
      jobs := jobs[id := job];
    }

    /** The completion step of the background query. */
    method Complete(job: AsyncJob, failed: bool, outcome: string, now: int)
      requires Valid() && job.id in jobs && jobs[job.id] == job && job.status == Running
      modifies job
      ensures Valid() && Contents() == Completed(old(Contents()), job.id, failed, outcome, now)
    {
      ghost var before := Contents();
      job.finishedAt := Some(now);
      job.status := if failed then Failed else Done;
      job.outcome := outcome;
      forall other | other in jobs && other != job.id ensures Contents()[other] == before[other] {
        assert jobs[other] != job;
      }
      CompletedOnly(before, Contents(), job.id, failed, outcome, now);
    }

    method CancelJob(id: string, user: string, isAdmin: bool) returns (ok: bool)
      requires Valid()
      modifies jobs.Values
      ensures Valid() && jobs == old(jobs)
      ensures ok == MayCancel(old(Contents()), id, user, isAdmin)
      ensures Contents() == Cancelled(old(Contents()), id, user, isAdmin)
    {
      if id !in jobs {
        return false;
      }
      var j := jobs[id];
      if !isAdmin && j.user != user {
        return false;
      }
      if j.status == Running {
        j.cancelRequested := true;
      }
      return true;
    }

    method Poll(id: string) returns (view: Option<View>)
      requires Valid()
      ensures view == if id in Contents() then Some(Contents()[id]) else None
    {
      if id !in jobs {
        return None;
      }
      return Some(jobs[id].Snapshot());
    }
  }

  /** Replacing one job's view, all others as before, is completing it. */
  lemma {:induction false} CompletedOnly(js: Jobs, js': Jobs, id: string, failed: bool, outcome: string, now: int)
    requires id in js && js'.Keys == js.Keys
    requires js'[id] == Completed(js, id, failed, outcome, now)[id]
    requires forall other :: other in js && other != id ==> js'[other] == js[other]
    ensures js' == Completed(js, id, failed, outcome, now)
  {
  }

  lemma {:induction false} SameSize<V>(a: map<string, V>, b: Jobs)
    requires a.Keys == b.Keys
    ensures |a| == |b|
  {
    assert |a| == |a.Keys| && |b| == |b.Keys|;
  }

  // ---------------------------------------------------------------- all interleavings

  datatype Step =
    | SubmitStep(id: string, user: string, now: int)
    | CompleteStep(id: string, failed: bool, outcome: string, now: int)
    | CancelStep(id: string, user: string, isAdmin: bool, now: int)
    | PollStep(id: string, now: int)

  /** Ids are fresh, and each background query completes once. */
  predicate Enabled(js: Jobs, s: Step) {
    match s
    case SubmitStep(id, _, _) => id !in js
    case CompleteStep(id, _, _, _) => id in js && js[id].status == Running
    case _ => true
  }

  function Next(js: Jobs, s: Step): Jobs {
    match s
    case SubmitStep(id, user, now) => Submitted(js, id, user, now)
    case CompleteStep(id, failed, outcome, now) => if id in js then Completed(js, id, failed, outcome, now) else js
    case CancelStep(id, user, isAdmin, _) => Cancelled(js, id, user, isAdmin)
    case PollStep(_, _) => js
  }

  function After(run: seq<Step>): Jobs {
    if run == [] then map[] else Next(After(run[..|run| - 1]), run[|run| - 1])
  }

  predicate IsRun(run: seq<Step>) {
    forall i :: 0 <= i < |run| ==> Enabled(After(run[..i]), run[i])
  }

  predicate WithinLimit(js: Jobs, user: string) {
    |RunningIds(js, user)| <= MAX_PER_USER
  }

  predicate StatusOk(js: Jobs) {
    forall id :: id in js ==> (js[id].status == Running <==> js[id].finishedAt.None?)
  }

  /** The bounds, and that a job is running exactly while it has no finishing time. */
  ghost predicate StoreOk(js: Jobs) {
    |js| <= MAX_TOTAL && StatusOk(js) && forall user :: WithinLimit(js, user)
  }

  /** Pruning removes no running job. */
  lemma {:induction false} PruneKeepsRunning(js: Jobs, now: int, user: string)
    requires StatusOk(js)
    ensures RunningIds(Pruned(js, now), user) == RunningIds(js, user)
  {
  }

  lemma {:induction false} PruneKeepsOk(js: Jobs, now: int)
    requires StoreOk(js)
    ensures StoreOk(Pruned(js, now))
  {
    SubsetSize(Pruned(js, now).Keys, js.Keys);
    forall user ensures WithinLimit(Pruned(js, now), user) {
      PruneKeepsRunning(js, now, user);
      assert WithinLimit(js, user);
    }
  }

  lemma {:induction false} LaunchKeepsOk(js: Jobs, id: string, user: string)
    requires StoreOk(js) && id !in js && |js| < MAX_TOTAL && |RunningIds(js, user)| < MAX_PER_USER
    ensures StoreOk(js[id := View(user, Running, None, "", false)])
  {
    var js' := js[id := View(user, Running, None, "", false)];
    assert js'.Keys == js.Keys + {id};
    forall u ensures WithinLimit(js', u) {
      assert WithinLimit(js, u);
      RunningAfterLaunch(js, id, user, u);
    }
  }

  lemma {:induction false} RunningAfterLaunch(js: Jobs, id: string, user: string, u: string)
    requires id !in js
    ensures |RunningIds(js[id := View(user, Running, None, "", false)], u)| ==
            |RunningIds(js, u)| + if u == user then 1 else 0
  {
    var js' := js[id := View(user, Running, None, "", false)];
    if u == user {
      assert RunningIds(js', u) == RunningIds(js, u) + {id};
    } else {
      assert RunningIds(js', u) == RunningIds(js, u);
    }
  }

  lemma {:induction false} SubmitKeepsOk(js: Jobs, id: string, user: string, now: int)
    requires StoreOk(js) && id !in js
    ensures StoreOk(Submitted(js, id, user, now))
  {
    PruneKeepsOk(js, now);
    if SubmitRefusal(js, user, now).None? {
      LaunchKeepsOk(Pruned(js, now), id, user);
    }
  }

  lemma {:induction false} CompleteKeepsOk(js: Jobs, id: string, failed: bool, outcome: string, now: int)
    requires StoreOk(js) && id in js
    ensures StoreOk(Completed(js, id, failed, outcome, now))
  {
    var js' := Completed(js, id, failed, outcome, now);
    assert js'.Keys == js.Keys;
    forall u ensures WithinLimit(js', u) {
      assert WithinLimit(js, u);
      SubsetSize(RunningIds(js', u), RunningIds(js, u));
    }
  }

  lemma {:induction false} CancelKeepsOk(js: Jobs, id: string, user: string, isAdmin: bool)
    requires StoreOk(js)
    ensures StoreOk(Cancelled(js, id, user, isAdmin))
  {
    var js' := Cancelled(js, id, user, isAdmin);
    assert js'.Keys == js.Keys;
    forall u ensures WithinLimit(js', u) {
      assert WithinLimit(js, u);
      assert RunningIds(js', u) == RunningIds(js, u);
    }
  }

  lemma {:induction false} RunPrefix(run: seq<Step>)
    requires run != [] && IsRun(run)
    ensures IsRun(run[..|run| - 1]) && Enabled(After(run[..|run| - 1]), run[|run| - 1])
  {
    var before := run[..|run| - 1];
    forall i | 0 <= i < |before| ensures Enabled(After(before[..i]), before[i]) {
      assert before[..i] == run[..i];
    }
  }

  /** At most 200 jobs, at most 5 running per user, running exactly when unfinished, in every reachable store. */
  lemma {:induction false} StoreStaysOk(run: seq<Step>)
    requires IsRun(run)
    ensures StoreOk(After(run))
  {
    if run != [] {
      var before, s := run[..|run| - 1], run[|run| - 1];
      RunPrefix(run);
      StoreStaysOk(before);
      match s
      case SubmitStep(id, user, now) => SubmitKeepsOk(After(before), id, user, now);
      case CompleteStep(id, failed, outcome, now) => CompleteKeepsOk(After(before), id, failed, outcome, now);
      case CancelStep(id, user, isAdmin, _) => CancelKeepsOk(After(before), id, user, isAdmin);
      case PollStep(_, _) =>
    }
  }

  lemma {:induction false} RunningJobStays(js: Jobs, s: Step, id: string)
    requires StoreOk(js) && Enabled(js, s) && id in js && js[id].status == Running
    requires !(s.CompleteStep? && s.id == id)
    ensures id in Next(js, s) && Next(js, s)[id].status == Running && Next(js, s)[id].user == js[id].user
  {
  }

  /** A running job is never pruned: it stays, running, until its own completion. */
  lemma {:induction false} RunningUntilCompleted(run: seq<Step>, i: nat, id: string)
    requires IsRun(run) && i <= |run|
    requires id in After(run[..i]) && After(run[..i])[id].status == Running
    requires forall k :: i <= k < |run| ==> !(run[k].CompleteStep? && run[k].id == id)
    ensures id in After(run) && After(run)[id].status == Running && After(run)[id].user == After(run[..i])[id].user
    decreases |run|
  {
    if i == |run| {
      assert run[..i] == run;
    } else {
      var before := run[..|run| - 1];
      RunPrefix(run);
      assert before[..i] == run[..i];
      RunningUntilCompleted(before, i, id);
      StoreStaysOk(before);
      RunningJobStays(After(before), run[|run| - 1], id);
    }
  }

  lemma {:induction false} FinishedJobStays(js: Jobs, s: Step, id: string, finished: int)
    requires StoreOk(js) && Enabled(js, s) && id in js && js[id].finishedAt == Some(finished)
    requires s.now <= finished + JOB_RESULT_TTL
    ensures id in Next(js, s) && Next(js, s)[id] == js[id]
  {
  }

  /** A finished result is unchanged for at least its lifetime, whatever steps come in between. */
  lemma {:induction false} ResultSurvives(run: seq<Step>, i: nat, id: string, finished: int)
    requires IsRun(run) && i <= |run|
    requires id in After(run[..i]) && After(run[..i])[id].finishedAt == Some(finished)
    requires forall k :: i <= k < |run| ==> run[k].now <= finished + JOB_RESULT_TTL
    ensures id in After(run) && After(run)[id] == After(run[..i])[id]
    decreases |run|
  {
    if i == |run| {
      assert run[..i] == run;
    } else {
      var before, s := run[..|run| - 1], run[|run| - 1];
      RunPrefix(run);
      assert before[..i] == run[..i];
      ResultSurvives(before, i, id, finished);
      StoreStaysOk(before);
      FinishedJobStays(After(before), s, id, finished);
    }
  }
}
