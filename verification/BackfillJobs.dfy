/**
  The backfill job controller: the rows of alpr_backfill_jobs, the statements of
  internal/db/alpr_backfill_jobs.sql.go and the handlers of internal/api/alpr_backfill.go.
*/
module BackfillJobs {
  import opened Common
  import opened Decimal

  datatype JobState = Queued | Running | Paused | Done | Failed

  datatype Filters = Filters(fromDate: Option<int>, toDate: Option<int>, dongle: string, maxRoutes: int, newestFirst: bool)

  datatype Job = Job(startedAt: int, finishedAt: Option<int>, state: JobState, filters: Filters, total: Option<int>,
                     processed: nat, lastRoute: Option<string>, error: Option<string>)

  /** The table in id order. Rows are inserted at the end and never deleted, so a position is an id. */
  type Jobs = seq<Job>

  predicate Terminal(s: JobState) { s.Done? || s.Failed? }

  predicate RunningAt(jobs: Jobs, id: int) { 0 <= id < |jobs| && jobs[id].state.Running? }

  /** The partial unique index alpr_backfill_jobs_one_running. */
  predicate OneRunning(jobs: Jobs) {
    forall i, j | 0 <= i < |jobs| && 0 <= j < |jobs| :: RunningAt(jobs, i) && RunningAt(jobs, j) ==> i == j
  }

  predicate AnyRunning(jobs: Jobs) { exists i | 0 <= i < |jobs| :: RunningAt(jobs, i) }

  // ---------------------------------------------------------------- statements

  /** GetLatestBackfillJob: ORDER BY started_at DESC, id DESC LIMIT 1. */
  function Latest(jobs: Jobs): (r: Option<nat>)
    ensures jobs == [] <==> r.None?
    ensures r.Some? ==>
              r.value < |jobs| && forall i :: 0 <= i < |jobs| && i != r.value ==>
                jobs[i].startedAt < jobs[r.value].startedAt || (jobs[i].startedAt == jobs[r.value].startedAt && i < r.value)
  {
    if jobs == [] then None
    else
      var n := |jobs| - 1;
      match Latest(jobs[..n])
      case Some(id) => if jobs[n].startedAt < jobs[id].startedAt then Some(id) else Some(n)
      case None => Some(n)
  }

  function NewJob(state: JobState, filters: Filters, total: int, now: int): Job {
    Job(now, None, state, filters, Some(total), 0, None, None)
  }

  /** InsertBackfillJob; None is a unique violation. */
  function InsertJob(jobs: Jobs, job: Job): Option<Jobs> {
    if OneRunning(jobs + [job]) then Some(jobs + [job]) else None
  }

  function WithState(job: Job, state: JobState, finished: Option<int>, error: Option<string>): Job {
    job.(state := state, finishedAt := Coalesce(finished, job.finishedAt), error := Coalesce(error, job.error))
  }

  /** UpdateBackfillJobState; None is a unique violation. */
  function UpdateState(jobs: Jobs, id: nat, state: JobState, finished: Option<int>, error: Option<string>): Option<Jobs>
    requires id < |jobs|
  {
    var after := jobs[id := WithState(jobs[id], state, finished, error)];
    if OneRunning(after) then Some(after) else None
  }

  /** IncrementBackfillJobProgress. */
  function Increment(jobs: Jobs, id: nat, route: string): Jobs
    requires id < |jobs|
  {
    jobs[id := jobs[id].(processed := jobs[id].processed + 1, lastRoute := Some(route))]
  }

  // ---------------------------------------------------------------- steps

  /** What can happen to the table. SetState and Progress are the worker's writes. */
  datatype Event =
    | Start(filters: Filters, count: nat, now: int)
    | Pause
    | Resume
    | Cancel(now: int)
    | SetState(id: nat, to: JobState, error: Option<string>, now: int)
    | Progress(id: nat, route: string)

  predicate ValidRequest(f: Filters) {
    !(f.fromDate.Some? && f.toDate.Some? && f.toDate.value < f.fromDate.value) && f.maxRoutes >= 0
  }

  function TotalRoutes(f: Filters, count: int): int {
    Int32(if f.maxRoutes > 0 && count > f.maxRoutes then f.maxRoutes else count)
  }

  /** The worker stamps finished_at with a terminal state and leaves it alone otherwise. */
  function Stamp(to: JobState, now: int): Option<int> { if Terminal(to) then Some(now) else None }

  function OrUnchanged(result: Option<Jobs>, jobs: Jobs): Jobs { if result.Some? then result.value else jobs }

  /** The table after one event. */
  function Step(jobs: Jobs, e: Event): Jobs {
    match e
    case Start(f, count, now) =>
      if !ValidRequest(f) || AnyRunning(jobs) then jobs
      else OrUnchanged(InsertJob(jobs, NewJob(Running, f, TotalRoutes(f, count), now)), jobs)
    case Pause =>
      if Latest(jobs).Some? && jobs[Latest(jobs).value].state.Running?
      then OrUnchanged(UpdateState(jobs, Latest(jobs).value, Paused, None, None), jobs) else jobs
    case Resume =>
      if Latest(jobs).Some? && jobs[Latest(jobs).value].state.Paused?
      then OrUnchanged(UpdateState(jobs, Latest(jobs).value, Running, None, None), jobs) else jobs
    case Cancel(now) =>
      if Latest(jobs).Some? && !Terminal(jobs[Latest(jobs).value].state)
      then OrUnchanged(UpdateState(jobs, Latest(jobs).value, Failed, Some(now), Some("cancelled by user")), jobs) else jobs
    case SetState(id, to, error, now) =>
      if id < |jobs| then OrUnchanged(UpdateState(jobs, id, to, Stamp(to, now), error), jobs) else jobs
    case Progress(id, route) => if id < |jobs| then Increment(jobs, id, route) else jobs
  }

  /** Clocks do not run backwards between starts, and the worker sets the state of a job it has just
      seen running: to paused, or to done, or to failed with a reason. Progress may arrive in any state. */
  predicate Legal(jobs: Jobs, e: Event) {
    match e
    case Start(_, _, now) => forall i :: 0 <= i < |jobs| ==> jobs[i].startedAt <= now
    case SetState(id, to, error, _) => RunningAt(jobs, id) && (to.Paused? || Terminal(to)) && (error.Some? <==> to.Failed?)
    case _ => true
  }

  /** Start times ascend, only the newest job can be running, and a job has a finish time exactly
      when it is done or failed, and an error exactly when it failed. */
  ghost predicate Invariant(jobs: Jobs) {
    && StartsAscend(jobs)
    && (forall i :: RunningAt(jobs, i) ==> i == |jobs| - 1)
    && (forall i :: 0 <= i < |jobs| ==>
          (jobs[i].finishedAt.Some? <==> Terminal(jobs[i].state)) && (jobs[i].error.Some? <==> jobs[i].state.Failed?))
  }

  /** How a row may differ later: the request never changes, progress never falls, and the state,
      finish time and error of a superseded or finished job are final. */
  ghost predicate Frozen(before: Jobs, after: Jobs, id: nat)
    requires id < |before| <= |after|
  {
    var (b, a) := (before[id], after[id]);
    && a.startedAt == b.startedAt && a.filters == b.filters && a.total == b.total && b.processed <= a.processed
    && (Terminal(b.state) || id < |before| - 1 ==>
          a.state == b.state && a.finishedAt == b.finishedAt && a.error == b.error)
  }

  ghost predicate StartsAscend(jobs: Jobs) {
    forall i, j :: 0 <= i < j < |jobs| ==> jobs[i].startedAt <= jobs[j].startedAt
  }

  lemma {:induction false} LatestIsNewest(jobs: Jobs)
    requires StartsAscend(jobs) && jobs != []
    ensures Latest(jobs) == Some(|jobs| - 1)
  {
    if |jobs| > 1 {
      LatestIsNewest(jobs[..|jobs| - 1]);
    }
  }

  /** Leaving the running state never violates the index. */
  lemma LeavingKeepsOne(jobs: Jobs, id: nat, state: JobState, finished: Option<int>, error: Option<string>)
    requires OneRunning(jobs) && id < |jobs| && !state.Running?
    ensures UpdateState(jobs, id, state, finished, error).Some?
  {
    var after := jobs[id := WithState(jobs[id], state, finished, error)];
    assert forall i :: RunningAt(after, i) ==> RunningAt(jobs, i);
  }

  lemma UpdateNewest(jobs: Jobs, state: JobState, finished: Option<int>, error: Option<string>)
    requires Invariant(jobs) && jobs != [] && !Terminal(jobs[|jobs| - 1].state)
    requires (finished.Some? <==> Terminal(state)) && (error.Some? <==> state.Failed?)
    ensures var after := UpdateState(jobs, |jobs| - 1, state, finished, error);
            after.Some? && Invariant(after.value) && forall id :: 0 <= id < |jobs| ==> Frozen(jobs, after.value, id)
  {
    var after := jobs[|jobs| - 1 := WithState(jobs[|jobs| - 1], state, finished, error)];
    assert forall i :: RunningAt(after, i) ==> i == |jobs| - 1 || RunningAt(jobs, i);
    assert OneRunning(after);
  }

  lemma IncrementKeeps(jobs: Jobs, id: nat, route: string)
    requires Invariant(jobs) && id < |jobs|
    ensures Invariant(Increment(jobs, id, route)) && forall i :: 0 <= i < |jobs| ==> Frozen(jobs, Increment(jobs, id, route), i)
  {
    assert forall i :: RunningAt(Increment(jobs, id, route), i) ==> RunningAt(jobs, i);
  }

  lemma StartKeeps(jobs: Jobs, job: Job)
    requires Invariant(jobs) && !AnyRunning(jobs) && job.state.Running? && job.finishedAt.None? && job.error.None?
    requires forall i :: 0 <= i < |jobs| ==> jobs[i].startedAt <= job.startedAt
    ensures InsertJob(jobs, job) == Some(jobs + [job]) && Invariant(jobs + [job])
    ensures forall i :: 0 <= i < |jobs| ==> Frozen(jobs, jobs + [job], i)
  {
    assert forall i :: RunningAt(jobs + [job], i) ==> i == |jobs| || RunningAt(jobs, i);
  }

  lemma HandlerKeepsInvariant(jobs: Jobs, e: Event)
    requires Invariant(jobs) && jobs != [] && (e.Pause? || e.Resume? || e.Cancel?)
    ensures Invariant(Step(jobs, e)) && |jobs| == |Step(jobs, e)|
    ensures forall id :: 0 <= id < |jobs| ==> Frozen(jobs, Step(jobs, e), id)
  {
    LatestIsNewest(jobs);
    var newest := jobs[|jobs| - 1].state;
    if e.Pause? && newest.Running? {
      UpdateNewest(jobs, Paused, None, None);
    } else if e.Resume? && newest.Paused? {
      UpdateNewest(jobs, Running, None, None);
    } else if e.Cancel? && !Terminal(newest) {
      UpdateNewest(jobs, Failed, Some(e.now), Some("cancelled by user"));
    }
  }

  lemma StepKeepsInvariant(jobs: Jobs, e: Event)
    requires Invariant(jobs) && Legal(jobs, e)
    ensures Invariant(Step(jobs, e)) && |jobs| <= |Step(jobs, e)|
    ensures forall id :: 0 <= id < |jobs| ==> Frozen(jobs, Step(jobs, e), id)
  {
    match e
    case Start(f, count, now) =>
      if ValidRequest(f) && !AnyRunning(jobs) { StartKeeps(jobs, NewJob(Running, f, TotalRoutes(f, count), now)); }
    case SetState(id, to, error, now) => UpdateNewest(jobs, to, Stamp(to, now), error);
    case Progress(id, route) => if id < |jobs| { IncrementKeeps(jobs, id, route); }
    case _ => if jobs != [] { HandlerKeepsInvariant(jobs, e); }
  }

  /** What the worker writes, column by column. Done and failed are stamped with the time, and a
      reason or stamp that is not given leaves the one there was; progress counts the route and makes it
      the token. */
  lemma WorkerWrites(jobs: Jobs, id: nat, to: JobState, error: Option<string>, now: int, route: string)
    requires OneRunning(jobs) && id < |jobs| && !to.Running?
    ensures var (was, written, counted) := (jobs[id], Step(jobs, SetState(id, to, error, now)), Step(jobs, Progress(id, route)));
            && written == jobs[id := was.(state := to, finishedAt := if to.Done? || to.Failed? then Some(now) else was.finishedAt,
                                      error := if error.Some? then error else was.error)]
            && counted == jobs[id := was.(processed := was.processed + 1, lastRoute := Some(route))]
  {
    LeavingKeepsOne(jobs, id, to, Stamp(to, now), error);
  }

  // ---------------------------------------------------------------- runs

  function AfterRun(jobs: Jobs, events: seq<Event>): Jobs
    decreases events
  {
    if events == [] then jobs else AfterRun(Step(jobs, events[0]), events[1..])
  }

  predicate LegalRun(jobs: Jobs, events: seq<Event>)
    decreases events
  {
    events != [] ==> Legal(jobs, events[0]) && LegalRun(Step(jobs, events[0]), events[1..])
  }

  /** Every state reachable from a good one is good, and nothing that was final has changed. */
  lemma {:induction false} RunKeepsInvariant(jobs: Jobs, events: seq<Event>)
    requires Invariant(jobs) && LegalRun(jobs, events)
    ensures Invariant(AfterRun(jobs, events)) && |jobs| <= |AfterRun(jobs, events)|
    ensures forall id :: 0 <= id < |jobs| ==> Frozen(jobs, AfterRun(jobs, events), id)
    decreases events
  {
    if events != [] {
      var next := Step(jobs, events[0]);
      StepKeepsInvariant(jobs, events[0]);
      RunKeepsInvariant(next, events[1..]);
      forall id | 0 <= id < |jobs| ensures Frozen(jobs, AfterRun(jobs, events), id) {
        assert Frozen(jobs, next, id) && Frozen(next, AfterRun(next, events[1..]), id);
      }
    }
  }

  /** In every state reachable from the empty table at most one job is running and it is the one
      the handlers read: Pause and Cancel reach it, a start is refused exactly while there is one,
      and neither unique violation can occur. */
  lemma HandlersReachRunningJob(events: seq<Event>, id: nat)
    requires LegalRun([], events)
    requires RunningAt(AfterRun([], events), id)
    ensures var jobs := AfterRun([], events);
            && OneRunning(jobs) && Latest(jobs) == Some(id)
            && Step(jobs, Pause) == jobs[id := jobs[id].(state := Paused)]
            && (forall now :: Step(jobs, Cancel(now)) ==
                  jobs[id := jobs[id].(state := Failed, finishedAt := Some(now), error := Some("cancelled by user"))])
            && (forall f, count, now :: Step(jobs, Start(f, count, now)) == jobs)
  {
    var jobs := AfterRun([], events);
    RunKeepsInvariant([], events);
    LatestIsNewest(jobs);
    UpdateNewest(jobs, Paused, None, None);
    forall now ensures Step(jobs, Cancel(now)) ==
                  jobs[id := jobs[id].(state := Failed, finishedAt := Some(now), error := Some("cancelled by user"))]
    {
      UpdateNewest(jobs, Failed, Some(now), Some("cancelled by user"));
    }
  }

  /** A resume succeeds exactly when the newest job is paused: an older paused job has no running
      rival in the unique index, but no request ever reaches it again. */
  lemma ResumeReachesNewestOnly(events: seq<Event>)
    requires LegalRun([], events)
    ensures var jobs := AfterRun([], events);
            forall id :: 0 <= id < |jobs| ==>
              (RunningAt(Step(jobs, Resume), id) <==> id == |jobs| - 1 && (jobs[id].state.Running? || jobs[id].state.Paused?))
  {
    var jobs := AfterRun([], events);
    RunKeepsInvariant([], events);
    if jobs != [] {
      LatestIsNewest(jobs);
      if jobs[|jobs| - 1].state.Paused? {
        UpdateNewest(jobs, Running, None, None);
        StepKeepsInvariant(jobs, Resume);
      }
    }
  }

  // ---------------------------------------------------------------- a stale worker write

  /** The worker reads the state and writes a new one in two statements, and requests may come in
      between. Its late write keeps the invariant and the row's final fields exactly when the job is
      then unfinished and is still the newest one, or when the write changes nothing. */
  lemma StaleWriteSafeIff(jobs: Jobs, id: nat, to: JobState, error: Option<string>, now: int)
    requires Invariant(jobs) && id < |jobs| && (to.Paused? || Terminal(to)) && (error.Some? <==> to.Failed?)
    ensures var after := Step(jobs, SetState(id, to, error, now));
            && |after| == |jobs|
            && (Invariant(after) && Frozen(jobs, after, id) <==>
                if Terminal(jobs[id].state)
                then to == jobs[id].state && jobs[id].finishedAt == Some(now) && jobs[id].error == error
                else id == |jobs| - 1 || to == jobs[id].state)
  {
    var after := jobs[id := WithState(jobs[id], to, Stamp(to, now), error)];
    assert forall i :: RunningAt(after, i) ==> RunningAt(jobs, i);
    assert OneRunning(after);
    assert after[id] == WithState(jobs[id], to, Stamp(to, now), error);
  }

  /** A late pause brings a cancelled job back, and Resume then runs it. */
  lemma CancelledJobRevived(job: Job, now: int, later: int)
    requires job.state.Running?
    ensures AfterRun([job], [Cancel(now), SetState(0, Paused, None, later), Resume]) ==
            [job.(finishedAt := Some(now), error := Some("cancelled by user"))]
  {
    var cancelled := WithState(job, Failed, Some(now), Some("cancelled by user"));
    var stale := WithState(cancelled, Paused, None, None);
    var revived := WithState(stale, Running, None, None);
    SoleUpdate(job, Failed, Some(now), Some("cancelled by user"));
    SoleUpdate(cancelled, Paused, None, None);
    SoleUpdate(stale, Running, None, None);
    AfterStep([job], Cancel(now), [SetState(0, Paused, None, later), Resume]);
    AfterStep([cancelled], SetState(0, Paused, None, later), [Resume]);
    AfterStep([stale], Resume, []);
    assert [Cancel(now)] + [SetState(0, Paused, None, later), Resume] == [Cancel(now), SetState(0, Paused, None, later), Resume];
    assert [SetState(0, Paused, None, later)] + [Resume] == [SetState(0, Paused, None, later), Resume];
    assert [Resume] + [] == [Resume];
  }

  /** A late completion leaves a cancelled job done and still carrying the error of the cancel. */
  lemma CancelledJobDone(job: Job, now: int, later: int)
    requires job.state.Running?
    ensures AfterRun([job], [Cancel(now), SetState(0, Done, None, later)]) ==
            [job.(state := Done, finishedAt := Some(later), error := Some("cancelled by user"))]
  {
    var cancelled := WithState(job, Failed, Some(now), Some("cancelled by user"));
    SoleUpdate(job, Failed, Some(now), Some("cancelled by user"));
    SoleUpdate(cancelled, Done, Some(later), None);
    AfterStep([job], Cancel(now), [SetState(0, Done, None, later)]);
    AfterStep([cancelled], SetState(0, Done, None, later), []);
    assert [Cancel(now)] + [SetState(0, Done, None, later)] == [Cancel(now), SetState(0, Done, None, later)];
    assert [SetState(0, Done, None, later)] + [] == [SetState(0, Done, None, later)];
  }

  lemma SoleUpdate(job: Job, state: JobState, finished: Option<int>, error: Option<string>)
    ensures Latest([job]) == Some(0)
    ensures UpdateState([job], 0, state, finished, error) == Some([WithState(job, state, finished, error)])
  {
    assert [job][..0] == [];
    assert [job][0 := WithState(job, state, finished, error)] == [WithState(job, state, finished, error)];
  }

  lemma AfterStep(jobs: Jobs, e: Event, rest: seq<Event>)
    ensures AfterRun(jobs, [e] + rest) == AfterRun(Step(jobs, e), rest)
  {
    assert ([e] + rest)[1..] == rest;
  }

  lemma AnyRunningIs(jobs: Jobs)
    ensures AnyRunning(jobs) <==> exists i :: 0 <= i < |jobs| && jobs[i].state.Running?
  {
    if i :| 0 <= i < |jobs| && jobs[i].state.Running? { assert RunningAt(jobs, i); }
  }

  lemma OnlyRunning(jobs: Jobs, id: nat)
    requires OneRunning(jobs) && RunningAt(jobs, id)
    ensures forall i :: 0 <= i < |jobs| && i != id ==> !jobs[i].state.Running?
  {
    forall i | 0 <= i < |jobs| && i != id ensures !jobs[i].state.Running? { assert RunningAt(jobs, i) ==> i == id; }
  }

  // ---------------------------------------------------------------- handlers

  datatype Reply = BadRequest | Conflict | NoJob | JobStarted(id: nat) | InState(state: JobState)

  /** The handlers, each one atomic, over the table they share with the worker. */
  class Controller {
    var jobs: Jobs

    ghost predicate Valid()
      reads this
    { OneRunning(jobs) }

    constructor ()
      ensures Valid() && jobs == []
    { jobs := []; }

    /** Starts a job exactly when the request is valid and none is running. */
    method HandleStart(f: Filters, count: nat, now: int) returns (r: Reply)
      requires Valid()
      modifies this
      ensures Valid() && jobs == Step(old(jobs), Start(f, count, now))
      ensures r.BadRequest? <==> !ValidRequest(f)
      ensures r.Conflict? <==> ValidRequest(f) && AnyRunning(old(jobs))
      ensures r.JobStarted? ==> r.id == |old(jobs)| && jobs == old(jobs) + [NewJob(Running, f, TotalRoutes(f, count), now)]
      ensures !r.JobStarted? ==> jobs == old(jobs)
      ensures r.BadRequest? <==> f.maxRoutes < 0 || (f.fromDate.Some? && f.toDate.Some? && f.fromDate.value > f.toDate.value)
      ensures !r.BadRequest? ==> (r.Conflict? <==> exists i :: 0 <= i < |old(jobs)| && old(jobs)[i].state.Running?)
      ensures r.JobStarted? && count < 0x8000_0000 ==>
                jobs[r.id] == Job(now, None, Running, f, Some(if 0 < f.maxRoutes < count then f.maxRoutes else count), 0, None, None)
    {
      AnyRunningIs(jobs);
      if f.fromDate.Some? && f.toDate.Some? && f.toDate.value < f.fromDate.value { return BadRequest; }
      if f.maxRoutes < 0 { return BadRequest; }
      if AnyRunning(jobs) { return Conflict; }
      var total: int := count;
      if f.maxRoutes > 0 && total > f.maxRoutes { total := f.maxRoutes; }
      var job := NewJob(Running, f, Int32(total), now);
      assert OneRunning(jobs + [job]) by {
        assert forall i :: RunningAt(jobs + [job], i) ==> i == |jobs| || RunningAt(jobs, i);
      }
      match InsertJob(jobs, job)
      case None => return Conflict;
      case Some(after) => jobs, r := after, JobStarted(|jobs|);
    }

    /** Pauses the latest job if it is running and otherwise reports its state. */
    method HandlePause() returns (r: Reply)
      requires Valid()
      modifies this
      ensures Valid() && jobs == Step(old(jobs), Pause)
      ensures match Latest(old(jobs))
              case None => r == NoJob
              case Some(id) => r == InState(if old(jobs)[id].state.Running? then Paused else old(jobs)[id].state)
      ensures jobs == match Latest(old(jobs))
                      case None => old(jobs)
                      case Some(id) =>
                        if old(jobs)[id].state.Running? then old(jobs)[id := old(jobs)[id].(state := Paused)] else old(jobs)
    {
      match Latest(jobs)
      case None => return NoJob;
      case Some(id) =>
        if !jobs[id].state.Running? { return InState(jobs[id].state); }
        LeavingKeepsOne(jobs, id, Paused, None, None);
        jobs := UpdateState(jobs, id, Paused, None, None).value;
        return InState(Paused);
    }

    /** Resumes the latest job exactly when it is paused and the index lets it run. */
    method HandleResume() returns (r: Reply)
      requires Valid()
      modifies this
      ensures Valid() && jobs == Step(old(jobs), Resume)
      ensures r.InState? || r.Conflict?
      ensures r.InState? <==> Latest(old(jobs)).Some? && old(jobs)[Latest(old(jobs)).value].state.Paused?
                              && UpdateState(old(jobs), Latest(old(jobs)).value, Running, None, None).Some?
      ensures r.InState? ==> r.state.Running? && RunningAt(jobs, Latest(old(jobs)).value)
      ensures r.Conflict? ==> jobs == old(jobs)
      ensures r.InState? ==> var id := Latest(old(jobs)).value;
                jobs == old(jobs)[id := old(jobs)[id].(state := Running)]
                && forall i :: 0 <= i < |jobs| && i != id ==> !jobs[i].state.Running?
      ensures r.Conflict? && Latest(old(jobs)).Some? && old(jobs)[Latest(old(jobs)).value].state.Paused? ==>
                exists i :: 0 <= i < |jobs| && jobs[i].state.Running?
    {
      match Latest(jobs)
      case None => return Conflict;
      case Some(id) =>
        if !jobs[id].state.Paused? { return Conflict; }
        match UpdateState(jobs, id, Running, None, None)
        case None => return Conflict;
        case Some(after) =>
          OnlyRunning(after, id);
          jobs, r := after, InState(Running);
    }

    /** Fails the latest job unless it is finished, in which case it reports how it ended. */
    method HandleCancel(now: int) returns (r: Reply)
      requires Valid()
      modifies this
      ensures Valid() && jobs == Step(old(jobs), Cancel(now))
      ensures Latest(old(jobs)).None? ==> r == Conflict
      ensures Latest(old(jobs)).Some? ==>
                r.InState? && Terminal(r.state) && r.state == jobs[Latest(old(jobs)).value].state
      ensures jobs == match Latest(old(jobs))
                      case None => old(jobs)
                      case Some(id) =>
                        if old(jobs)[id].state.Done? || old(jobs)[id].state.Failed? then old(jobs)
                        else old(jobs)[id := old(jobs)[id].(state := Failed, finishedAt := Some(now),
                                                            error := Some("cancelled by user"))]
    {
      match Latest(jobs)
      case None => return Conflict;
      case Some(id) =>
        if jobs[id].state.Done? || jobs[id].state.Failed? { return InState(jobs[id].state); }
        LeavingKeepsOne(jobs, id, Failed, Some(now), Some("cancelled by user"));
        jobs := UpdateState(jobs, id, Failed, Some(now), Some("cancelled by user")).value;
        return InState(Failed);
    }
  }
}
