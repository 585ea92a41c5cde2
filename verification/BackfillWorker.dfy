/**
  The backfill worker's loop (internal/worker/alpr_backfill.go: Run, processJob, processRoute), walking a
  fixed set of routes under pauses, cancellations and shutdowns at any of its checks.
*/
module BackfillWorker {
  import opened Common
  import Ordering
  import opened BackfillJobs
  import opened BackfillWalk

  const DEFAULT_ROUTE_BATCH := 50

  datatype Outcome = Stopped | Finished

  /** How the surroundings treat one pass: how many of its checks still find the job running (None:
      all), whether what ends it is a shutdown, the batch size, and which segments fail to extract. */
  datatype Surroundings = Surroundings(checks: Option<nat>, crash: bool, batch: int, broken: set<(nat, nat)>)

  // ---------------------------------------------------------------- visits

  /** A route taken up by a pass, how many of its segments the pass dealt with, and whether it was
      counted as processed. */
  datatype AnyVisit = Visit(route: Route, done: nat, counted: bool)
  type Visit = v: AnyVisit | v.done <= |v.route.segments| witness Visit(Route(0, "", "", None, []), 0, false)

  predicate CutShort(v: Visit) { v.done < |v.route.segments| }

  /** The visits follow the walk from position k, and only the last can be cut short or not count. */
  predicate Follow(visits: seq<Visit>, all: seq<Route>, k: nat)
    decreases |visits|
  {
    visits != [] ==>
      && k < |all| && visits[0].route == all[k]
      && (|visits| > 1 ==> !CutShort(visits[0]) && visits[0].counted)
      && Follow(visits[1..], all, k + 1)
  }

  function Counted(visits: seq<Visit>): nat {
    if visits == [] then 0 else (if visits[0].counted then 1 else 0) + Counted(visits[1..])
  }

  /** The extraction marks after dealing with the first n segments of a route, some of which fail. */
  function RouteMarks(marks: set<(nat, nat)>, r: Route, n: nat, broken: set<(nat, nat)>): set<(nat, nat)>
    requires n <= |r.segments|
  {
    if n == 0 then marks
    else RouteMarks(marks, r, n - 1, broken) + ({(r.id, r.segments[n - 1])} - broken)
  }

  function Marks(marks: set<(nat, nat)>, visits: seq<Visit>, broken: set<(nat, nat)>): set<(nat, nat)>
    decreases |visits|
  {
    if visits == [] then marks
    else Marks(RouteMarks(marks, visits[0].route, visits[0].done, broken), visits[1..], broken)
  }

  /** The routes are the next ones of the walk from position k on. */
  predicate Ahead(routes: seq<Route>, all: seq<Route>, k: nat)
    decreases |routes|
  {
    routes != [] ==> k < |all| && routes[0] == all[k] && Ahead(routes[1..], all, k + 1)
  }

  lemma {:induction false} SliceAhead(all: seq<Route>, k: nat, n: nat)
    requires k + n <= |all|
    ensures Ahead(all[k..k + n], all, k)
    decreases n
  {
    if n > 0 {
      SliceAhead(all, k + 1, n - 1);
      assert all[k..k + n][1..] == all[k + 1..k + 1 + (n - 1)];
    }
  }

  // ---------------------------------------------------------------- one pass

  datatype Result = Result(visits: seq<Visit>, outcome: Outcome)

  function Less(left: Option<nat>, n: nat): Option<nat>
    requires left.Some? ==> n <= left.value
  { if left.Some? then Some(left.value - n) else None }

  /** How many segments of a route are reached with the checks that are left. */
  function Reach(r: Route, left: Option<nat>): (n: nat)
    ensures n <= |r.segments| && (left.Some? ==> n <= left.value) && (n < |r.segments| ==> left == Some(n))
  { if left.Some? && left.value < |r.segments| then left.value else |r.segments| }

  function BatchSize(size: int, rest: nat): nat {
    var limit := if size > 0 then size else DEFAULT_ROUTE_BATCH;
    if limit < rest then limit else rest
  }

  predicate Capped(maxRoutes: int, k: nat) { maxRoutes > 0 && k >= maxRoutes }

  /** Where a job ends: at the last route or at the ceiling. */
  function Goal(all: seq<Route>, maxRoutes: int): nat { if 0 < maxRoutes < |all| then maxRoutes else |all| }

  /** What a pass does from route k on with so many checks left and so many routes of the current
      batch. Between batches and before each route the job's state and the ceiling are checked, and
      each segment begins with a check of the state. A pause noticed inside a route ends the route
      and counts it; a shutdown noticed there, or before the progress is written, does not count it. */
  function Walk(all: seq<Route>, maxRoutes: int, k: nat, left: Option<nat>, s: Surroundings, room: nat): Result
    requires k + room <= |all|
    decreases |all| - k, if room == 0 then 1 else 0
  {
    if left == Some(0) then Result([], Stopped)
    else if Capped(maxRoutes, k) then Result([], Finished)
    else if room == 0 then
      if k == |all| then Result([], Finished)
      else Walk(all, maxRoutes, k, Less(left, 1), s, BatchSize(s.batch, |all| - k))
    else
      var checks := Less(left, 1);
      var n := Reach(all[k], checks);
      var after := Less(checks, n);
      if n < |all[k].segments| then Result([Visit(all[k], n, !s.crash)], Stopped)
      else if s.crash && after == Some(0) then Result([Visit(all[k], n, false)], Stopped)
      else
        var rest := Walk(all, maxRoutes, k + 1, if s.crash then Less(after, 1) else after, s, room - 1);
        Result([Visit(all[k], n, true)] + rest.visits, rest.outcome)
  }

  /** A pass takes up the next routes in order, never beyond the goal; one that reports the end has
      counted every route it took up and reached the goal, and one that is never stopped does so. */
  lemma {:induction false} WalkFollows(all: seq<Route>, maxRoutes: int, k: nat, left: Option<nat>, s: Surroundings, room: nat)
    requires k + room <= |all| && k <= Goal(all, maxRoutes)
    ensures var w := Walk(all, maxRoutes, k, left, s, room);
            && Follow(w.visits, all, k) && k + |w.visits| <= Goal(all, maxRoutes)
            && Counted(w.visits) <= |w.visits|
            && (w.outcome.Finished? ==> Counted(w.visits) == |w.visits| && k + |w.visits| == Goal(all, maxRoutes))
            && (left.None? ==> w.outcome.Finished?)
    decreases |all| - k, if room == 0 then 1 else 0
  {
    if left != Some(0) && !Capped(maxRoutes, k) {
      if room == 0 {
        if k < |all| { WalkFollows(all, maxRoutes, k, Less(left, 1), s, BatchSize(s.batch, |all| - k)); }
      } else {
        var checks := Less(left, 1);
        var n := Reach(all[k], checks);
        var after := Less(checks, n);
        if n == |all[k].segments| && !(s.crash && after == Some(0)) {
          var next := if s.crash then Less(after, 1) else after;
          WalkFollows(all, maxRoutes, k + 1, next, s, room - 1);
          var rest := Walk(all, maxRoutes, k + 1, next, s, room - 1);
          assert ([Visit(all[k], n, true)] + rest.visits)[1..] == rest.visits;
        }
      }
    }
  }

  lemma LimitedAhead(all: seq<Route>, k: nat, size: int)
    requires k <= |all|
    ensures var batch := Limited(all[k..], if size > 0 then size else DEFAULT_ROUTE_BATCH);
            && |batch| == BatchSize(size, |all| - k) && Ahead(batch, all, k)
            && var limit := if size > 0 then size else 50; batch == if |all| - k < limit then all[k..] else all[k..k + limit]
  {
    var n := BatchSize(size, |all| - k);
    assert Limited(all[k..], if size > 0 then size else DEFAULT_ROUTE_BATCH) == all[k..k + n];
    SliceAhead(all, k, n);
  }

  // ---------------------------------------------------------------- many passes

  /** What a pass did, with the segments that failed in it. */
  datatype Logged = Logged(visits: seq<Visit>, broken: set<(nat, nat)>)

  function Total(log: seq<Logged>): nat {
    if log == [] then 0 else Counted(log[0].visits) + Total(log[1..])
  }

  function AllMarks(marks: set<(nat, nat)>, log: seq<Logged>): set<(nat, nat)>
    decreases |log|
  {
    if log == [] then marks else AllMarks(Marks(marks, log[0].visits, log[0].broken), log[1..])
  }

  /** A job run by any number of passes, each resumed where the one before it left the row. */
  function RunLog(all: seq<Route>, maxRoutes: int, k: nat, passes: seq<Surroundings>): (seq<Logged>, bool)
    requires k <= Goal(all, maxRoutes)
    decreases |passes|
  {
    if passes == [] then ([], false)
    else
      var w := Walk(all, maxRoutes, k, passes[0].checks, passes[0], 0);
      var entry := Logged(w.visits, passes[0].broken);
      if w.outcome.Finished? then ([entry], true)
      else
        assert k + Counted(w.visits) <= Goal(all, maxRoutes) by {
          WalkFollows(all, maxRoutes, k, passes[0].checks, passes[0], 0);
        }
        var rest := RunLog(all, maxRoutes, k + Counted(w.visits), passes[1..]);
        ([entry] + rest.0, rest.1)
  }

  // ---------------------------------------------------------------- the worker

  class Worker {
    const table: seq<Route>
    const filters: BackfillJobs.Filters
    const lt: Collation
    ghost const all: seq<Route>       // the job's routes in the order it walks them
    var processed: nat                // processed_routes
    var lastRoute: Option<string>     // last_processed_route
    var extracted: set<(nat, nat)>    // segments marked as extracted

    constructor (table: seq<Route>, filters: BackfillJobs.Filters, lt: Collation)
      requires TotalOrder(lt) && DistinctIds(table)
      requires DistinctNames(AllRoutes(table, filters, lt)) && Named(AllRoutes(table, filters, lt))
      ensures this.table == table && this.filters == filters && this.lt == lt
      ensures Valid() && At(0) && extracted == {}
    {
      this.table, this.filters, this.lt, all := table, filters, lt, AllRoutes(table, filters, lt);
      processed, lastRoute, extracted := 0, None, {};
      new;
      forall k | 0 <= k <= |all| ensures LeavesRest(k) { TokenLeavesRest(table, filters, lt, k); }
    }

    ghost predicate Valid() { forall k :: 0 <= k <= |all| ==> LeavesRest(k) }

    /** A query made after k routes finds the others; with k = 0 it finds them all. */
    ghost predicate LeavesRest(k: nat)
      requires k <= |all|
    {
      Remaining(table, ListParams(filters, Token(all, k)), lt, filters.newestFirst) == all[k..]
    }

    /** The job row says that exactly the first k routes have been passed. */
    ghost predicate At(k: nat)
      reads this`processed, this`lastRoute
    {
      k <= |all| && processed == k && lastRoute == if k == 0 then None else Some(all[k - 1].name)
    }

    /** fetchRouteBatch: the next routes of the walk, as many as fit and none only at its end. */
    method FetchRouteBatch(size: int, ghost k: nat) returns (batch: seq<Route>)
      requires Valid() && At(k)
      ensures |batch| == BatchSize(size, |all| - k) && Ahead(batch, all, k)
      ensures var limit := if size > 0 then size else 50; batch == if |all| - k < limit then all[k..] else all[k..k + limit]
    {
      var limit := if size > 0 then size else DEFAULT_ROUTE_BATCH;
      var token := if lastRoute.Some? then lastRoute.value else "";
      assert LeavesRest(k) && token == Token(all, k);
      batch := ListBackfillRoutes(table, ListParams(filters, token), lt, filters.newestFirst, limit);
      assert batch == Limited(all[k..], limit);
      LimitedAhead(all, k, size);
    }

    /** Extracts a route's segments in turn. Every segment begins with a check of the job's state. */
    method ProcessRoute(r: Route, checks: Option<nat>, broken: set<(nat, nat)>)
      returns (left: Option<nat>, done: nat)
      modifies this`extracted
      ensures done == Reach(r, checks) && left == Less(checks, done)
      ensures extracted == RouteMarks(old(extracted), r, done, broken)
    {
      left := checks;
      for i := 0 to |r.segments|
        invariant (checks.Some? ==> i <= checks.value) && left == Less(checks, i)
        invariant extracted == RouteMarks(old(extracted), r, i, broken)
      {
        if left == Some(0) { return left, i; }
        left := Less(left, 1);
        if (r.id, r.segments[i]) !in extracted && (r.id, r.segments[i]) !in broken {
          extracted := extracted + {(r.id, r.segments[i])};
        }
      }
      return left, |r.segments|;
    }

    /** Processes the route the job is at and writes the progress, which a shutdown prevents and a
        pause does not. */
    method PassRoute(r: Route, s: Surroundings, checks: Option<nat>, ghost k: nat)
      returns (left: Option<nat>, v: Visit)
      requires At(k) && k < |all| && r == all[k]
      modifies this
      ensures v.route == r && v.done == Reach(r, checks)
      ensures v.counted <==> !(s.crash && (CutShort(v) || Less(checks, v.done) == Some(0)))
      ensures left == if s.crash && v.counted then Less(Less(checks, v.done), 1) else Less(checks, v.done)
      ensures At(if v.counted then k + 1 else k)
      ensures extracted == RouteMarks(old(extracted), r, v.done, s.broken)
    {
      var done;
      left, done := ProcessRoute(r, checks, s.broken);
      if s.crash {
        if done < |r.segments| || left == Some(0) { return left, Visit(r, done, false); }
        left := Less(left, 1);
      }
      processed, lastRoute := processed + 1, Some(r.name);
      return left, Visit(r, done, true);
    }

    /** What is promised of a pass that began at k: to end after these visits, or to go on from there. */
    ghost predicate Leads(s: Surroundings, k: nat, checks: Option<nat>, room: nat,
                          visits: seq<Visit>, verdict: Option<Outcome>, left: Option<nat>, rest: nat)
    {
      && k + room <= |all|
      && var promise := Walk(all, filters.maxRoutes, k, checks, s, room);
         if verdict.Some? then promise == Result(visits, verdict.value)
         else
           && |visits| == Counted(visits) && k + |visits| + rest <= |all|
           && forall later | later == Walk(all, filters.maxRoutes, k + |visits|, left, s, rest) :: promise == Prepend(visits, later)
    }

    lemma LeadsOn(s: Surroundings, k: nat, checks: Option<nat>, room: nat, a: seq<Visit>, left: Option<nat>, rest: nat,
                  b: seq<Visit>, verdict: Option<Outcome>, last: Option<nat>, end: nat)
      requires Leads(s, k, checks, room, a, None, left, rest) && Leads(s, k + |a|, left, rest, b, verdict, last, end)
      ensures Leads(s, k, checks, room, a + b, verdict, last, end)
    {
      VisitsMore({}, a, b, {});
      var next := Walk(all, filters.maxRoutes, k + |a|, left, s, rest);
      assert Walk(all, filters.maxRoutes, k, checks, s, room) == Prepend(a, next);
      if verdict.None? {
        var later := Walk(all, filters.maxRoutes, k + |a| + |b|, last, s, end);
        assert next == Prepend(b, later);
        PrependTwice(a, b, later);
      }
    }

    lemma LeadsFirst(s: Surroundings, k: nat, checks: Option<nat>, room: nat)
      requires k + room <= |all|
      ensures Leads(s, k, checks, room, [], None, checks, room)
    {
      assert [] + Walk(all, filters.maxRoutes, k, checks, s, room).visits == Walk(all, filters.maxRoutes, k, checks, s, room).visits;
    }

    /** One route of a batch, after a check of the job's state and of the ceiling. The pass is over
        when a verdict is returned. */
    method ProcessNext(s: Surroundings, r: Route, checks: Option<nat>, ghost k: nat, ghost room: nat)
      returns (verdict: Option<Outcome>, visits: seq<Visit>, left: Option<nat>)
      requires At(k) && 0 < room && k + room <= |all| && r == all[k]
      modifies this
      ensures verdict.None? ==> |visits| == 1
      ensures At(k + Counted(visits)) && extracted == Marks(old(extracted), visits, s.broken)
      ensures Leads(s, k, checks, room, visits, verdict, left, room - 1)
    {
      if checks == Some(0) { return Some(Stopped), [], checks; }
      if Capped(filters.maxRoutes, processed) { return Some(Finished), [], checks; }
      var v;
      left, v := PassRoute(r, s, Less(checks, 1), k);
      WalkVisit(all, filters.maxRoutes, k, checks, s, room, v, left);
      VisitMore(old(extracted), [], v, s.broken);
      assert [] + [v] == [v];
      return if CutShort(v) || !v.counted then Some(Stopped) else None, [v], left;
    }

    /** The same behind the visits made so far, of a batch that began at k with so many checks. */
    method ProcessOn(s: Surroundings, r: Route, visits: seq<Visit>, left: Option<nat>,
                     ghost k: nat, ghost checks: Option<nat>, ghost size: nat, ghost room: nat, ghost marks: set<(nat, nat)>)
      returns (verdict: Option<Outcome>, now: seq<Visit>, after: Option<nat>)
      requires At(k + |visits|) && 0 < room && k + |visits| + room <= |all| && r == all[k + |visits|]
      requires Leads(s, k, checks, size, visits, None, left, room) && extracted == Marks(marks, visits, s.broken)
      modifies this
      ensures verdict.None? ==> |now| == |visits| + 1
      ensures At(k + Counted(now)) && extracted == Marks(marks, now, s.broken)
      ensures Leads(s, k, checks, size, now, verdict, after, room - 1)
    {
      var more;
      verdict, more, after := ProcessNext(s, r, left, k + |visits|, room);
      LeadsOn(s, k, checks, size, visits, left, room, more, verdict, after, room - 1);
      VisitsMore(marks, visits, more, s.broken);
      now := visits + more;
    }

    /** The routes of one batch in turn. */
    method ProcessBatch(s: Surroundings, batch: seq<Route>, checks: Option<nat>, ghost k: nat)
      returns (verdict: Option<Outcome>, visits: seq<Visit>, left: Option<nat>)
      requires At(k) && |batch| <= |all| - k && Ahead(batch, all, k)
      modifies this
      ensures verdict.None? ==> |visits| == |batch|
      ensures At(k + Counted(visits)) && extracted == Marks(old(extracted), visits, s.broken)
      ensures Leads(s, k, checks, |batch|, visits, verdict, left, 0)
    {
      verdict, visits, left := None, [], checks;
      var rest := batch;
      LeadsFirst(s, k, checks, |batch|);
      while rest != []
        invariant |visits| + |rest| == |batch| && Ahead(rest, all, k + |visits|)
        invariant At(k + Counted(visits)) && extracted == Marks(old(extracted), visits, s.broken)
        invariant verdict.None? && Leads(s, k, checks, |batch|, visits, None, left, |rest|)
      {
        verdict, visits, left := ProcessOn(s, rest[0], visits, left, k, checks, |batch|, |rest|, old(extracted));
        if verdict.Some? { return; }
        rest := rest[1..];
      }
    }

    /** A turn of the outer loop: check the job, fetch the next batch, process it. */
    method ProcessTurn(s: Surroundings, checks: Option<nat>, ghost k: nat)
      returns (verdict: Option<Outcome>, visits: seq<Visit>, left: Option<nat>)
      requires Valid() && At(k)
      modifies this
      ensures verdict.None? ==> |visits| > 0
      ensures At(k + Counted(visits)) && extracted == Marks(old(extracted), visits, s.broken)
      ensures Leads(s, k, checks, 0, visits, verdict, left, 0)
    {
      if checks == Some(0) { return Some(Stopped), [], checks; }
      if Capped(filters.maxRoutes, processed) { return Some(Finished), [], checks; }
      var batch := FetchRouteBatch(s.batch, k);
      if batch == [] { return Some(Finished), [], checks; }
      verdict, visits, left := ProcessBatch(s, batch, Less(checks, 1), k);
    }

    /** One pass over the job from wherever the row says it is: exactly the specified walk, with the
        row moved on by the routes counted and the marks of what was dealt with. */
    method ProcessJob(s: Surroundings, ghost k: nat)
      returns (outcome: Outcome, visits: seq<Visit>)
      requires Valid() && At(k)
      modifies this
      ensures Result(visits, outcome) == Walk(all, filters.maxRoutes, k, s.checks, s, 0)
      ensures At(k + Counted(visits)) && extracted == Marks(old(extracted), visits, s.broken)
    {
      visits := [];
      var left := s.checks;
      LeadsFirst(s, k, left, 0);
      while true
        invariant |visits| == Counted(visits) && At(k + |visits|)
        invariant extracted == Marks(old(extracted), visits, s.broken)
        invariant Leads(s, k, s.checks, 0, visits, None, left, 0)
        decreases |all| - |visits|
      {
        ghost var before := left;
        var verdict, more;
        verdict, more, left := ProcessTurn(s, left, k + |visits|);
        LeadsOn(s, k, s.checks, 0, visits, before, 0, more, verdict, left, 0);
        VisitsMore(old(extracted), visits, more, s.broken);
        visits := visits + more;
        if verdict.Some? { return verdict.value, visits; }
      }
    }

    /** A job run by any number of passes, each paused, cancelled or shut down anywhere and resumed by
        the next, until one reports the end. */
    method Run(passes: seq<Surroundings>) returns (log: seq<Logged>, finished: bool)
      requires Valid() && At(0)
      modifies this
      ensures (log, finished) == RunLog(all, filters.maxRoutes, 0, passes)
      ensures At(Total(log)) && extracted == AllMarks(old(extracted), log)
      ensures processed == Total(log) && lastRoute == if Total(log) == 0 then None else Some(all[Total(log) - 1].name)
    {
      log, finished := [], false;
      LogLeadsFirst(all, filters.maxRoutes, passes);
      for i := 0 to |passes|
        invariant !finished && LogLeads(all, filters.maxRoutes, passes, log, i)
        invariant At(Total(log)) && extracted == AllMarks(old(extracted), log)
      {
        var outcome, visits := ProcessJob(passes[i], Total(log));
        var entry := Logged(visits, passes[i].broken);
        LogLeadsOn(all, filters.maxRoutes, passes, log, i, visits, outcome);
        LogMore(old(extracted), log, entry);
        log := log + [entry];
        if outcome.Finished? { return log, true; }
      }
      LogLeadsLast(all, filters.maxRoutes, passes, log);
    }
  }

  /** What is still promised of a run after its first i passes. */
  ghost predicate LogLeads(all: seq<Route>, maxRoutes: int, passes: seq<Surroundings>, log: seq<Logged>, i: nat) {
    && i <= |passes| && Total(log) <= Goal(all, maxRoutes)
    && RunLog(all, maxRoutes, 0, passes) == After(log, RunLog(all, maxRoutes, Total(log), passes[i..]))
  }

  lemma LogLeadsFirst(all: seq<Route>, maxRoutes: int, passes: seq<Surroundings>)
    ensures LogLeads(all, maxRoutes, passes, [], 0)
  {
    var promise := RunLog(all, maxRoutes, 0, passes);
    assert passes[0..] == passes && [] + promise.0 == promise.0;
  }

  lemma LogLeadsOn(all: seq<Route>, maxRoutes: int, passes: seq<Surroundings>, log: seq<Logged>, i: nat,
                   visits: seq<Visit>, outcome: Outcome)
    requires LogLeads(all, maxRoutes, passes, log, i) && i < |passes|
    requires Result(visits, outcome) == Walk(all, maxRoutes, Total(log), passes[i].checks, passes[i], 0)
    ensures var more := log + [Logged(visits, passes[i].broken)];
            if outcome.Finished? then RunLog(all, maxRoutes, 0, passes) == (more, true)
            else LogLeads(all, maxRoutes, passes, more, i + 1)
  {
    assert passes[i..] == [passes[i]] + passes[i + 1..];
    RunLogStep(all, maxRoutes, Total(log), passes[i], passes[i + 1..], log);
    LogMore({}, log, Logged(visits, passes[i].broken));
  }

  lemma LogLeadsLast(all: seq<Route>, maxRoutes: int, passes: seq<Surroundings>, log: seq<Logged>)
    requires LogLeads(all, maxRoutes, passes, log, |passes|)
    ensures RunLog(all, maxRoutes, 0, passes) == (log, false)
  {
    assert passes[|passes|..] == [] && log + [] == log;
  }

  function After(log: seq<Logged>, rest: (seq<Logged>, bool)): (seq<Logged>, bool) { (log + rest.0, rest.1) }

  lemma RunLogStep(all: seq<Route>, maxRoutes: int, k: nat, s: Surroundings, passes: seq<Surroundings>, log: seq<Logged>)
    requires k <= Goal(all, maxRoutes)
    ensures var w := Walk(all, maxRoutes, k, s.checks, s, 0);
            var entry := Logged(w.visits, s.broken);
            && k + Counted(w.visits) <= Goal(all, maxRoutes)
            && After(log, RunLog(all, maxRoutes, k, [s] + passes)) ==
               if w.outcome.Finished? then (log + [entry], true)
               else After(log + [entry], RunLog(all, maxRoutes, k + Counted(w.visits), passes))
  {
    WalkFollows(all, maxRoutes, k, s.checks, s, 0);
    assert ([s] + passes)[1..] == passes;
    var w := Walk(all, maxRoutes, k, s.checks, s, 0);
    var rest := RunLog(all, maxRoutes, k + Counted(w.visits), passes);
    assert log + ([Logged(w.visits, s.broken)] + rest.0) == log + [Logged(w.visits, s.broken)] + rest.0;
  }

  lemma WalkVisit(all: seq<Route>, maxRoutes: int, k: nat, left: Option<nat>, s: Surroundings, room: nat, v: Visit, after: Option<nat>)
    requires 0 < room && k + room <= |all| && left != Some(0) && !Capped(maxRoutes, k)
    requires v.route == all[k] && v.done == Reach(all[k], Less(left, 1))
    requires v.counted <==> !(s.crash && (CutShort(v) || Less(Less(left, 1), v.done) == Some(0)))
    requires after == if s.crash && v.counted then Less(Less(Less(left, 1), v.done), 1) else Less(Less(left, 1), v.done)
    ensures Walk(all, maxRoutes, k, left, s, room) ==
            Prepend([v], if CutShort(v) || !v.counted then Result([], Stopped)
                         else Walk(all, maxRoutes, k + 1, after, s, room - 1))
  {}

  lemma PrependTwice(a: seq<Visit>, b: seq<Visit>, r: Result)
    ensures Prepend(a, Prepend(b, r)) == Prepend(a + b, r)
  {
    assert a + (b + r.visits) == a + b + r.visits;
  }

  function Prepend(visits: seq<Visit>, r: Result): Result { Result(visits + r.visits, r.outcome) }

  lemma {:induction false} VisitMore(marks: set<(nat, nat)>, visits: seq<Visit>, v: Visit, broken: set<(nat, nat)>)
    ensures Marks(marks, visits + [v], broken) == RouteMarks(Marks(marks, visits, broken), v.route, v.done, broken)
    ensures Counted(visits + [v]) == Counted(visits) + if v.counted then 1 else 0
    decreases |visits|
  {
    if visits == [] {
      assert [v][1..] == [];
    } else {
      assert (visits + [v])[1..] == visits[1..] + [v];
      VisitMore(RouteMarks(marks, visits[0].route, visits[0].done, broken), visits[1..], v, broken);
    }
  }

  lemma {:induction false} VisitsMore(marks: set<(nat, nat)>, a: seq<Visit>, b: seq<Visit>, broken: set<(nat, nat)>)
    ensures Marks(marks, a + b, broken) == Marks(Marks(marks, a, broken), b, broken)
    ensures Counted(a + b) == Counted(a) + Counted(b)
    decreases |a|
  {
    if a == [] {
      assert a + b == b;
    } else {
      assert (a + b)[1..] == a[1..] + b;
      VisitsMore(RouteMarks(marks, a[0].route, a[0].done, broken), a[1..], b, broken);
    }
  }

  lemma {:induction false} LogMore(marks: set<(nat, nat)>, log: seq<Logged>, entry: Logged)
    ensures AllMarks(marks, log + [entry]) == Marks(AllMarks(marks, log), entry.visits, entry.broken)
    ensures Total(log + [entry]) == Total(log) + Counted(entry.visits)
    decreases |log|
  {
    if log == [] {
      assert [entry][1..] == [];
    } else {
      assert (log + [entry])[1..] == log[1..] + [entry];
      LogMore(Marks(marks, log[0].visits, log[0].broken), log[1..], entry);
    }
  }

  // ---------------------------------------------------------------- what a run counts

  /** The passes of a log follow the walk from position k, each from where the one before it stopped. */
  predicate Chain(all: seq<Route>, k: nat, log: seq<Logged>)
    decreases |log|
  {
    log != [] ==>
      Follow(log[0].visits, all, k) && k + |log[0].visits| <= |all| && Chain(all, k + Counted(log[0].visits), log[1..])
  }

  /** A run follows the walk, never beyond the goal; one that finished has counted up to it, and any
      run finishes that has a pass which is never stopped. */
  lemma {:induction false} RunLogFollows(all: seq<Route>, maxRoutes: int, k: nat, passes: seq<Surroundings>)
    requires k <= Goal(all, maxRoutes)
    ensures var (log, finished) := RunLog(all, maxRoutes, k, passes);
            && Chain(all, k, log) && k + Total(log) <= Goal(all, maxRoutes)
            && (finished ==> k + Total(log) == Goal(all, maxRoutes))
            && ((exists i :: 0 <= i < |passes| && passes[i].checks.None?) ==> finished)
    decreases |passes|
  {
    if passes != [] {
      WalkFollows(all, maxRoutes, k, passes[0].checks, passes[0], 0);
      var w := Walk(all, maxRoutes, k, passes[0].checks, passes[0], 0);
      if w.outcome.Stopped? {
        RunLogFollows(all, maxRoutes, k + Counted(w.visits), passes[1..]);
        var rest := RunLog(all, maxRoutes, k + Counted(w.visits), passes[1..]);
        assert ([Logged(w.visits, passes[0].broken)] + rest.0)[1..] == rest.0;
        if i :| 0 <= i < |passes| && passes[i].checks.None? {
          assert i > 0 && passes[1..][i - 1].checks.None?;
        }
      }
    }
  }

  function CountedRoutes(visits: seq<Visit>): seq<Route> {
    if visits == [] then [] else (if visits[0].counted then [visits[0].route] else []) + CountedRoutes(visits[1..])
  }

  function AllCounted(log: seq<Logged>): seq<Route> {
    if log == [] then [] else CountedRoutes(log[0].visits) + AllCounted(log[1..])
  }

  lemma {:induction false} CountedAt(all: seq<Route>, k: nat, visits: seq<Visit>)
    requires Follow(visits, all, k) && k + |visits| <= |all|
    ensures |CountedRoutes(visits)| == Counted(visits) <= |visits|
    ensures forall i :: 0 <= i < Counted(visits) ==> CountedRoutes(visits)[i] == all[k + i]
    decreases |visits|
  {
    if visits != [] {
      var rest := visits[1..];
      CountedAt(all, k + 1, rest);
      if visits[0].counted {
        assert CountedRoutes(visits) == [all[k]] + CountedRoutes(rest);
        assert Counted(visits) == 1 + Counted(rest);
        forall i | 0 <= i < Counted(visits) ensures CountedRoutes(visits)[i] == all[k + i] {
          assert i > 0 ==> CountedRoutes(visits)[i] == CountedRoutes(rest)[i - 1];
        }
      } else {
        assert rest == [];
      }
    }
  }

  lemma CountedAre(all: seq<Route>, k: nat, visits: seq<Visit>)
    requires Follow(visits, all, k) && k + |visits| <= |all|
    ensures Counted(visits) <= |visits| && CountedRoutes(visits) == all[k..k + Counted(visits)]
  {
    CountedAt(all, k, visits);
  }

  lemma {:induction false} AllCountedAre(all: seq<Route>, k: nat, log: seq<Logged>)
    requires Chain(all, k, log) && k + Total(log) <= |all|
    ensures AllCounted(log) == all[k..k + Total(log)]
    decreases |log|
  {
    if log != [] {
      var m := k + Counted(log[0].visits);
      CountedAre(all, k, log[0].visits);
      AllCountedAre(all, m, log[1..]);
      assert all[k..m] + all[m..m + Total(log[1..])] == all[k..k + Total(log)];
    }
  }

  /** Over any number of passes, each paused, cancelled or shut down anywhere, the routes counted are
      the job's routes in order, each once and none left out, and a finished job has counted them all
      up to its ceiling. */
  lemma RunCountsEachOnce(all: seq<Route>, maxRoutes: int, passes: seq<Surroundings>)
    ensures var (log, finished) := RunLog(all, maxRoutes, 0, passes);
            && Total(log) <= Goal(all, maxRoutes) && AllCounted(log) == all[..Total(log)]
            && (finished ==> AllCounted(log) == all[..Goal(all, maxRoutes)])
            && ((exists i :: 0 <= i < |passes| && passes[i].checks.None?) ==> finished)
  {
    RunLogFollows(all, maxRoutes, 0, passes);
    AllCountedAre(all, 0, RunLog(all, maxRoutes, 0, passes).0);
  }

  // ---------------------------------------------------------------- what a run extracts

  lemma {:induction false} RouteMarksAre(marks: set<(nat, nat)>, r: Route, n: nat, broken: set<(nat, nat)>, p: (nat, nat))
    requires n <= |r.segments|
    ensures p in RouteMarks(marks, r, n, broken) <==>
            p in marks || (p.0 == r.id && p.1 in r.segments[..n] && p !in broken)
    decreases n
  {
    if n > 0 {
      RouteMarksAre(marks, r, n - 1, broken, p);
      assert r.segments[..n] == r.segments[..n - 1] + [r.segments[n - 1]];
    }
  }

  /** What a pass extracts: a segment is marked afterwards exactly when it was before, or it is one
      of the segments dealt with in one of the visits and did not fail. */
  lemma {:induction false} MarksAre(marks: set<(nat, nat)>, visits: seq<Visit>, broken: set<(nat, nat)>, p: (nat, nat))
    ensures p in Marks(marks, visits, broken) <==>
            p in marks || (p !in broken && exists i | 0 <= i < |visits| ::
                             p.0 == visits[i].route.id && p.1 in visits[i].route.segments[..visits[i].done])
    decreases |visits|
  {
    if visits != [] {
      var v := visits[0];
      RouteMarksAre(marks, v.route, v.done, broken, p);
      MarksAre(RouteMarks(marks, v.route, v.done, broken), visits[1..], broken, p);
      forall i | 0 <= i < |visits| - 1 ensures visits[1..][i] == visits[i + 1] {}
    }
  }

  lemma {:induction false} FollowAt(visits: seq<Visit>, all: seq<Route>, k: nat, i: nat)
    requires Follow(visits, all, k) && i < |visits|
    ensures k + i < |all| && visits[i].route == all[k + i]
    ensures i < |visits| - 1 ==> visits[i].counted && !CutShort(visits[i])
    decreases i
  {
    if i > 0 { FollowAt(visits[1..], all, k + 1, i - 1); }
  }

  lemma VisitsLeaveAlone(all: seq<Route>, q: nat, k: nat, visits: seq<Visit>, marks: set<(nat, nat)>,
                         broken: set<(nat, nat)>, segment: nat)
    requires DistinctIds(all) && q < k && q < |all| && Follow(visits, all, k)
    ensures (all[q].id, segment) in Marks(marks, visits, broken) <==> (all[q].id, segment) in marks
  {
    MarksAre(marks, visits, broken, (all[q].id, segment));
    forall i | 0 <= i < |visits| ensures visits[i].route.id != all[q].id {
      FollowAt(visits, all, k, i);
    }
  }

  /** A route behind the token is never gone back to: whatever passes follow, none of its segments is
      marked that was not. So a segment that was skipped by a pause, or that failed, stays unmarked. */
  lemma {:induction false} CountedRouteNotRetried(all: seq<Route>, q: nat, k: nat, log: seq<Logged>, marks: set<(nat, nat)>, segment: nat)
    requires DistinctIds(all) && q < k && q < |all| && Chain(all, k, log)
    ensures (all[q].id, segment) in AllMarks(marks, log) <==> (all[q].id, segment) in marks
    decreases |log|
  {
    if log != [] {
      VisitsLeaveAlone(all, q, k, log[0].visits, marks, log[0].broken, segment);
      CountedRouteNotRetried(all, q, k + Counted(log[0].visits), log[1..],
                             Marks(marks, log[0].visits, log[0].broken), segment);
    }
  }

  /** The segments that fail in some pass. */
  function Failing(log: seq<Logged>): set<(nat, nat)> {
    set i, p | 0 <= i < |log| && p in log[i].broken :: p
  }

  /** A pause in the i-th pass left a counted route with an open segment that never fails. */
  ghost predicate PausedOpen(marks: set<(nat, nat)>, log: seq<Logged>, fails: set<(nat, nat)>, i: nat)
    requires i < |log|
  {
    var visits := log[i].visits;
    visits != [] && var v := visits[|visits| - 1];
    v.counted && CutShort(v) && HasOpen(v.route, AllMarks(marks, log[..i + 1]) + fails)
  }

  ghost predicate HasOpen(r: Route, settled: set<(nat, nat)>) { exists j :: OpenSegment(r, j, settled) }

  ghost predicate OpenSegment(r: Route, j: int, settled: set<(nat, nat)>) {
    0 <= j < |r.segments| && (r.id, r.segments[j]) !in settled
  }

  lemma {:induction false} MarksGrow(marks: set<(nat, nat)>, log: seq<Logged>, p: (nat, nat))
    requires p in marks
    ensures p in AllMarks(marks, log)
    decreases |log|
  {
    if log != [] {
      MarksAre(marks, log[0].visits, log[0].broken, p);
      MarksGrow(Marks(marks, log[0].visits, log[0].broken), log[1..], p);
    }
  }

  lemma PausedOpenTail(marks: set<(nat, nat)>, log: seq<Logged>, fails: set<(nat, nat)>, i: nat)
    requires i + 1 < |log|
    ensures PausedOpen(marks, log, fails, i + 1) <==>
            PausedOpen(Marks(marks, log[0].visits, log[0].broken), log[1..], fails, i)
  {
    assert log[..i + 2][1..] == log[1..][..i + 1];
    assert AllMarks(marks, log[..i + 2]) == AllMarks(Marks(marks, log[0].visits, log[0].broken), log[1..][..i + 1]);
  }

  /** Without an open pause every counted route ends up extracted. */
  lemma {:induction false} CountedRouteExtracted(all: seq<Route>, k: nat, log: seq<Logged>, marks: set<(nat, nat)>,
                                                 fails: set<(nat, nat)>, q: nat, j: nat)
    requires Chain(all, k, log) && k <= q < k + Total(log) && q < |all| && j < |all[q].segments|
    requires forall i :: 0 <= i < |log| ==> log[i].broken <= fails && !PausedOpen(marks, log, fails, i)
    requires (all[q].id, all[q].segments[j]) !in fails
    ensures (all[q].id, all[q].segments[j]) in AllMarks(marks, log)
    decreases |log|
  {
    var (visits, broken) := (log[0].visits, log[0].broken);
    var p := (all[q].id, all[q].segments[j]);
    CountedAre(all, k, visits);
    if q < k + Counted(visits) {
      FirstPassExtracts(all, k, log, marks, fails, q, j);
      MarksGrow(Marks(marks, visits, broken), log[1..], p);
    } else {
      forall i | 0 <= i < |log| - 1
        ensures log[1..][i].broken <= fails && !PausedOpen(Marks(marks, visits, broken), log[1..], fails, i)
      {
        PausedOpenTail(marks, log, fails, i);
      }
      CountedRouteExtracted(all, k + Counted(visits), log[1..], Marks(marks, visits, broken), fails, q, j);
    }
  }

  lemma FirstPassExtracts(all: seq<Route>, k: nat, log: seq<Logged>, marks: set<(nat, nat)>, fails: set<(nat, nat)>, q: nat, j: nat)
    requires log != [] && Follow(log[0].visits, all, k) && k + |log[0].visits| <= |all|
    requires k <= q < k + Counted(log[0].visits) && q < |all| && j < |all[q].segments|
    requires log[0].broken <= fails && !PausedOpen(marks, log, fails, 0)
    requires (all[q].id, all[q].segments[j]) !in fails
    ensures (all[q].id, all[q].segments[j]) in Marks(marks, log[0].visits, log[0].broken)
  {
    var (visits, broken) := (log[0].visits, log[0].broken);
    var p := (all[q].id, all[q].segments[j]);
    CountedAre(all, k, visits);
    var v := visits[q - k];
    FollowAt(visits, all, k, q - k);
    MarksAre(marks, visits, broken, p);
    if CutShort(v) {
      LastIsCounted(all, k, visits);
      assert log[..1][1..] == [] && AllMarks(marks, log[..1]) == Marks(marks, visits, broken);
      assert !OpenSegment(v.route, j, AllMarks(marks, log[..1]) + fails);
    } else {
      assert v.route.segments[..v.done] == v.route.segments;
    }
  }

  lemma {:induction false} LastIsCounted(all: seq<Route>, k: nat, visits: seq<Visit>)
    requires Follow(visits, all, k) && visits != []
    ensures visits[|visits| - 1].counted <==> Counted(visits) == |visits|
    ensures Counted(visits) >= |visits| - 1
    decreases |visits|
  {
    if |visits| > 1 { LastIsCounted(all, k + 1, visits[1..]); }
  }

  lemma {:induction false} AllMarksSplit(marks: set<(nat, nat)>, log: seq<Logged>, i: nat)
    requires i <= |log|
    ensures AllMarks(marks, log) == AllMarks(AllMarks(marks, log[..i]), log[i..])
    decreases i
  {
    if i == 0 {
      assert log[..0] == [] && log[0..] == log;
    } else {
      AllMarksSplit(Marks(marks, log[0].visits, log[0].broken), log[1..], i - 1);
      assert log[..i][1..] == log[1..][..i - 1] && log[1..][i - 1..] == log[i..];
    }
  }

  lemma {:induction false} ChainSplit(all: seq<Route>, k: nat, log: seq<Logged>, i: nat)
    requires Chain(all, k, log) && i <= |log|
    ensures Chain(all, k + Total(log[..i]), log[i..]) && Total(log) == Total(log[..i]) + Total(log[i..])
    decreases i
  {
    if i == 0 {
      assert log[..0] == [] && log[0..] == log;
    } else {
      ChainSplit(all, k + Counted(log[0].visits), log[1..], i - 1);
      assert log[..i][1..] == log[1..][..i - 1] && log[1..][i - 1..] == log[i..];
    }
  }

  /** A pause that leaves a segment open leaves it open for good. */
  lemma PausedOpenStays(all: seq<Route>, log: seq<Logged>, marks: set<(nat, nat)>, fails: set<(nat, nat)>, i: nat)
    returns (q: nat, j: nat)
    requires DistinctIds(all) && Chain(all, 0, log) && i < |log| && PausedOpen(marks, log, fails, i)
    ensures q < Total(log) && q < |all| && j < |all[q].segments|
    ensures (all[q].id, all[q].segments[j]) !in fails + AllMarks(marks, log)
  {
    var visits := log[i].visits;
    var v := visits[|visits| - 1];
    var at := Total(log[..i]);
    ChainSplit(all, 0, log, i);
    assert log[i..][0] == log[i] && log[i..][1..] == log[i + 1..];
    FollowAt(visits, all, at, |visits| - 1);
    LastIsCounted(all, at, visits);
    q := at + |visits| - 1;
    var open :| OpenSegment(v.route, open, AllMarks(marks, log[..i + 1]) + fails);
    j := open;
    assert log[i..] != [] && Total(log[i..]) == Counted(visits) + Total(log[i + 1..]);
    AllMarksSplit(marks, log, i + 1);
    CountedRouteNotRetried(all, q, at + Counted(visits), log[i + 1..], AllMarks(marks, log[..i + 1]), all[q].segments[j]);
  }

  /** A finished job has extracted every segment of its routes that does not fail, if and only if no
      pass was paused inside a route that still had such a segment open. */
  lemma FinishedExtractsIff(all: seq<Route>, maxRoutes: int, passes: seq<Surroundings>, marks: set<(nat, nat)>)
    requires DistinctIds(all) && RunLog(all, maxRoutes, 0, passes).1
    ensures var log := RunLog(all, maxRoutes, 0, passes).0;
            (forall q, j :: 0 <= q < Goal(all, maxRoutes) && 0 <= j < |all[q].segments| ==>
               (all[q].id, all[q].segments[j]) in Failing(log) + AllMarks(marks, log))
            <==> (forall i :: 0 <= i < |log| ==> !PausedOpen(marks, log, Failing(log), i))
  {
    var log := RunLog(all, maxRoutes, 0, passes).0;
    var fails := Failing(log);
    RunLogFollows(all, maxRoutes, 0, passes);
    if forall i :: 0 <= i < |log| ==> !PausedOpen(marks, log, fails, i) {
      forall q, j | 0 <= q < Goal(all, maxRoutes) && 0 <= j < |all[q].segments|
        ensures (all[q].id, all[q].segments[j]) in fails + AllMarks(marks, log)
      {
        if (all[q].id, all[q].segments[j]) !in fails { CountedRouteExtracted(all, 0, log, marks, fails, q, j); }
      }
    } else {
      var i :| 0 <= i < |log| && PausedOpen(marks, log, fails, i);
      var q, j := PausedOpenStays(all, log, marks, fails, i);
    }
  }

  lemma {:induction false} CrashCutsUncounted(all: seq<Route>, maxRoutes: int, k: nat, left: Option<nat>, s: Surroundings, room: nat)
    requires k + room <= |all| && s.crash
    ensures var visits := Walk(all, maxRoutes, k, left, s, room).visits;
            visits != [] && CutShort(visits[|visits| - 1]) ==> !visits[|visits| - 1].counted
    decreases |all| - k, if room == 0 then 1 else 0
  {
    if left != Some(0) && !Capped(maxRoutes, k) {
      if room == 0 {
        if k < |all| { CrashCutsUncounted(all, maxRoutes, k, Less(left, 1), s, BatchSize(s.batch, |all| - k)); }
      } else {
        var checks := Less(left, 1);
        var n := Reach(all[k], checks);
        var after := Less(checks, n);
        if n == |all[k].segments| && after != Some(0) {
          CrashCutsUncounted(all, maxRoutes, k + 1, Less(after, 1), s, room - 1);
        }
      }
    }
  }

  lemma {:induction false} CrashedLog(all: seq<Route>, maxRoutes: int, k: nat, passes: seq<Surroundings>, i: nat)
    requires k <= Goal(all, maxRoutes) && i < |RunLog(all, maxRoutes, k, passes).0|
    requires forall j :: 0 <= j < |passes| ==> passes[j].crash || passes[j].checks.None?
    ensures var visits := RunLog(all, maxRoutes, k, passes).0[i].visits;
            visits != [] && CutShort(visits[|visits| - 1]) ==> !visits[|visits| - 1].counted
    decreases |passes|
  {
    var s := passes[0];
    var w := Walk(all, maxRoutes, k, s.checks, s, 0);
    if s.crash { CrashCutsUncounted(all, maxRoutes, k, s.checks, s, 0); }
    if s.checks.None? { UnstoppedCutsNothing(all, maxRoutes, k, s.checks, s, 0); }
    WalkFollows(all, maxRoutes, k, s.checks, s, 0);
    if i == 0 {
      assert RunLog(all, maxRoutes, k, passes).0[0].visits == w.visits;
    } else {
      var rest := RunLog(all, maxRoutes, k + Counted(w.visits), passes[1..]);
      assert RunLog(all, maxRoutes, k, passes).0[i] == rest.0[i - 1];
      forall j | 0 <= j < |passes[1..]| ensures passes[1..][j].crash || passes[1..][j].checks.None? {
        assert passes[1..][j] == passes[j + 1];
      }
      CrashedLog(all, maxRoutes, k + Counted(w.visits), passes[1..], i - 1);
    }
  }

  ghost predicate NoneCut(visits: seq<Visit>) { forall i :: 0 <= i < |visits| ==> !CutShort(visits[i]) }

  lemma {:induction false} UnstoppedCutsNothing(all: seq<Route>, maxRoutes: int, k: nat, left: Option<nat>, s: Surroundings, room: nat)
    requires k + room <= |all| && left.None?
    ensures NoneCut(Walk(all, maxRoutes, k, left, s, room).visits)
    decreases |all| - k, if room == 0 then 1 else 0
  {
    if !Capped(maxRoutes, k) {
      if room == 0 {
        if k < |all| { UnstoppedCutsNothing(all, maxRoutes, k, Less(left, 1), s, BatchSize(s.batch, |all| - k)); }
      } else {
        var n := |all[k].segments|;
        var after := Less(Less(left, 1), n);
        var next := if s.crash then Less(after, 1) else after;
        var rest := Walk(all, maxRoutes, k + 1, next, s, room - 1);
        UnstoppedCutsNothing(all, maxRoutes, k + 1, next, s, room - 1);
        assert Walk(all, maxRoutes, k, left, s, room).visits == [Visit(all[k], n, true)] + rest.visits;
      }
    }
  }

  /** Shutdowns lose nothing: a job that is stopped by nothing else, however often and wherever, has
      extracted every segment that does not fail once it is finished. */
  lemma ShutdownsLoseNothing(all: seq<Route>, maxRoutes: int, passes: seq<Surroundings>, q: nat, j: nat)
    requires DistinctIds(all) && RunLog(all, maxRoutes, 0, passes).1
    requires forall i :: 0 <= i < |passes| ==> passes[i].crash || passes[i].checks.None?
    requires q < (if 0 < maxRoutes < |all| then maxRoutes else |all|) && j < |all[q].segments|
    ensures var log := RunLog(all, maxRoutes, 0, passes).0;
            (all[q].id, all[q].segments[j]) in AllMarks({}, log)
            || exists i :: 0 <= i < |log| && (all[q].id, all[q].segments[j]) in log[i].broken
  {
    var log := RunLog(all, maxRoutes, 0, passes).0;
    FinishedExtractsIff(all, maxRoutes, passes, {});
    forall i | 0 <= i < |log| ensures !PausedOpen({}, log, Failing(log), i) { CrashedLog(all, maxRoutes, 0, passes, i); }
  }

  // ---------------------------------------------------------------- concrete runs

  /** A job paused at the third check, inside its only route, and resumed: it finishes with the second
      segment never extracted. */
  lemma PauseLosesSegment(r: Route)
    requires |r.segments| == 2 && r.segments[0] != r.segments[1]
    ensures var (log, finished) := RunLog([r], 0, 0, [Surroundings(Some(3), false, 0, {}), Surroundings(None, false, 0, {})]);
            finished && AllMarks({}, log) == {(r.id, r.segments[0])}
  {
    var pause, resume := Surroundings(Some(3), false, 0, {}), Surroundings(None, false, 0, {});
    assert Walk([r], 0, 0, Some(2), pause, 1) == Result([Visit(r, 1, true)], Stopped);
    assert Walk([r], 0, 0, Some(3), pause, 0) == Result([Visit(r, 1, true)], Stopped);
    assert Walk([r], 0, 1, None, resume, 0) == Result([], Finished);
    assert [pause, resume][1..] == [resume];
    assert RunLog([r], 0, 1, [resume]) == ([Logged([], {})], true);
    var log := [Logged([Visit(r, 1, true)], {})] + [Logged([], {})];
    assert [Visit(r, 1, true)][1..] == [] && Counted([Visit(r, 1, true)]) == 1;
    assert RunLog([r], 0, 0, [pause, resume]) == (log, true);
    assert log[1..] == [Logged([], {})] && log[1..][1..] == [];
    assert RouteMarks({}, r, 1, {}) == RouteMarks({}, r, 0, {}) + {(r.id, r.segments[0])};
    assert Marks({}, [Visit(r, 1, true)], {}) == RouteMarks({}, r, 1, {});
  }

  /** A segment that fails while its route is counted is not retried either: the next pass, in which
      it would succeed, does not come back to it. */
  lemma FailedSegmentNotRetried(r: Route)
    requires |r.segments| == 1
    ensures var p := (r.id, r.segments[0]);
            var (log, finished) := RunLog([r], 0, 0, [Surroundings(Some(3), false, 0, {p}), Surroundings(None, false, 0, {})]);
            finished && AllMarks({}, log) == {}
  {
    var p := (r.id, r.segments[0]);
    var first, resume := Surroundings(Some(3), false, 0, {p}), Surroundings(None, false, 0, {});
    assert Walk([r], 0, 1, Some(0), first, 0) == Result([], Stopped);
    assert [Visit(r, 1, true)] + [] == [Visit(r, 1, true)];
    assert Walk([r], 0, 0, Some(2), first, 1) == Result([Visit(r, 1, true)], Stopped);
    assert Walk([r], 0, 0, Some(3), first, 0) == Result([Visit(r, 1, true)], Stopped);
    assert Walk([r], 0, 1, None, resume, 0) == Result([], Finished);
    assert [first, resume][1..] == [resume];
    assert RunLog([r], 0, 1, [resume]) == ([Logged([], {})], true);
    var log := [Logged([Visit(r, 1, true)], {p})] + [Logged([], {})];
    assert [Visit(r, 1, true)][1..] == [] && Counted([Visit(r, 1, true)]) == 1;
    assert RunLog([r], 0, 0, [first, resume]) == (log, true);
    assert log[1..] == [Logged([], {})] && log[1..][1..] == [];
    assert RouteMarks({}, r, 1, {p}) == {};
    assert Marks({}, [Visit(r, 1, true)], {p}) == RouteMarks({}, r, 1, {p});
  }

  // ---------------------------------------------------------------- the total

  lemma TotalFits(f: BackfillJobs.Filters, count: nat)
    requires count < 0x8000_0000
    ensures TotalRoutes(f, count) == if 0 < f.maxRoutes < count then f.maxRoutes else count
  {}

  /** The total stored at the start is where the walk ends, provided the handler reads the filters
      as the worker does and the count fits the column. */
  lemma GoalIsTotal(table: seq<Route>, f: BackfillJobs.Filters, lt: Collation)
    requires TotalOrder(lt) && DistinctIds(table) && ValidRequest(f)
    requires f.dongle == "" || !Blank(f.dongle)
    requires |AllRoutes(table, f, lt)| < 0x8000_0000
    ensures Goal(AllRoutes(table, f, lt), f.maxRoutes) == TotalRoutes(f, CountBackfillRoutes(table, CountParams(f, ""), lt))
  {
    ReadersAgreeIff(f);
    TotalFits(f, |AllRoutes(table, f, lt)|);
    CountFiltersWalk(table, f, lt, "");
    Ordering.WhereAll(AllRoutes(table, f, lt), (r: Route) => Beyond(r.name, NonEmpty(""), lt, false));
  }

  /** The routes of a job have different ids, as the runs above ask. */
  lemma JobRoutesDistinct(table: seq<Route>, f: BackfillJobs.Filters, lt: Collation)
    requires TotalOrder(lt) && DistinctIds(table)
    ensures DistinctIds(AllRoutes(table, f, lt))
  {
    var all := AllRoutes(table, f, lt);
    AllRoutesSorted(table, f, lt);
    forall i, j | 0 <= i < j < |all| ensures all[i].id != all[j].id {
      assert Before(all[i], all[j], lt, f.newestFirst);
      assert all[i] in table && all[j] in table;
      var a :| 0 <= a < |table| && table[a] == all[i];
      var b :| 0 <= b < |table| && table[b] == all[j];
      assert a != b;
      if a < b { assert table[a].id != table[b].id; } else { assert table[b].id != table[a].id; }
    }
  }
}
