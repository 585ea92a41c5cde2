/**
  Encounter aggregation (internal/worker/alpr_aggregator.go): the detections of a route are
  grouped by plate, sorted by time, and cut wherever the pause exceeds the gap threshold.
*/
module Aggregator {
  import opened Common
  import Ordering
  import opened PlateTables
  import opened PlateMerge

  /** One detection of a bucket: its frame time and its row id, the sort tiebreak. */
  datatype Sighting = Sighting(ts: int, id: nat)

  predicate Before(a: Sighting, b: Sighting) { a.ts < b.ts || (a.ts == b.ts && a.id < b.id) }

  ghost predicate Sorted(group: seq<Sighting>) {
    forall i, j :: 0 <= i < j < |group| ==> Before(group[i], group[j])
  }

  datatype Run = Run(first: int, last: int, count: nat, maxGap: int)

  // ---------------------------------------------------------------- the cuts

  predicate Cut(group: seq<Sighting>, gap: int, i: nat)
    requires i < |group|
  { i == 0 || group[i].ts - group[i - 1].ts > gap }

  /** The positions at which an encounter starts, in order. */
  function Starts(group: seq<Sighting>, gap: int, n: nat): (starts: seq<nat>)
    requires n <= |group|
    ensures forall j :: 0 <= j < |starts| ==> starts[j] < n
    ensures forall j, k :: 0 <= j < k < |starts| ==> starts[j] < starts[k]
    ensures n > 0 ==> |starts| > 0 && starts[0] == 0
  {
    if n == 0 then [] else
      var before := Starts(group, gap, n - 1);
      if Cut(group, gap, n - 1) then before + [n - 1] else before
  }

  /** They are exactly the cuts. */
  lemma {:induction false} StartsAreCuts(group: seq<Sighting>, gap: int, n: nat, i: nat)
    requires n <= |group|
    ensures i in Starts(group, gap, n) <==> i < n && Cut(group, gap, i)
  {
    if n > 0 {
      StartsAreCuts(group, gap, n - 1, i);
      var before := Starts(group, gap, n - 1);
      assert i in before + [n - 1] <==> i in before || i == n - 1;
    }
  }

  function EndOf(starts: seq<nat>, j: nat, n: nat): nat
    requires j < |starts|
  { if j + 1 < |starts| then starts[j + 1] else n }

  /** The longest pause, in whole seconds, between neighbours of group[from..to]. */
  function MaxPause(group: seq<Sighting>, from: nat, to: nat): int
    requires from < to <= |group|
  {
    if to == from + 1 then 0
    else Max(MaxPause(group, from, to - 1), (group[to - 1].ts - group[to - 2].ts) / SECOND)
  }

  /** A stretch of sightings, summarised. */
  function RunOf(group: seq<Sighting>, from: nat, to: nat): Run
    requires from < to <= |group|
  {
    Run(group[from].ts, group[to - 1].ts, to - from, MaxPause(group, from, to))
  }

  /** The j-th stretch between two cuts of the first n sightings. */
  function RunAt(group: seq<Sighting>, gap: int, n: nat, j: nat): Run
    requires n <= |group| && j < |Starts(group, gap, n)|
  {
    RunOf(group, Starts(group, gap, n)[j], EndOf(Starts(group, gap, n), j, n))
  }

  function Runs(group: seq<Sighting>, gap: int, n: nat): (runs: seq<Run>)
    requires n <= |group|
    ensures |runs| == |Starts(group, gap, n)|
    ensures forall j :: 0 <= j < |runs| ==> runs[j] == RunAt(group, gap, n, j)
  {
    seq(|Starts(group, gap, n)|, j requires 0 <= j < |Starts(group, gap, n)| => RunAt(group, gap, n, j))
  }

  lemma FirstRun(group: seq<Sighting>, gap: int)
    requires |group| > 0
    ensures Runs(group, gap, 1) == [Run(group[0].ts, group[0].ts, 1, 0)]
  {
    assert Starts(group, gap, 1) == [0];
  }

  /** One more sighting leaves all but the last run alone, and the last one too if it opens a new one. */
  lemma EarlierRunSame(group: seq<Sighting>, gap: int, n: nat, j: nat)
    requires 0 < n < |group|
    requires j < |Starts(group, gap, n)| - (if Cut(group, gap, n) then 0 else 1)
    ensures RunAt(group, gap, n + 1, j) == RunAt(group, gap, n, j)
  {
    var (was, now) := (Starts(group, gap, n), Starts(group, gap, n + 1));
    assert now == if Cut(group, gap, n) then was + [n] else was;
    assert now[j] == was[j] && EndOf(now, j, n + 1) == EndOf(was, j, n);
  }

  lemma RunGrows(group: seq<Sighting>, from: nat, n: nat)
    requires from < n < |group|
    ensures var r := RunOf(group, from, n);
            RunOf(group, from, n + 1) == Run(r.first, group[n].ts, r.count + 1, Max(r.maxGap, (group[n].ts - group[n - 1].ts) / SECOND))
  {}

  lemma LastRunGrows(group: seq<Sighting>, gap: int, n: nat)
    requires 0 < n < |group| && !Cut(group, gap, n)
    ensures var (starts, j) := (Starts(group, gap, n), |Starts(group, gap, n)| - 1);
            && Starts(group, gap, n + 1) == starts
            && RunAt(group, gap, n, j) == RunOf(group, starts[j], n)
            && RunAt(group, gap, n + 1, j) == RunOf(group, starts[j], n + 1)
  {}

  lemma NewRun(group: seq<Sighting>, gap: int, n: nat)
    requires n < |group| && Cut(group, gap, n)
    ensures var j := |Starts(group, gap, n)|;
            && Starts(group, gap, n + 1) == Starts(group, gap, n) + [n]
            && RunAt(group, gap, n + 1, j) == Run(group[n].ts, group[n].ts, 1, 0)
  {}

  /** One more sighting opens a new run at a cut and extends the last run otherwise. */
  lemma RunsStep(group: seq<Sighting>, gap: int, n: nat, done: seq<Run>, last: Run)
    requires 0 < n < |group| && done + [last] == Runs(group, gap, n)
    ensures var delta := group[n].ts - group[n - 1].ts;
            Runs(group, gap, n + 1) ==
            if delta > gap then done + [last] + [Run(group[n].ts, group[n].ts, 1, 0)]
            else done + [Run(last.first, group[n].ts, last.count + 1, Max(last.maxGap, delta / SECOND))]
  {
    var (was, now) := (Runs(group, gap, n), Runs(group, gap, n + 1));
    var k := |done|;
    assert was[k] == last && was[..k] == done;
    forall j | 0 <= j < |was| - (if Cut(group, gap, n) then 0 else 1) ensures now[j] == was[j] {
      EarlierRunSame(group, gap, n, j);
    }
    if Cut(group, gap, n) {
      NewRun(group, gap, n);
      assert now == was + [now[k + 1]];
    } else {
      LastRunGrows(group, gap, n);
      RunGrows(group, Starts(group, gap, n)[k], n);
      assert now == done + [now[k]];
    }
  }

  /** encountersForPlateBucket: one pass over a plate's sightings yields exactly the maximal
      stretches without a pause longer than the gap. */
  method EncountersForPlateBucket(group: seq<Sighting>, gap: int) returns (out: seq<Run>)
    requires Sorted(group)
    ensures out == Runs(group, gap, |group|)
  {
    if |group| == 0 { return []; }
    out := [];
    var current := Run(group[0].ts, group[0].ts, 1, 0);
    var prevTs := group[0].ts;
    FirstRun(group, gap);
    ghost var runs := Runs(group, gap, 1);
    for i := 1 to |group|
      invariant prevTs == group[i - 1].ts
      invariant out + [current] == runs == Runs(group, gap, i)
    {
      RunsStep(group, gap, i, out, current);
      runs := Runs(group, gap, i + 1);
      var ts := group[i].ts;
      var delta := ts - prevTs;
      if delta > gap {
        out := out + [current];
        current := Run(ts, ts, 1, 0);
      } else {
        var gapSec := delta / SECOND;
        current := Run(current.first, ts, current.count + 1,
                       if gapSec > current.maxGap then gapSec else current.maxGap);
      }
      prevTs := ts;
    }
    out := out + [current];
  }

  function TotalCount(group: seq<Sighting>, gap: int, k: nat): nat
    requires k <= |Starts(group, gap, |group|)|
  {
    if k == 0 then 0 else TotalCount(group, gap, k - 1) + RunAt(group, gap, |group|, k - 1).count
  }

  /** The detection counts of a plate's encounters add up to its detections: none is counted
      twice and none is dropped. */
  lemma {:induction false} CountsConserved(group: seq<Sighting>, gap: int, k: nat)
    requires k <= |Starts(group, gap, |group|)|
    ensures TotalCount(group, gap, k) ==
            if k == |Starts(group, gap, |group|)| then |group| else Starts(group, gap, |group|)[k]
  {
    var starts := Starts(group, gap, |group|);
    if k > 0 {
      CountsConserved(group, gap, k - 1);
    }
  }

  // ---------------------------------------------------------------- the encounters of a route

  function Insert(x: Sighting, s: seq<Sighting>): (r: seq<Sighting>)
    requires Sorted(s) && x !in s
    ensures Sorted(r) && forall y :: y in r <==> y == x || y in s
    ensures |r| == |s| + 1
  {
    if s == [] || Before(x, s[0]) then [x] + s
    else
      assert s == [s[0]] + s[1..];
      var rest := Insert(x, s[1..]);
      assert forall y :: y in s[1..] ==> Before(s[0], y);
      assert x != s[0];
      assert forall j :: 0 <= j < |rest| ==> rest[j] in rest && Before(s[0], rest[j]);
      [s[0]] + rest
  }

  /** sort.Slice on a bucket. */
  ghost function Listing(bucket: set<Sighting>): (s: seq<Sighting>)
    ensures Sorted(s) && |s| == |bucket| && forall x :: x in s <==> x in bucket
  {
    if bucket == {} then [] else
      var x :| x in bucket;
      Insert(x, Listing(bucket - {x}))
  }

  ghost function Bucket(ds: Detections, k: RouteKey, h: Hash): set<Sighting> {
    set id | id in ds && ds[id].hash == h && RouteKey(ds[id].dongle, ds[id].route) == k :: Sighting(ds[id].frameTs, id)
  }

  ghost function Group(ds: Detections, k: RouteKey, h: Hash): seq<Sighting> {
    Listing(Bucket(ds, k, h))
  }

  /** Turn counts come from another table: turns(k, first, last) is CountTurnsInWindow. */
  type Turns = (RouteKey, int, int) -> int

  ghost function EncounterOf(k: RouteKey, h: Hash, r: Run, turns: Turns, status: EncounterStatus): Encounter {
    Encounter(k.dongle, k.route, h, r.first, r.last, r.count, turns(k, r.first, r.last), r.maxGap, status)
  }

  ghost predicate IsEncounter(group: seq<Sighting>, k: RouteKey, gap: int, turns: Turns, e: Encounter, j: nat) {
    j < |Starts(group, gap, |group|)| && e == EncounterOf(k, e.hash, RunAt(group, gap, |group|, j), turns, e.status)
  }

  /** computeEncounters over the detections of route k; the status is up to the writer. */
  ghost predicate Aggregates(ds: Detections, k: RouteKey, gap: int, turns: Turns, e: Encounter) {
    exists j: nat :: IsEncounter(Group(ds, k, e.hash), k, gap, turns, e, j)
  }

  /** The j-th run spans the sightings from its start to the next, and its window reaches from the
      first of them to the last. */
  lemma RunWindow(group: seq<Sighting>, gap: int, j: nat) returns (s: nat, t: nat)
    requires j < |Starts(group, gap, |group|)|
    ensures s < t <= |group| && s == Starts(group, gap, |group|)[j] && t == EndOf(Starts(group, gap, |group|), j, |group|)
    ensures var r := RunAt(group, gap, |group|, j); r.first == group[s].ts && r.last == group[t - 1].ts
  {
    s, t := Starts(group, gap, |group|)[j], EndOf(Starts(group, gap, |group|), j, |group|);
  }

  lemma Ordered(group: seq<Sighting>, i: nat, j: nat)
    requires Sorted(group) && i <= j < |group|
    ensures group[i].ts <= group[j].ts
  {
    if i < j { assert Before(group[i], group[j]); }
  }

  lemma GroupMember(ds: Detections, k: RouteKey, h: Hash, p: nat)
    requires p < |Group(ds, k, h)|
    ensures var d := Group(ds, k, h)[p];
            d.id in ds && ds[d.id].frameTs == d.ts && ds[d.id].hash == h && RouteKey(ds[d.id].dongle, ds[d.id].route) == k
  {
    assert Group(ds, k, h)[p] in Bucket(ds, k, h);
  }

  /** An aggregated encounter always has a detection of its plate inside its window. */
  lemma AggregateHasEvidence(ds: Detections, k: RouteKey, gap: int, turns: Turns, e: Encounter)
    requires Aggregates(ds, k, gap, turns, e)
    ensures HasEvidence(ds, e)
  {
    var group := Group(ds, k, e.hash);
    var j: nat :| IsEncounter(group, k, gap, turns, e, j);
    var s, t := RunWindow(group, gap, j);
    Ordered(group, s, t - 1);
    GroupMember(ds, k, e.hash, s);
    assert Supports(ds[group[s].id], e);
  }

  /** Distinct encounters of a route differ in the unique key, as long as the gap is not negative. */
  lemma AggregateKeysDistinct(ds: Detections, k: RouteKey, gap: int, turns: Turns, a: Encounter, b: Encounter)
    requires gap >= 0
    requires Aggregates(ds, k, gap, turns, a) && Aggregates(ds, k, gap, turns, b) && SameEncounterKey(a, b)
    ensures a == b.(status := a.status)
  {
    var group := Group(ds, k, a.hash);
    var i: nat :| IsEncounter(group, k, gap, turns, a, i);
    var j: nat :| IsEncounter(group, k, gap, turns, b, j);
    RunFields(group, k, gap, turns, a, i);
    RunFields(group, k, gap, turns, b, j);
    RunForward(group, gap, i);
    RunForward(group, gap, j);
    if i != j { AnyRunsApart(group, gap, i, j); }
  }

  lemma RunFields(group: seq<Sighting>, k: RouteKey, gap: int, turns: Turns, e: Encounter, j: nat)
    requires IsEncounter(group, k, gap, turns, e, j)
    ensures var r := RunAt(group, gap, |group|, j); e.firstSeen == r.first && e.lastSeen == r.last
  {}

  lemma RunForward(group: seq<Sighting>, gap: int, j: nat)
    requires Sorted(group) && j < |Starts(group, gap, |group|)|
    ensures RunAt(group, gap, |group|, j).first <= RunAt(group, gap, |group|, j).last
  {
    var s, t := RunWindow(group, gap, j);
    Ordered(group, s, t - 1);
  }

  /** Between two runs lies a pause longer than the gap. */
  lemma RunsApart(group: seq<Sighting>, gap: int, i: nat, j: nat)
    requires Sorted(group) && i < j < |Starts(group, gap, |group|)|
    ensures RunAt(group, gap, |group|, j).first - RunAt(group, gap, |group|, i).last > gap
  {
    var s, t := RunWindow(group, gap, i);
    var u, v := RunWindow(group, gap, j);
    EndBeforeStart(Starts(group, gap, |group|), i, j, |group|);
    CutBefore(group, gap, u);
    Ordered(group, t - 1, u - 1);
  }

  lemma EndBeforeStart(starts: seq<nat>, i: nat, j: nat, n: nat)
    requires i < j < |starts| && forall a, b :: 0 <= a < b < |starts| ==> starts[a] < starts[b]
    ensures EndOf(starts, i, n) <= starts[j]
  {}

  lemma CutBefore(group: seq<Sighting>, gap: int, u: nat)
    requires 0 < u < |group| && u in Starts(group, gap, |group|)
    ensures group[u].ts - group[u - 1].ts > gap
  {
    StartsAreCuts(group, gap, |group|, u);
  }

  lemma AnyRunsApart(group: seq<Sighting>, gap: int, i: nat, j: nat)
    requires Sorted(group) && i < |Starts(group, gap, |group|)| && j < |Starts(group, gap, |group|)| && i != j
    ensures RunAt(group, gap, |group|, j).first - RunAt(group, gap, |group|, i).last > gap
            || RunAt(group, gap, |group|, i).first - RunAt(group, gap, |group|, j).last > gap
  {
    if i < j { RunsApart(group, gap, i, j); } else { RunsApart(group, gap, j, i); }
  }

  /** The windows of two encounters of one plate on one route are more than the gap apart. */
  lemma AggregatesApart(ds: Detections, k: RouteKey, gap: int, turns: Turns, a: Encounter, b: Encounter)
    requires Aggregates(ds, k, gap, turns, a) && Aggregates(ds, k, gap, turns, b)
    requires a.hash == b.hash && a.firstSeen != b.firstSeen
    ensures a.firstSeen - b.lastSeen > gap || b.firstSeen - a.lastSeen > gap
  {
    var group := Group(ds, k, a.hash);
    var i: nat :| IsEncounter(group, k, gap, turns, a, i);
    var j: nat :| IsEncounter(group, k, gap, turns, b, j);
    RunFields(group, k, gap, turns, a, i);
    RunFields(group, k, gap, turns, b, j);
    AnyRunsApart(group, gap, i, j);
  }

  /** Every detection lies in the window of an encounter of its own plate and route. */
  lemma DetectionsCovered(ds: Detections, k: RouteKey, gap: int, turns: Turns, id: nat) returns (e: Encounter)
    requires id in ds && k == RouteKey(ds[id].dongle, ds[id].route)
    ensures Aggregates(ds, k, gap, turns, e) && Supports(ds[id], e)
  {
    var h := ds[id].hash;
    var group := Group(ds, k, h);
    assert Sighting(ds[id].frameTs, id) in Bucket(ds, k, h);
    var p :| 0 <= p < |group| && group[p] == Sighting(ds[id].frameTs, id);
    var j := LastStart(Starts(group, gap, |group|), p);
    e := EncounterOf(k, h, RunAt(group, gap, |group|, j), turns, StatusActive);
    assert IsEncounter(group, k, gap, turns, e, j);
    PositionInRun(group, gap, p, j);
  }

  lemma PositionInRun(group: seq<Sighting>, gap: int, p: nat, j: nat)
    requires Sorted(group) && p < |group| && j < |Starts(group, gap, |group|)|
    requires var starts := Starts(group, gap, |group|); starts[j] <= p && (j + 1 < |starts| ==> p < starts[j + 1])
    ensures RunAt(group, gap, |group|, j).first <= group[p].ts <= RunAt(group, gap, |group|, j).last
  {
    var s, t := RunWindow(group, gap, j);
    Ordered(group, s, p);
    Ordered(group, p, t - 1);
  }

  lemma LastStart(starts: seq<nat>, p: nat) returns (j: nat)
    requires |starts| > 0 && starts[0] <= p
    ensures j < |starts| && starts[j] <= p && (j + 1 < |starts| ==> p < starts[j + 1])
  {
    j := 0;
    while j + 1 < |starts| && starts[j + 1] <= p
      invariant j < |starts| && starts[j] <= p
    {
      j := j + 1;
    }
  }

  // ---------------------------------------------------------------- encounters without an order

  /** From one sighting to the next no pause is longer than the gap. */
  ghost predicate Linked(r: seq<Sighting>, gap: int) { forall i :: 0 < i < |r| ==> Joined(r, gap, i) }

  predicate Joined(r: seq<Sighting>, gap: int, i: nat)
    requires 0 < i < |r|
  { r[i].ts - r[i - 1].ts <= gap }

  ghost predicate FarFrom(x: Sighting, r: seq<Sighting>, gap: int)
    requires r != []
  { x.ts - r[|r| - 1].ts > gap || r[0].ts - x.ts > gap }

  /** A linked stretch of a bucket that everything else in the bucket is far from. */
  ghost predicate Stretch(bucket: set<Sighting>, gap: int, r: seq<Sighting>) {
    && r != [] && Sorted(r) && Linked(r, gap)
    && (forall x :: x in r ==> x in bucket)
    && (forall x :: x in bucket && x !in r ==> FarFrom(x, r, gap))
  }

  function Summary(r: seq<Sighting>): Run
    requires r != []
  { RunOf(r, 0, |r|) }

  lemma {:induction false} SlicePause(group: seq<Sighting>, s: nat, t: nat, n: nat)
    requires s < n <= t <= |group|
    ensures MaxPause(group[s..t], 0, n - s) == MaxPause(group, s, n)
    decreases n
  {
    if n > s + 1 { SlicePause(group, s, t, n - 1); }
  }

  lemma NoCutInside(group: seq<Sighting>, gap: int, j: nat, p: nat)
    requires j < |Starts(group, gap, |group|)|
    requires Starts(group, gap, |group|)[j] < p < EndOf(Starts(group, gap, |group|), j, |group|)
    ensures Joined(group, gap, p)
  {
    StartsAreCuts(group, gap, |group|, p);
    NoStartInside(Starts(group, gap, |group|), j, p, |group|);
  }

  lemma NoStartInside(starts: seq<nat>, j: nat, p: nat, n: nat)
    requires j < |starts| && (forall a, b :: 0 <= a < b < |starts| ==> starts[a] < starts[b])
    requires starts[j] < p < EndOf(starts, j, n)
    ensures p !in starts
  {
    forall i | 0 <= i < |starts| ensures starts[i] != p {
      if i < j { assert starts[i] < starts[j]; }
      if j + 1 < i { assert starts[j + 1] < starts[i]; }
    }
  }

  /** What lies before or behind a run is further away than the gap. */
  lemma OutsideRunIsFar(group: seq<Sighting>, gap: int, j: nat, s: nat, t: nat, p: nat)
    requires Sorted(group) && j < |Starts(group, gap, |group|)| && p < |group|
    requires s == Starts(group, gap, |group|)[j] && t == EndOf(Starts(group, gap, |group|), j, |group|)
    ensures p < s ==> group[s].ts - group[p].ts > gap
    ensures t <= p ==> group[p].ts - group[t - 1].ts > gap
  {
    if p < s {
      CutBefore(group, gap, s);
      Ordered(group, p, s - 1);
    } else if t <= p {
      CutBefore(group, gap, t);
      Ordered(group, t, p);
    }
  }

  lemma SliceIsStretch(bucket: set<Sighting>, group: seq<Sighting>, gap: int, s: nat, t: nat)
    requires Sorted(group) && (forall x :: x in group <==> x in bucket) && s < t <= |group|
    requires forall p :: s < p < t ==> Joined(group, gap, p)
    requires forall p :: 0 <= p < s ==> group[s].ts - group[p].ts > gap
    requires forall p :: t <= p < |group| ==> group[p].ts - group[t - 1].ts > gap
    ensures Stretch(bucket, gap, group[s..t])
  {
    var r := group[s..t];
    forall i | 0 < i < |r| ensures Joined(r, gap, i) { assert Joined(group, gap, s + i); }
    assert r[0] == group[s] && r[|r| - 1] == group[t - 1];
    forall p | s <= p < t ensures group[p] in r { assert r[p - s] == group[p]; }
    forall x | x in bucket && x !in r ensures FarFrom(x, r, gap) {
      assert x in group;
      var p :| 0 <= p < |group| && group[p] == x;
      assert p < s || t <= p;
    }
    forall x | x in r ensures x in bucket {
      var i :| 0 <= i < |r| && r[i] == x;
      assert group[s + i] == x;
    }
  }

  lemma SliceSummary(group: seq<Sighting>, gap: int, j: nat, s: nat, t: nat)
    requires j < |Starts(group, gap, |group|)|
    requires s == Starts(group, gap, |group|)[j] && t == EndOf(Starts(group, gap, |group|), j, |group|)
    ensures s < t <= |group| && Summary(group[s..t]) == RunAt(group, gap, |group|, j)
  {
    SlicePause(group, s, t, t);
  }

  /** Each run of a sorted bucket is a stretch of it. */
  lemma RunIsStretch(bucket: set<Sighting>, group: seq<Sighting>, gap: int, j: nat, s: nat, t: nat)
    requires Sorted(group) && (forall x :: x in group <==> x in bucket) && j < |Starts(group, gap, |group|)|
    requires s == Starts(group, gap, |group|)[j] && t == EndOf(Starts(group, gap, |group|), j, |group|)
    ensures s < t <= |group| && Stretch(bucket, gap, group[s..t])
  {
    forall p | s < p < t ensures Joined(group, gap, p) { NoCutInside(group, gap, j, p); }
    forall p | 0 <= p < |group| ensures (p < s ==> group[s].ts - group[p].ts > gap) && (t <= p ==> group[p].ts - group[t - 1].ts > gap) {
      OutsideRunIsFar(group, gap, j, s, t, p);
    }
    SliceIsStretch(bucket, group, gap, s, t);
  }

  /** A stretch that meets another lies within it. */
  lemma {:induction false} StretchWithin(bucket: set<Sighting>, gap: int, a: seq<Sighting>, b: seq<Sighting>, i: nat, m: nat)
    requires gap >= 0 && Stretch(bucket, gap, a) && Stretch(bucket, gap, b)
    requires i < |a| && m < |a| && a[i] in b
    ensures a[m] in b
    decreases if i < m then m - i else i - m
  {
    if i != m {
      var next := if i < m then i + 1 else i - 1;
      var lo := if i < m then i else next;
      assert Before(a[lo], a[lo + 1]) && Joined(a, gap, lo + 1);
      BetweenEnds(b, a[i]);
      assert a[next] in b;
      StretchWithin(bucket, gap, a, b, next, m);
    }
  }

  lemma BetweenEnds(r: seq<Sighting>, x: Sighting)
    requires Sorted(r) && x in r
    ensures r[0].ts <= x.ts <= r[|r| - 1].ts
  {
    var i :| 0 <= i < |r| && r[i] == x;
    Ordered(r, 0, i);
    Ordered(r, i, |r| - 1);
  }

  /** So two stretches that meet are the same. */
  lemma StretchesMeet(bucket: set<Sighting>, gap: int, a: seq<Sighting>, b: seq<Sighting>, x: Sighting)
    requires gap >= 0 && Stretch(bucket, gap, a) && Stretch(bucket, gap, b) && x in a && x in b
    ensures a == b
  {
    var i :| 0 <= i < |a| && a[i] == x;
    var j :| 0 <= j < |b| && b[j] == x;
    forall m | 0 <= m < |a| ensures a[m] in b { StretchWithin(bucket, gap, a, b, i, m); }
    forall m | 0 <= m < |b| ensures b[m] in a { StretchWithin(bucket, gap, b, a, j, m); }
    Ordering.SortedSame(a, b, Before);
  }

  /** Every stretch of a sorted bucket is one of its runs. */
  lemma StretchIsRun(bucket: set<Sighting>, group: seq<Sighting>, gap: int, r: seq<Sighting>) returns (j: nat)
    requires gap >= 0 && Sorted(group) && (forall x :: x in group <==> x in bucket) && Stretch(bucket, gap, r)
    ensures j < |Starts(group, gap, |group|)| && Summary(r) == RunAt(group, gap, |group|, j)
  {
    assert r[0] in group;
    var p :| 0 <= p < |group| && group[p] == r[0];
    j := LastStart(Starts(group, gap, |group|), p);
    var s, t := RunWindow(group, gap, j);
    RunIsStretch(bucket, group, gap, j, s, t);
    SliceSummary(group, gap, j, s, t);
    assert group[s..t][p - s] == r[0];
    StretchesMeet(bucket, gap, r, group[s..t], r[0]);
  }

  /** The encounter e summarises this stretch of its plate's detections on the route. */
  ghost predicate Summarises(ds: Detections, k: RouteKey, gap: int, turns: Turns, e: Encounter, r: seq<Sighting>) {
    Stretch(Bucket(ds, k, e.hash), gap, r) && e == EncounterOf(k, e.hash, Summary(r), turns, e.status)
  }

  /** What the loop over sorted buckets computes, said without any order of the detections: the
      encounters of a route are the summaries of its stretches. */
  lemma AggregatesIff(ds: Detections, k: RouteKey, gap: int, turns: Turns, e: Encounter)
    requires gap >= 0
    ensures Aggregates(ds, k, gap, turns, e) <==> exists r :: Summarises(ds, k, gap, turns, e, r)
  {
    var (bucket, group) := (Bucket(ds, k, e.hash), Group(ds, k, e.hash));
    if Aggregates(ds, k, gap, turns, e) {
      var j: nat :| IsEncounter(group, k, gap, turns, e, j);
      var s, t := RunWindow(group, gap, j);
      RunIsStretch(bucket, group, gap, j, s, t);
      SliceSummary(group, gap, j, s, t);
      assert Summarises(ds, k, gap, turns, e, group[s..t]);
    }
    if r :| Summarises(ds, k, gap, turns, e, r) {
      var j := StretchIsRun(bucket, group, gap, r);
      assert IsEncounter(group, k, gap, turns, e, j);
    }
  }

  /** An encounter, column by column, made of these detections: they are of its plate and route, in
      order of time, with no pause longer than the gap, and every other detection of the plate on the
      route is further than the gap before the first or after the last. */
  ghost predicate MadeOf(ds: Detections, k: RouteKey, gap: int, turns: Turns, e: Encounter, r: seq<Sighting>) {
    Together(ds, k, gap, e.hash, r) && Sums(k, turns, e, r)
  }

  ghost predicate Together(ds: Detections, k: RouteKey, gap: int, h: Hash, r: seq<Sighting>) {
    && r != []
    && (forall i :: 0 <= i < |r| ==> Seen(ds, k, h, r[i]))
    && (forall i, j :: 0 <= i < j < |r| ==> r[i].ts < r[j].ts || (r[i].ts == r[j].ts && r[i].id < r[j].id))
    && (forall i :: 0 < i < |r| ==> Pause(r, i) <= gap)
    && (forall x :: Seen(ds, k, h, x) && x !in r ==> x.ts > r[|r| - 1].ts + gap || x.ts < r[0].ts - gap)
  }

  ghost predicate Sums(k: RouteKey, turns: Turns, e: Encounter, r: seq<Sighting>)
    requires r != []
  {
    && e.dongle == k.dongle && e.route == k.route && e.firstSeen == r[0].ts && e.lastSeen == r[|r| - 1].ts && e.count == |r|
    && e.turns == turns(k, r[0].ts, r[|r| - 1].ts)
    && (forall i :: 0 < i < |r| ==> Pause(r, i) / 1_000_000_000 <= e.maxGap)
    && if |r| == 1 then e.maxGap == 0 else exists i :: 0 < i < |r| && e.maxGap == Pause(r, i) / 1_000_000_000
  }

  /** The detection behind a sighting. */
  predicate Seen(ds: Detections, k: RouteKey, h: Hash, x: Sighting) {
    x.id in ds && ds[x.id].frameTs == x.ts && ds[x.id].hash == h && ds[x.id].dongle == k.dongle && ds[x.id].route == k.route
  }

  function Pause(r: seq<Sighting>, i: nat): int
    requires 0 < i < |r|
  { r[i].ts - r[i - 1].ts }

  lemma {:induction false} MaxPauseIs(r: seq<Sighting>, n: nat)
    requires Sorted(r) && 0 < n <= |r|
    ensures forall i :: 0 < i < n ==> Pause(r, i) / 1_000_000_000 <= MaxPause(r, 0, n)
    ensures if n == 1 then MaxPause(r, 0, n) == 0 else exists i :: 0 < i < n && MaxPause(r, 0, n) == Pause(r, i) / 1_000_000_000
    decreases n
  {
    if n > 1 {
      MaxPauseIs(r, n - 1);
      assert Before(r[n - 2], r[n - 1]);
      assert Pause(r, n - 1) == r[n - 1].ts - r[n - 2].ts;
      if n > 2 && MaxPause(r, 0, n) != Pause(r, n - 1) / 1_000_000_000 {
        var i :| 0 < i < n - 1 && MaxPause(r, 0, n - 1) == Pause(r, i) / 1_000_000_000;
      }
    }
  }

  lemma SeenIs(ds: Detections, k: RouteKey, h: Hash, x: Sighting)
    ensures Seen(ds, k, h, x) <==> x in Bucket(ds, k, h)
  {}

  lemma MadeOfIff(ds: Detections, k: RouteKey, gap: int, turns: Turns, e: Encounter, r: seq<Sighting>)
    requires gap >= 0
    ensures MadeOf(ds, k, gap, turns, e, r) <==> Summarises(ds, k, gap, turns, e, r)
  {
    TogetherIff(ds, k, gap, e.hash, r);
    if r != [] && Sorted(r) { SumsIff(k, turns, e, r); }
  }

  lemma TogetherIff(ds: Detections, k: RouteKey, gap: int, h: Hash, r: seq<Sighting>)
    ensures Together(ds, k, gap, h, r) <==> Stretch(Bucket(ds, k, h), gap, r)
  {
    var bucket := Bucket(ds, k, h);
    forall x { SeenIs(ds, k, h, x); }
    if r != [] && Sorted(r) {
      LinkedIs(r, gap);
      assert (forall x :: x in r ==> x in bucket) <==> forall i :: 0 <= i < |r| ==> Seen(ds, k, h, r[i]);
    }
  }

  lemma SumsIff(k: RouteKey, turns: Turns, e: Encounter, r: seq<Sighting>)
    requires r != [] && Sorted(r)
    ensures Sums(k, turns, e, r) <==> e == EncounterOf(k, e.hash, Summary(r), turns, e.status)
  {
    MaxPauseIs(r, |r|);
    assert Summary(r) == Run(r[0].ts, r[|r| - 1].ts, |r|, MaxPause(r, 0, |r|));
  }

  lemma LinkedIs(r: seq<Sighting>, gap: int)
    ensures Linked(r, gap) <==> forall i :: 0 < i < |r| ==> Pause(r, i) <= gap
  {
    if forall i :: 0 < i < |r| ==> Pause(r, i) <= gap {
      forall i | 0 < i < |r| ensures Joined(r, gap, i) { assert Pause(r, i) <= gap; }
    }
    if Linked(r, gap) {
      forall i | 0 < i < |r| ensures Pause(r, i) <= gap { assert Joined(r, gap, i); }
    }
  }

  /** The encounters of a route, column by column. */
  lemma EncountersAre(ds: Detections, k: RouteKey, gap: int, turns: Turns, e: Encounter)
    requires gap >= 0
    ensures Aggregates(ds, k, gap, turns, e) <==> exists r :: MadeOf(ds, k, gap, turns, e, r)
  {
    AggregatesIff(ds, k, gap, turns, e);
    forall r { MadeOfIff(ds, k, gap, turns, e, r); }
  }
}
