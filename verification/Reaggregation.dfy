/**
  Tables in step with the aggregator (internal/worker/alpr_aggregator.go: persist), and what the re-runs that
  follow a merge or a correction (internal/api/alpr_corrections.go) do and do not put right.
*/
module Reaggregation {
  import opened Common
  import opened PlateTables
  import opened PlateMerge
  import opened PlateStore
  import opened Aggregator
  import opened Retention

  // ---------------------------------------------------------------- tables in step with detections

  /** The route has a row like e, whatever its status. */
  ghost predicate Shows(t: Encounters, k: RouteKey, e: Encounter) {
    exists s :: OnRoute(t, k, e.(status := s))
  }

  ghost predicate RouteInSync(db: Tables, k: RouteKey, gap: int, turns: Turns) {
    forall e :: Shows(db.encounters, k, e) <==> Aggregates(db.detections, k, gap, turns, e)
  }

  ghost predicate InSync(db: Tables, gap: int, turns: Turns) {
    forall k :: RouteInSync(db, k, gap, turns)
  }

  predicate HasDetections(ds: Detections, k: RouteKey) {
    exists id :: id in ds && RouteKey(ds[id].dongle, ds[id].route) == k
  }

  /** A route has something to write exactly when it has a detection. */
  lemma SomethingToWriteIff(ds: Detections, k: RouteKey, gap: int, turns: Turns)
    ensures (exists e :: Aggregates(ds, k, gap, turns, e)) <==> HasDetections(ds, k)
  {
    if HasDetections(ds, k) {
      var id :| id in ds && RouteKey(ds[id].dongle, ds[id].route) == k;
      var e := DetectionsCovered(ds, k, gap, turns, id);
    }
    if e :| Aggregates(ds, k, gap, turns, e) {
      var group := Group(ds, k, e.hash);
      var j: nat :| IsEncounter(group, k, gap, turns, e, j);
      var s, t := RunWindow(group, gap, j);
      GroupMember(ds, k, e.hash, s);
    }
  }

  /** A re-run of the aggregator that meets no outside failure goes through for a route exactly when
      it has nothing to write or the status it writes is admitted. */
  ghost predicate GoesThrough(ds: Detections, k: RouteKey, written: EncounterStatus) {
    StatusAllowed(written) || !HasDetections(ds, k)
  }

  ghost predicate Rewritten(db: Tables, k: RouteKey, gap: int, turns: Turns, written: EncounterStatus) {
    forall e :: OnRoute(db.encounters, k, e) <==> e.status == written && Aggregates(db.detections, k, gap, turns, e)
  }

  ghost predicate SameRows(a: Tables, b: Tables, k: RouteKey) {
    forall e :: OnRoute(a.encounters, k, e) <==> OnRoute(b.encounters, k, e)
  }

  /** The aggregator re-ran over these routes, writing this status. */
  ghost predicate Reaggregated(before: Tables, after: Tables, routes: seq<RouteKey>, gap: int, turns: Turns,
                               written: EncounterStatus) {
    && after.detections == before.detections
    && forall k :: if k in routes && GoesThrough(before.detections, k, written)
                   then Rewritten(after, k, gap, turns, written) else SameRows(before, after, k)
  }

  /** One re-run does that to the store, and reports whether the route went through. */
  method ReaggregateRoute(store: Store, k: RouteKey, computed: seq<Encounter>, written: EncounterStatus, gap: int, ghost turns: Turns)
    returns (ok: bool)
    requires store.Valid() && gap >= 0 && NoDuplicates(computed)
    requires forall e :: e in computed <==> e.status == written && Aggregates(store.detections, k, gap, turns, e)
    modifies store`encounters, store`nextEncounter
    ensures store.Valid()
    ensures ok <==> GoesThrough(store.detections, k, written)
    ensures Reaggregated(old(store.Db()), store.Db(), [k], gap, turns, written)
  {
    ComputedFitsRoute(store.detections, k, computed, written, gap, turns);
    ok := store.PersistEncounters(k, computed, written, {});
  }

  lemma ComputedFitsRoute(ds: Detections, k: RouteKey, computed: seq<Encounter>, written: EncounterStatus, gap: int, turns: Turns)
    requires gap >= 0 && NoDuplicates(computed)
    requires forall e :: e in computed <==> e.status == written && Aggregates(ds, k, gap, turns, e)
    ensures forall i :: 0 <= i < |computed| ==> RouteKey(computed[i].dongle, computed[i].route) == k && computed[i].status == written
    ensures forall i, j :: 0 <= i < j < |computed| ==> !SameEncounterKey(computed[i], computed[j])
    ensures computed == [] <==> !HasDetections(ds, k)
  {
    forall i | 0 <= i < |computed| ensures RouteKey(computed[i].dongle, computed[i].route) == k && computed[i].status == written {
      assert computed[i] in computed;
    }
    forall i, j | 0 <= i < j < |computed| ensures !SameEncounterKey(computed[i], computed[j]) {
      assert computed[i] in computed && computed[j] in computed;
      if SameEncounterKey(computed[i], computed[j]) {
        AggregateKeysDistinct(ds, k, gap, turns, computed[i], computed[j]);
      }
    }
    SomethingToWriteIff(ds, k, gap, turns);
    assert computed != [] ==> computed[0] in computed;
    if HasDetections(ds, k) {
      var e :| Aggregates(ds, k, gap, turns, e);
      var f := e.(status := written);
      AnyStatus(ds, k, gap, turns, e, written);
      assert f in computed;
    }
  }

  lemma AnyStatus(ds: Detections, k: RouteKey, gap: int, turns: Turns, e: Encounter, s: EncounterStatus)
    requires Aggregates(ds, k, gap, turns, e)
    ensures Aggregates(ds, k, gap, turns, e.(status := s))
  {
    var j: nat :| IsEncounter(Group(ds, k, e.hash), k, gap, turns, e, j);
    assert IsEncounter(Group(ds, k, e.hash), k, gap, turns, e.(status := s), j);
  }

  lemma RewrittenIsInSync(db: Tables, k: RouteKey, gap: int, turns: Turns, written: EncounterStatus)
    requires Rewritten(db, k, gap, turns, written)
    ensures RouteInSync(db, k, gap, turns)
  {
    forall e ensures Shows(db.encounters, k, e) <==> Aggregates(db.detections, k, gap, turns, e) {
      if Aggregates(db.detections, k, gap, turns, e) {
        AnyStatus(db.detections, k, gap, turns, e, written);
        assert OnRoute(db.encounters, k, e.(status := written));
      }
      if Shows(db.encounters, k, e) {
        var s :| OnRoute(db.encounters, k, e.(status := s));
        AnyStatus(db.detections, k, gap, turns, e.(status := s), e.status);
        assert e.(status := s).(status := e.status) == e;
      }
    }
  }

  /** Tables in step with their detections have no orphan encounter. */
  lemma SyncedIsEvidenced(db: Tables, gap: int, turns: Turns)
    requires InSync(db, gap, turns)
    ensures Evidenced(db)
  {
    forall id | id in db.encounters ensures HasEvidence(db.detections, db.encounters[id]) {
      var e := db.encounters[id];
      var k := RouteKey(e.dongle, e.route);
      assert RouteInSync(db, k, gap, turns);
      assert OnRoute(db.encounters, k, e.(status := e.status));
      AggregateHasEvidence(db.detections, k, gap, turns, e);
    }
  }

  lemma SameRouteSameAggregate(a: Tables, b: Tables, k: RouteKey, gap: int, turns: Turns)
    requires forall h :: Bucket(a.detections, k, h) == Bucket(b.detections, k, h)
    requires SameRows(a, b, k)
    ensures RouteInSync(a, k, gap, turns) <==> RouteInSync(b, k, gap, turns)
  {
    forall e ensures Aggregates(a.detections, k, gap, turns, e) <==> Aggregates(b.detections, k, gap, turns, e) {
      assert Group(a.detections, k, e.hash) == Group(b.detections, k, e.hash);
    }
    forall e ensures Shows(a.encounters, k, e) <==> Shows(b.encounters, k, e) {
      assert forall s :: OnRoute(a.encounters, k, e.(status := s)) <==> OnRoute(b.encounters, k, e.(status := s));
    }
  }

  /** A change after which every other route is in step is made good by re-running the affected ones
      if and only if the status written is admitted, or those of them that still have detections
      were in step without the re-run. */
  lemma RerunSufficesIff(changed: Tables, after: Tables, affected: seq<RouteKey>, gap: int, turns: Turns, written: EncounterStatus)
    requires forall k :: k !in affected ==> RouteInSync(changed, k, gap, turns)
    requires Reaggregated(changed, after, affected, gap, turns, written)
    ensures InSync(after, gap, turns) <==>
            StatusAllowed(written)
            || forall k :: k in affected && HasDetections(changed.detections, k) ==> RouteInSync(changed, k, gap, turns)
  {
    forall k ensures RouteInSync(after, k, gap, turns) <==>
                     (k in affected && GoesThrough(changed.detections, k, written)) || RouteInSync(changed, k, gap, turns)
    {
      if k in affected && GoesThrough(changed.detections, k, written) {
        RewrittenIsInSync(after, k, gap, turns, written);
      } else {
        SameRouteSameAggregate(changed, after, k, gap, turns);
      }
    }
  }

  // ---------------------------------------------------------------- merged routes

  /** No sighting of one bucket is within the gap of one of the other. */
  ghost predicate Apart(a: set<Sighting>, b: set<Sighting>, gap: int) {
    forall x, y :: x in a && y in b ==> x.ts - y.ts > gap || y.ts - x.ts > gap
  }

  /** A sighting apart from all of a stretch is not in the middle of it either. */
  lemma ApartIsFar(r: seq<Sighting>, x: Sighting, gap: int)
    requires gap >= 0 && r != [] && Sorted(r) && Linked(r, gap)
    requires forall i :: 0 <= i < |r| ==> x.ts - r[i].ts > gap || r[i].ts - x.ts > gap
    ensures FarFrom(x, r, gap)
  {
    if r[0].ts <= x.ts {
      var i := 0;
      while i + 1 < |r|
        invariant i < |r| && x.ts - r[i].ts > gap
      {
        assert Joined(r, gap, i + 1);
        i := i + 1;
      }
    }
  }

  lemma StretchStaysInside(a: set<Sighting>, b: set<Sighting>, gap: int, r: seq<Sighting>, n: nat)
    requires gap >= 0 && Apart(a, b, gap) && Stretch(a + b, gap, r) && r[0] in a && n < |r|
    ensures r[n] in a
    decreases n
  {
    if n > 0 {
      StretchStaysInside(a, b, gap, r, n - 1);
      assert Before(r[n - 1], r[n]) && Joined(r, gap, n);
      assert r[n] in a + b;
    }
  }

  /** Two buckets that are apart have the stretches of both, and no others. */
  lemma ApartStretches(a: set<Sighting>, b: set<Sighting>, gap: int, r: seq<Sighting>)
    requires gap >= 0 && Apart(a, b, gap)
    ensures Stretch(a + b, gap, r) <==> Stretch(a, gap, r) || Stretch(b, gap, r)
  {
    if Stretch(a + b, gap, r) {
      assert r[0] in a + b;
      if r[0] in a {
        forall n | 0 <= n < |r| ensures r[n] in a { StretchStaysInside(a, b, gap, r, n); }
      } else {
        assert b + a == a + b;
        forall n | 0 <= n < |r| ensures r[n] in b { StretchStaysInside(b, a, gap, r, n); }
      }
    }
    if Stretch(a, gap, r) {
      forall x | x in b ensures FarFrom(x, r, gap) { ApartIsFar(r, x, gap); }
    }
    if Stretch(b, gap, r) {
      forall x | x in a ensures FarFrom(x, r, gap) { ApartIsFar(r, x, gap); }
    }
  }

  /** Detections of the two plates on one route, no further apart than the gap. */
  predicate SeenTogether(ds: Detections, from: Hash, to: Hash, gap: int, i: nat, j: nat) {
    && i in ds && j in ds && ds[i].hash == from && ds[j].hash == to
    && RouteKey(ds[i].dongle, ds[i].route) == RouteKey(ds[j].dongle, ds[j].route)
    && -gap <= ds[i].frameTs - ds[j].frameTs <= gap
  }

  ghost predicate NeverTogether(ds: Detections, from: Hash, to: Hash, gap: int, k: RouteKey) {
    forall i: nat, j: nat :: SeenTogether(ds, from, to, gap, i, j) ==> RouteKey(ds[i].dongle, ds[i].route) != k
  }

  lemma NeverTogetherIsApart(ds: Detections, from: Hash, to: Hash, gap: int, k: RouteKey)
    requires NeverTogether(ds, from, to, gap, k)
    ensures Apart(Bucket(ds, k, from), Bucket(ds, k, to), gap)
  {
    forall x, y | x in Bucket(ds, k, from) && y in Bucket(ds, k, to) ensures x.ts - y.ts > gap || y.ts - x.ts > gap {
      assert !SeenTogether(ds, from, to, gap, x.id, y.id);
    }
  }

  lemma MergedBuckets(ds: Detections, from: Hash, to: Hash, k: RouteKey, h: Hash)
    requires from != to
    ensures Bucket(RenameDetections(ds, from, to), k, h) ==
            if h == from then {} else if h == to then Bucket(ds, k, from) + Bucket(ds, k, to) else Bucket(ds, k, h)
  {
    var renamed := RenameDetections(ds, from, to);
    assert forall id :: id in ds ==>
      renamed[id].frameTs == ds[id].frameTs && renamed[id].dongle == ds[id].dongle && renamed[id].route == ds[id].route;
  }

  /** The encounters of the merged plate are those of the two, where they are never seen together. */
  lemma MergedAggregates(ds: Detections, from: Hash, to: Hash, k: RouteKey, gap: int, turns: Turns, e: Encounter)
    requires from != to && gap >= 0 && NeverTogether(ds, from, to, gap, k)
    ensures Aggregates(RenameDetections(ds, from, to), k, gap, turns, e) <==>
            e.hash != from
            && (Aggregates(ds, k, gap, turns, e) || (e.hash == to && Aggregates(ds, k, gap, turns, e.(hash := from))))
  {
    var renamed := RenameDetections(ds, from, to);
    var was := e.(hash := from);
    AggregatesIff(renamed, k, gap, turns, e);
    AggregatesIff(ds, k, gap, turns, e);
    AggregatesIff(ds, k, gap, turns, was);
    NeverTogetherIsApart(ds, from, to, gap, k);
    forall r ensures Summarises(renamed, k, gap, turns, e, r) <==>
                     e.hash != from
                     && (Summarises(ds, k, gap, turns, e, r) || (e.hash == to && Summarises(ds, k, gap, turns, was, r)))
    {
      MergedBuckets(ds, from, to, k, e.hash);
      ApartStretches(Bucket(ds, k, from), Bucket(ds, k, to), gap, r);
    }
  }

  /** So do the rows. */
  lemma MergedRows(db: Tables, from: Hash, to: Hash, entry: AuditEntry, k: RouteKey, e: Encounter)
    requires from != to
    ensures OnRoute(MergedTables(db, from, to, entry).encounters, k, e) <==>
            e.hash != from
            && (OnRoute(db.encounters, k, e) || (e.hash == to && OnRoute(db.encounters, k, e.(hash := from))))
  {
    var renamed := MergedTables(db, from, to, entry).encounters;
    if id :| id in db.encounters && db.encounters[id] == e && e.hash != from { assert renamed[id] == e; }
    if id :| id in db.encounters && db.encounters[id] == e.(hash := from) && e.hash == to { assert renamed[id] == e; }
    if id :| id in renamed && renamed[id] == e {
      assert db.encounters[id] == e || db.encounters[id] == e.(hash := from);
    }
  }

  lemma MergedShows(db: Tables, from: Hash, to: Hash, entry: AuditEntry, k: RouteKey, e: Encounter)
    requires from != to
    ensures Shows(MergedTables(db, from, to, entry).encounters, k, e) <==>
            e.hash != from
            && (Shows(db.encounters, k, e) || (e.hash == to && Shows(db.encounters, k, e.(hash := from))))
  {
    forall s ensures OnRoute(MergedTables(db, from, to, entry).encounters, k, e.(status := s)) <==>
                     e.hash != from
                     && (OnRoute(db.encounters, k, e.(status := s))
                         || (e.hash == to && OnRoute(db.encounters, k, e.(hash := from).(status := s))))
    {
      MergedRows(db, from, to, entry, k, e.(status := s));
      assert e.(status := s).(hash := from) == e.(hash := from).(status := s);
    }
  }

  /** Renamed rows of a route are in step without a re-run if and only if the two plates were never
      seen on it within the gap of each other: otherwise detections of both belong to one encounter,
      and the rows still show two. */
  lemma MergedRouteInSyncIff(db: Tables, from: Hash, to: Hash, entry: AuditEntry, gap: int, turns: Turns, k: RouteKey)
    requires InSync(db, gap, turns) && from != to && gap >= 0 && !Collides(db.encounters, from, to)
    ensures RouteInSync(MergedTables(db, from, to, entry), k, gap, turns) <==> NeverTogether(db.detections, from, to, gap, k)
  {
    var merged := MergedTables(db, from, to, entry);
    if NeverTogether(db.detections, from, to, gap, k) {
      assert RouteInSync(db, k, gap, turns);
      forall e ensures Shows(merged.encounters, k, e) <==> Aggregates(merged.detections, k, gap, turns, e) {
        MergedShows(db, from, to, entry, k, e);
        MergedAggregates(db.detections, from, to, k, gap, turns, e);
      }
    } else {
      var i: nat, j: nat :| SeenTogether(db.detections, from, to, gap, i, j)
                            && RouteKey(db.detections[i].dongle, db.detections[i].route) == k;
      CloseSightingsOutOfStep(db, from, to, entry, gap, turns, i, j);
    }
  }

  lemma CloseSightingsOutOfStep(db: Tables, from: Hash, to: Hash, entry: AuditEntry, gap: int, turns: Turns, i: nat, j: nat)
    requires InSync(db, gap, turns) && from != to && gap >= 0 && !Collides(db.encounters, from, to)
    requires SeenTogether(db.detections, from, to, gap, i, j)
    ensures !RouteInSync(MergedTables(db, from, to, entry), RouteKey(db.detections[i].dongle, db.detections[i].route), gap, turns)
  {
    var k := RouteKey(db.detections[i].dongle, db.detections[i].route);
    var merged := MergedTables(db, from, to, entry);
    var a := RowCovering(db, k, gap, turns, i);
    var b := RowCovering(db, k, gap, turns, j);
    var id1 :| id1 in db.encounters && db.encounters[id1] == a;
    var id2 :| id2 in db.encounters && db.encounters[id2] == b;
    var (a1, b1) := (merged.encounters[id1], merged.encounters[id2]);
    assert a1 == a.(hash := to) && b1 == b;
    assert a1.firstSeen != b1.firstSeen by { assert !SameEncounterKey(a.(hash := to), b); }
    assert OnRoute(merged.encounters, k, a1.(status := a1.status)) && OnRoute(merged.encounters, k, b1.(status := b1.status));
    if RouteInSync(merged, k, gap, turns) {
      assert Shows(merged.encounters, k, a1) && Shows(merged.encounters, k, b1);
      AggregatesApart(merged.detections, k, gap, turns, a1, b1);
    }
  }

  /** The row that covers a detection, when the tables are in step. */
  lemma RowCovering(db: Tables, k: RouteKey, gap: int, turns: Turns, id: nat) returns (e: Encounter)
    requires InSync(db, gap, turns) && id in db.detections
    requires k == RouteKey(db.detections[id].dongle, db.detections[id].route)
    ensures OnRoute(db.encounters, k, e) && Supports(db.detections[id], e)
  {
    var f := DetectionsCovered(db.detections, k, gap, turns, id);
    assert RouteInSync(db, k, gap, turns);
    var s :| OnRoute(db.encounters, k, f.(status := s));
    e := f.(status := s);
  }

  /** The routes collected before a merge are the right ones: after the re-runs every route of every
      device is in step, if and only if the status written is admitted or the two plates were never
      seen on one route within the gap of each other. */
  lemma MergeReaggregationIff(db: Tables, from: Hash, to: Hash, entry: AuditEntry, affected: seq<RouteKey>,
                              after: Tables, gap: int, turns: Turns, written: EncounterStatus)
    requires InSync(db, gap, turns) && from != to && gap >= 0 && !Collides(db.encounters, from, to)
    requires forall k :: k in affected <==> Touches(db, from, k) || Touches(db, to, k)
    requires Reaggregated(MergedTables(db, from, to, entry), after, affected, gap, turns, written)
    ensures InSync(after, gap, turns) <==>
            StatusAllowed(written) || forall i: nat, j: nat :: !SeenTogether(db.detections, from, to, gap, i, j)
  {
    var merged := MergedTables(db, from, to, entry);
    forall k ensures RouteInSync(merged, k, gap, turns) <==> NeverTogether(db.detections, from, to, gap, k) {
      MergedRouteInSyncIff(db, from, to, entry, gap, turns, k);
    }
    forall i: nat, j: nat | SeenTogether(db.detections, from, to, gap, i, j)
      ensures var k := RouteKey(db.detections[i].dongle, db.detections[i].route);
              k in affected && HasDetections(merged.detections, k) && !NeverTogether(db.detections, from, to, gap, k)
    {
      var k := RouteKey(db.detections[i].dongle, db.detections[i].route);
      assert DetectionOn(db.detections, from, k);
      assert i in merged.detections && RouteKey(merged.detections[i].dongle, merged.detections[i].route) == k;
    }
    RerunSufficesIff(merged, after, affected, gap, turns, written);
  }

  // ---------------------------------------------------------------- corrected routes

  /** A stretch takes in whatever lies between its ends. */
  lemma StretchTakesIn(bucket: set<Sighting>, gap: int, r: seq<Sighting>, x: Sighting)
    requires gap >= 0 && Stretch(bucket, gap, r) && x in bucket && r[0].ts <= x.ts <= r[|r| - 1].ts
    ensures x in r
  {}

  lemma {:induction false} SortedCount(r: seq<Sighting>)
    requires Sorted(r)
    ensures |set x | x in r| == |r|
  {
    if r != [] {
      var rest := r[..|r| - 1];
      SortedCount(rest);
      assert (set x | x in r) == (set x | x in rest) + {r[|r| - 1]};
      assert r[|r| - 1] !in rest by { assert forall i :: 0 <= i < |rest| ==> Before(rest[i], r[|r| - 1]); }
    }
  }

  /** Without one of its sightings a window holds fewer. */
  lemma StretchLoses(bucket: set<Sighting>, gap: int, r: seq<Sighting>, x: Sighting, s: seq<Sighting>)
    requires gap >= 0 && Stretch(bucket, gap, r) && x in r && Stretch(bucket - {x}, gap, s)
    requires s[0].ts == r[0].ts && s[|s| - 1].ts == r[|r| - 1].ts
    ensures |s| < |r|
  {
    var (all, less) := (set y | y in r, set y | y in s);
    forall y | y in less ensures y in all - {x} {
      BetweenEnds(s, y);
      StretchTakesIn(bucket, gap, r, y);
    }
    assert less <= all - {x} && x in all;
    SortedCount(r);
    SortedCount(s);
    assert |all - {x}| == |all| - 1;
    FewerThan(less, all - {x});
  }

  lemma {:induction false} FewerThan(a: set<Sighting>, b: set<Sighting>)
    requires a <= b
    ensures |a| <= |b|
  {
    assert b == a + (b - a);
  }

  lemma CorrectedBuckets(ds: Detections, id: nat, cipher: Bytes, hash: Hash, k: RouteKey, h: Hash)
    requires id in ds
    ensures var after := CorrectDetection(ds, id, cipher, hash);
            && (h == ds[id].hash && hash != h && k == RouteKey(ds[id].dongle, ds[id].route) ==>
                  Bucket(after, k, h) == Bucket(ds, k, h) - {Sighting(ds[id].frameTs, id)})
            && (k != RouteKey(ds[id].dongle, ds[id].route) || hash == ds[id].hash ==> Bucket(after, k, h) == Bucket(ds, k, h))
  {
    var after := CorrectDetection(ds, id, cipher, hash);
    assert forall other :: other in ds && other != id ==> after[other] == ds[other];
    assert after[id] == ds[id].(cipher := Some(cipher), hash := hash, ocrCorrected := true);
  }

  /** A detection that changed its plate leaves its route out of step: the row that covered it still
      counts it. */
  lemma CorrectedRouteOutOfStep(db: Tables, id: nat, cipher: Bytes, hash: Hash, entry: AuditEntry, gap: int, turns: Turns)
    requires InSync(db, gap, turns) && gap >= 0 && id in db.detections && hash != db.detections[id].hash
    ensures var k := RouteKey(db.detections[id].dongle, db.detections[id].route);
            !RouteInSync(EditedTables(db, id, cipher, hash, entry), k, gap, turns)
  {
    var (ds, d) := (db.detections, db.detections[id]);
    var k := RouteKey(d.dongle, d.route);
    var edited := EditedTables(db, id, cipher, hash, entry);
    var e := RowCovering(db, k, gap, turns, id);
    assert OnRoute(db.encounters, k, e.(status := e.status));
    if RouteInSync(edited, k, gap, turns) {
      assert RouteInSync(db, k, gap, turns);
      assert Shows(edited.encounters, k, e);
      AggregatesIff(ds, k, gap, turns, e);
      AggregatesIff(edited.detections, k, gap, turns, e);
      var r :| Summarises(ds, k, gap, turns, e, r);
      var s :| Summarises(edited.detections, k, gap, turns, e, s);
      var x := Sighting(d.frameTs, id);
      CorrectedBuckets(ds, id, cipher, hash, k, d.hash);
      StretchTakesIn(Bucket(ds, k, d.hash), gap, r, x);
      StretchLoses(Bucket(ds, k, d.hash), gap, r, x, s);
      assert false;
    }
  }

  /** The routes collected after a correction are the right ones as well: after the re-runs everything
      is in step, if and only if the status written is admitted or the plate did not change. */
  lemma CorrectionReaggregationIff(db: Tables, id: nat, cipher: Bytes, hash: Hash, entry: AuditEntry, affected: seq<RouteKey>,
                                   after: Tables, gap: int, turns: Turns, written: EncounterStatus)
    requires InSync(db, gap, turns) && gap >= 0 && id in db.detections
    requires RouteKey(db.detections[id].dongle, db.detections[id].route) in affected
    requires Reaggregated(EditedTables(db, id, cipher, hash, entry), after, affected, gap, turns, written)
    ensures InSync(after, gap, turns) <==> StatusAllowed(written) || hash == db.detections[id].hash
  {
    var edited := EditedTables(db, id, cipher, hash, entry);
    var own := RouteKey(db.detections[id].dongle, db.detections[id].route);
    forall k | k != own || hash == db.detections[id].hash ensures RouteInSync(edited, k, gap, turns) {
      assert RouteInSync(db, k, gap, turns);
      forall h ensures Bucket(db.detections, k, h) == Bucket(edited.detections, k, h) {
        CorrectedBuckets(db.detections, id, cipher, hash, k, h);
      }
      SameRouteSameAggregate(db, edited, k, gap, turns);
    }
    if hash != db.detections[id].hash { CorrectedRouteOutOfStep(db, id, cipher, hash, entry, gap, turns); }
    assert id in edited.detections && RouteKey(edited.detections[id].dongle, edited.detections[id].route) == own;
    RerunSufficesIff(edited, after, affected, gap, turns, written);
  }

  // ---------------------------------------------------------------- the status the code writes

  /** With the status the code writes, and tables in step before, a merge leaves them in step if and
      only if the plates were never seen on one route within the gap of each other. */
  lemma OpenStatusMergeIff(db: Tables, from: Hash, to: Hash, entry: AuditEntry, affected: seq<RouteKey>,
                           after: Tables, gap: int, turns: Turns)
    requires InSync(db, gap, turns) && from != to && gap >= 0 && !Collides(db.encounters, from, to)
    requires forall k :: k in affected <==> Touches(db, from, k) || Touches(db, to, k)
    requires Reaggregated(MergedTables(db, from, to, entry), after, affected, gap, turns, WRITTEN_STATUS)
    ensures InSync(after, gap, turns) <==> forall i: nat, j: nat :: !SeenTogether(db.detections, from, to, gap, i, j)
  {
    MergeReaggregationIff(db, from, to, entry, affected, after, gap, turns, WRITTEN_STATUS);
  }

  /** And a correction leaves them in step if and only if it changed no plate. */
  lemma OpenStatusCorrectionIff(db: Tables, id: nat, cipher: Bytes, hash: Hash, entry: AuditEntry, affected: seq<RouteKey>,
                                after: Tables, gap: int, turns: Turns)
    requires InSync(db, gap, turns) && gap >= 0 && id in db.detections
    requires RouteKey(db.detections[id].dongle, db.detections[id].route) in affected
    requires Reaggregated(EditedTables(db, id, cipher, hash, entry), after, affected, gap, turns, WRITTEN_STATUS)
    ensures InSync(after, gap, turns) <==> hash == db.detections[id].hash
  {
    CorrectionReaggregationIff(db, id, cipher, hash, entry, affected, after, gap, turns, WRITTEN_STATUS);
  }

  // ---------------------------------------------------------------- runs from an empty table

  /** What changes detections and encounters: a detection comes in, a merge or a correction commits,
      retention prunes and sweeps, the aggregator re-runs a route, or something else happens. */
  datatype Change =
    | Detected(id: nat, d: Detection)
    | Merged(from: Hash, to: Hash, entry: AuditEntry)
    | Corrected(id: nat, cipher: Bytes, hash: Hash, entry: AuditEntry)
    | Retained(unflagged: Option<int>, ceiling: Option<int>)
    | Rerun(k: RouteKey)
    | Other(watchlist: Watchlist)

  ghost predicate Follows(a: Tables, b: Tables, c: Change, gap: int, turns: Turns) {
    match c
    case Detected(id, d) => id !in a.detections && b == a.(detections := a.detections[id := d])
    case Merged(from, to, entry) => from != to && !Collides(a.encounters, from, to) && b == MergedTables(a, from, to, entry)
    case Corrected(id, cipher, hash, entry) => id in a.detections && b == EditedTables(a, id, cipher, hash, entry)
    case Retained(unflagged, ceiling) =>
      var kept := Survivors(a.detections, a.watchlist.rows, unflagged, ceiling);
      b == a.(detections := kept, encounters := DropOrphans(kept, a.encounters))
    case Rerun(k) => Reaggregated(a, b, [k], gap, turns, WRITTEN_STATUS)
    case Other(watchlist) => b == a.(watchlist := watchlist)
  }

  ghost predicate Reaches(a: Tables, changes: seq<Change>, b: Tables, gap: int, turns: Turns)
    decreases changes
  {
    if changes == [] then a == b
    else exists mid :: Follows(a, mid, changes[0], gap, turns) && Reaches(mid, changes[1..], b, gap, turns)
  }

  lemma ChangeAddsNoEncounter(a: Tables, b: Tables, c: Change, gap: int, turns: Turns)
    requires a.encounters == map[] && Follows(a, b, c, gap, turns)
    ensures b.encounters == map[]
  {
    if c.Rerun? {
      forall id | id in b.encounters ensures false {
        var e := b.encounters[id];
        var k := RouteKey(e.dongle, e.route);
        assert OnRoute(b.encounters, k, e);
        assert !OnRoute(a.encounters, k, e);
        assert GoesThrough(a.detections, k, WRITTEN_STATUS) && Aggregates(b.detections, k, gap, turns, e);
        SomethingToWriteIff(b.detections, k, gap, turns);
      }
    }
  }

  lemma EmptyInSyncIff(db: Tables, gap: int, turns: Turns)
    requires db.encounters == map[]
    ensures InSync(db, gap, turns) <==> db.detections == map[]
  {
    forall k ensures RouteInSync(db, k, gap, turns) <==> !HasDetections(db.detections, k) {
      SomethingToWriteIff(db.detections, k, gap, turns);
      assert forall e :: !Shows(db.encounters, k, e);
    }
    if id :| id in db.detections {
      assert HasDetections(db.detections, RouteKey(db.detections[id].dongle, db.detections[id].route));
    }
  }

  /** With the status the code writes, a table of encounters that starts empty stays empty for good:
      in every state that detections, merges, corrections, retention and re-runs can lead to, it is in
      step exactly when there are no detections. */
  lemma {:induction false} EncountersStayEmpty(a: Tables, changes: seq<Change>, b: Tables, gap: int, turns: Turns)
    requires a.encounters == map[] && Reaches(a, changes, b, gap, turns)
    ensures b.encounters == map[] && (InSync(b, gap, turns) <==> b.detections == map[])
    decreases changes
  {
    if changes == [] {
      EmptyInSyncIff(b, gap, turns);
    } else {
      var mid :| Follows(a, mid, changes[0], gap, turns) && Reaches(mid, changes[1..], b, gap, turns);
      ChangeAddsNoEncounter(a, mid, changes[0], gap, turns);
      EncountersStayEmpty(mid, changes[1..], b, gap, turns);
    }
  }
}
