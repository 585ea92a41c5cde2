/**
  Tiered retention (internal/worker/alpr_cleanup.go: RunOnce, over the retention statements of
  internal/db/alpr_detections.sql.go, alpr_encounters.sql.go and alpr_alert_events.sql.go).
*/
module Retention {
  import opened Common
  import opened PlateTables
  import opened PlateMerge
  import opened PlateStore

  const DAY := 86_400  // seconds; no result depends on the unit of the instants

  const ALERT_EVENTS_DAYS := 90

  datatype Tier = ReadFlagged | UnflaggedTier | CeilingTier | OrphanTier | AlertEventsTier

  /** A row of plate_alert_events, as far as retention reads it. */
  datatype AlertEvent = AlertEvent(hash: Hash, computedAt: int)

  type AlertEvents = map<nat, AlertEvent>

  /** DeleteOrphanedAlertEvents: old events of plates that are not on the watchlist. */
  function DropAlertEvents(events: AlertEvents, rows: WatchRows, cutoff: int): AlertEvents {
    map id | id in events && !(events[id].computedAt < cutoff && !HasHash(rows, events[id].hash)) :: events[id]
  }

  /** WHERE kind = 'alerted' AND (acked_at IS NULL OR severity >= 4) */
  predicate Flagged(r: WatchRow) {
    r.kind.Alerted? && (r.fields.acked.None? || (r.fields.severity.Some? && r.fields.severity.value >= 4))
  }

  predicate FlaggedHash(rows: WatchRows, h: Option<Hash>) {
    exists id :: id in rows && Flagged(rows[id]) && rows[id].hash == h
  }

  /** ListFlaggedPlateHashes. A flagged signature-keyed row contributes a NULL. */
  method ListFlaggedPlateHashes(rows: WatchRows) returns (list: seq<Option<Hash>>)
    ensures forall h :: h in list <==> FlaggedHash(rows, h)
  {
    list := [];
    var left := set id | id in rows && Flagged(rows[id]);
    while left != {}
      invariant left <= rows.Keys
      invariant forall id :: id in left ==> Flagged(rows[id])
      invariant forall id :: id in rows && Flagged(rows[id]) ==> id in left || rows[id].hash in list
      invariant forall h :: h in list ==> FlaggedHash(rows, h)
      decreases |left|
    {
      var id :| id in left;
      list, left := list + [rows[id].hash], left - {id};
    }
  }

  /** Whether a detection outlives one pass. None stands for a tier that does not run. */
  predicate Survives(d: Detection, rows: WatchRows, unflagged: Option<int>, ceiling: Option<int>) {
    && (unflagged.Some? && d.frameTs < unflagged.value ==> FlaggedHash(rows, Some(d.hash)) || FlaggedHash(rows, None))
    && (ceiling.Some? ==> d.frameTs >= ceiling.value)
  }

  function Survivors(ds: Detections, rows: WatchRows, unflagged: Option<int>, ceiling: Option<int>): Detections {
    map id | id in ds && Survives(ds[id], rows, unflagged, ceiling) :: ds[id]
  }

  function Cutoff(now: int, days: int, skipped: bool): Option<int> {
    if days > 0 && !skipped then Some(now - days * DAY) else None
  }

  /** The deletes that did run, one after the other, leave exactly the survivors. */
  lemma PrunesLeaveSurvivors(ds: Detections, rows: WatchRows, flagged: seq<Option<Hash>>, unflagged: Option<int>, ceiling: Option<int>)
    requires forall h :: h in flagged <==> FlaggedHash(rows, h)
    ensures var first := if unflagged.Some? then PruneUnflaggedBefore(ds, unflagged.value, flagged) else ds;
            (if ceiling.Some? then PruneAllBefore(first, ceiling.value) else first) == Survivors(ds, rows, unflagged, ceiling)
  {
    assert None in flagged <==> FlaggedHash(rows, None);
    var first := if unflagged.Some? then PruneUnflaggedBefore(ds, unflagged.value, flagged) else ds;
    var second := if ceiling.Some? then PruneAllBefore(first, ceiling.value) else first;
    forall id | id in ds ensures id in second <==> Survives(ds[id], rows, unflagged, ceiling) {
      assert Some(ds[id].hash) in flagged <==> FlaggedHash(rows, Some(ds[id].hash));
    }
    assert second == Survivors(ds, rows, unflagged, ceiling);
  }

  /** The detection is one of the encounter's plate and route, inside its window. */
  predicate Within(d: Detection, e: Encounter) {
    d.hash == e.hash && d.dongle == e.dongle && d.route == e.route && !(d.frameTs < e.firstSeen) && !(d.frameTs > e.lastSeen)
  }

  /** An alert of the plate, or of a vehicle without a plate, is open or of severity 4 or 5. */
  predicate HeldBack(rows: WatchRows, h: Hash) {
    exists id :: id in rows && rows[id].kind.Alerted? && (rows[id].hash == Some(h) || rows[id].hash.None?)
                 && !(rows[id].fields.acked.Some? && (rows[id].fields.severity.None? || rows[id].fields.severity.value < 4))
  }

  lemma HeldBackIff(rows: WatchRows, h: Hash)
    ensures HeldBack(rows, h) <==> FlaggedHash(rows, Some(h)) || FlaggedHash(rows, None)
  {}

  /** The detections a pass leaves, said of each: it is younger than its window, or that window is not
      enforced. The unflagged window is not enforced on a plate that is held back. */
  ghost predicate Kept(ds: Detections, left: Detections, rows: WatchRows, now: int, unflaggedDays: int, flaggedDays: int,
                       faults: set<Tier>) {
    && (forall id :: id in left ==> id in ds && left[id] == ds[id])
    && (forall id :: id in ds ==>
          (id in left <==>
             && (unflaggedDays <= 0 || UnflaggedTier in faults || ds[id].frameTs >= now - unflaggedDays * 86_400
                 || HeldBack(rows, ds[id].hash))
             && (flaggedDays <= 0 || CeilingTier in faults || ds[id].frameTs >= now - flaggedDays * 86_400)))
  }

  lemma SurvivorsKept(ds: Detections, rows: WatchRows, now: int, unflaggedDays: int, flaggedDays: int, faults: set<Tier>)
    ensures Kept(ds, Survivors(ds, rows, Cutoff(now, unflaggedDays, UnflaggedTier in faults),
                               Cutoff(now, flaggedDays, CeilingTier in faults)),
                 rows, now, unflaggedDays, flaggedDays, faults)
  {
    forall id | id in ds { HeldBackIff(rows, ds[id].hash); }
  }

  /** The tiers over detections; one that fails is skipped and reported. */
  method PruneDetections(ds: Detections, rows: WatchRows, now: int, unflaggedDays: int, flaggedDays: int, faults: set<Tier>)
    returns (ok: bool, left: Detections)
    ensures ok <==> (unflaggedDays > 0 ==> UnflaggedTier !in faults) && (flaggedDays > 0 ==> CeilingTier !in faults)
    ensures left == Survivors(ds, rows, Cutoff(now, unflaggedDays, UnflaggedTier in faults),
                              Cutoff(now, flaggedDays, CeilingTier in faults))
  {
    var flagged := ListFlaggedPlateHashes(rows);
    PrunesLeaveSurvivors(ds, rows, flagged, Cutoff(now, unflaggedDays, UnflaggedTier in faults),
                         Cutoff(now, flaggedDays, CeilingTier in faults));
    ok, left := true, ds;
    if unflaggedDays > 0 {
      if UnflaggedTier in faults {
        ok := false;
      } else {
        left := PruneUnflaggedBefore(left, now - unflaggedDays * DAY, flagged);
      }
    }
    if flaggedDays > 0 {
      if CeilingTier in faults {
        ok := false;
      } else {
        left := PruneAllBefore(left, now - flaggedDays * DAY);
      }
    }
  }

  /** One pass. A failed tier is skipped and reported, the later ones still run; a failed read of
      the flagged set stops the pass before anything is deleted. */
  method RunOnce(store: Store, events: AlertEvents, now: int, unflaggedDays: int, flaggedDays: int, faults: set<Tier>)
    returns (ok: bool, left: AlertEvents)
    requires store.Valid()
    modifies store`detections, store`encounters
    ensures store.Valid()
    ensures ok <==> ReadFlagged !in faults
                    && (unflaggedDays > 0 ==> UnflaggedTier !in faults)
                    && (flaggedDays > 0 ==> CeilingTier !in faults)
                    && OrphanTier !in faults && AlertEventsTier !in faults
    ensures ReadFlagged in faults ==> store.Db() == old(store.Db())
    ensures ReadFlagged !in faults ==>
              store.detections == Survivors(old(store.detections), store.watchlist.rows,
                Cutoff(now, unflaggedDays, UnflaggedTier in faults), Cutoff(now, flaggedDays, CeilingTier in faults))
    ensures ReadFlagged !in faults ==>
              Kept(old(store.detections), store.detections, store.watchlist.rows, now, unflaggedDays, flaggedDays, faults)
    ensures ReadFlagged !in faults ==>
              store.encounters == if OrphanTier in faults then old(store.encounters)
                                  else DropOrphans(store.detections, old(store.encounters))
    ensures ok ==> Evidenced(store.Db())
    ensures ReadFlagged !in faults && OrphanTier !in faults ==>
              && (forall id :: id in store.encounters ==>
                    id in old(store.encounters) && store.encounters[id] == old(store.encounters)[id])
              && (forall id :: id in old(store.encounters) ==>
                    (id in store.encounters <==>
                     exists d :: d in store.detections && Within(store.detections[d], old(store.encounters)[id])))
    ensures forall id :: id in left <==>
              id in events && (ReadFlagged in faults || AlertEventsTier in faults
                               || events[id].computedAt >= now - 90 * 86_400
                               || HasHash(store.watchlist.rows, events[id].hash))
    ensures forall id :: id in left ==> left[id] == events[id]
  {
    if ReadFlagged in faults { return false, events; }
    SurvivorsKept(store.detections, store.watchlist.rows, now, unflaggedDays, flaggedDays, faults);
    ok, store.detections := PruneDetections(store.detections, store.watchlist.rows, now, unflaggedDays, flaggedDays, faults);
    if OrphanTier in faults {
      ok := false;
    } else {
      store.encounters := DropOrphans(store.detections, store.encounters);
    }
    if AlertEventsTier in faults {
      ok, left := false, events;
    } else {
      left := DropAlertEvents(events, store.watchlist.rows, now - ALERT_EVENTS_DAYS * DAY);
    }
  }

  /** A NULL in the flagged set makes NOT IN unknown for every other plate: nothing is pruned. */
  lemma NullStopsPruning(ds: Detections, cutoff: int, flagged: seq<Option<Hash>>)
    requires None in flagged
    ensures PruneUnflaggedBefore(ds, cutoff, flagged) == ds
  {}

  /** The two deletes may run in either order, and running either again changes nothing. */
  lemma PrunesCommute(ds: Detections, unflagged: int, ceiling: int, flagged: seq<Option<Hash>>)
    ensures PruneAllBefore(PruneUnflaggedBefore(ds, unflagged, flagged), ceiling) ==
            PruneUnflaggedBefore(PruneAllBefore(ds, ceiling), unflagged, flagged)
    ensures var both := PruneAllBefore(PruneUnflaggedBefore(ds, unflagged, flagged), ceiling);
            PruneAllBefore(both, ceiling) == both && PruneUnflaggedBefore(both, unflagged, flagged) == both
  {}

  /** A flagged plate always keeps exactly what the ceiling allows. An unflagged plate keeps exactly
      what its own window allows if and only if the ceiling is the unflagged cutoff itself, or is
      earlier and no signature-keyed alert is open. */
  lemma TierPolicy(rows: WatchRows, unflagged: int, ceiling: int, h: Hash)
    ensures FlaggedHash(rows, Some(h)) ==>
              forall d: Detection :: d.hash == h ==>
                (Survives(d, rows, Some(unflagged), Some(ceiling)) <==> d.frameTs >= ceiling)
    ensures !FlaggedHash(rows, Some(h)) ==>
              ((forall d: Detection :: d.hash == h ==>
                  (Survives(d, rows, Some(unflagged), Some(ceiling)) <==> d.frameTs >= unflagged))
               <==> ceiling == unflagged || (ceiling < unflagged && !FlaggedHash(rows, None)))
  {
    if !FlaggedHash(rows, Some(h)) {
      var earlier := if ceiling < unflagged then ceiling else unflagged;
      var d := Detection("", "", h, None, false, earlier);
      assert ceiling > unflagged ==> !Survives(d, rows, Some(unflagged), Some(ceiling));
      assert ceiling < unflagged && FlaggedHash(rows, None) ==> Survives(d, rows, Some(unflagged), Some(ceiling));
    }
  }

  /** Which tier a plate is in: exactly an alerted row that is unacknowledged or of severity 4 and
      above keeps it in the flagged one, so whitelisting it or acknowledging a lower severity
      moves it out. */
  lemma FlaggedIffRow(rows: WatchRows, h: Hash)
    requires HashesUnique(rows)
    ensures FlaggedHash(rows, Some(h)) <==> RowOf(rows, h).Some? && Flagged(RowOf(rows, h).value)
  {
    if HasHash(rows, h) {
      var id :| id in rows && rows[id].hash == Some(h);
      RowOfIs(rows, id, h);
    }
  }

  /** Earlier passes leave no mark: whatever ran before with earlier or equal cutoffs and the same
      watchlist, a pass ends in the same detections and encounters as if it had run alone. */
  lemma EarlierPassesIrrelevant(ds: Detections, es: Encounters, rows: WatchRows,
                                unflagged: int, ceiling: int, laterUnflagged: int, laterCeiling: int)
    requires unflagged <= laterUnflagged && ceiling <= laterCeiling
    ensures var first := Survivors(ds, rows, Some(unflagged), Some(ceiling));
            var second := Survivors(first, rows, Some(laterUnflagged), Some(laterCeiling));
            && second == Survivors(ds, rows, Some(laterUnflagged), Some(laterCeiling))
            && DropOrphans(second, DropOrphans(first, es)) == DropOrphans(second, es)
  {
    var first := Survivors(ds, rows, Some(unflagged), Some(ceiling));
    var second := Survivors(first, rows, Some(laterUnflagged), Some(laterCeiling));
    forall id | id in es && HasEvidence(second, es[id]) ensures HasEvidence(first, es[id]) {
      var d :| d in second && Supports(second[d], es[id]);
      assert d in first && Supports(first[d], es[id]);
    }
  }

  /** A sweep removes an encounter exactly when every detection in its window is gone: an encounter
      that was in step with the tables survives as long as one of its detections does. */
  lemma SweepKeepsEvidence(ds: Detections, es: Encounters, rows: WatchRows, unflagged: Option<int>, ceiling: Option<int>, id: nat)
    requires id in es
    ensures id in DropOrphans(Survivors(ds, rows, unflagged, ceiling), es) <==>
            exists d :: d in ds && Supports(ds[d], es[id]) && Survives(ds[d], rows, unflagged, ceiling)
  {
    var kept := Survivors(ds, rows, unflagged, ceiling);
    if HasEvidence(kept, es[id]) {
      var d :| d in kept && Supports(kept[d], es[id]);
      assert d in ds && Supports(ds[d], es[id]) && Survives(ds[d], rows, unflagged, ceiling);
    }
    forall d | d in ds && Supports(ds[d], es[id]) && Survives(ds[d], rows, unflagged, ceiling)
      ensures HasEvidence(kept, es[id])
    {
      assert kept[d] == ds[d];
    }
  }
}
