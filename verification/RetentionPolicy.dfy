/**
  Which plates retention spares, told from the requests that made it so: the heuristic's upserts and the operator's
  acknowledge and whitelist requests (internal/alpr/heuristic/worker.go, internal/api/alpr_watchlist.go), and the
  next pass over the detections (internal/worker/alpr_cleanup.go).
*/
module RetentionPolicy {
  import opened Common
  import opened WatchlistMerge
  import opened PlateTables
  import opened Retention
  import opened WatchlistRuns

  /** A pass with these cutoffs leaves exactly the detections of the plate that are not older than this. */
  ghost predicate KeptFrom(w: Watchlist, h: Hash, unflagged: int, ceiling: int, from: int) {
    forall ds: Detections, id :: id in ds && ds[id].hash == h ==>
      (id in Survivors(ds, w.rows, Some(unflagged), Some(ceiling)) <==> ds[id].frameTs >= from)
  }

  /** No alert on a vehicle without a plate is open or of severity 4 and above. */
  ghost predicate NoPlatelessAlert(w: Watchlist) {
    forall id :: id in w.rows && w.rows[id].hash.None? && w.rows[id].kind.Alerted? ==>
      w.rows[id].fields.acked.Some? && (w.rows[id].fields.severity.None? || w.rows[id].fields.severity.value <= 3)
  }

  lemma AlertedKeepsToCeiling(w: Watchlist, h: Hash, unflagged: int, ceiling: int)
    requires WatchlistValid(w) && RowOf(w.rows, h).Some? && RowOf(w.rows, h).value.kind.Alerted?
    requires var f := RowOf(w.rows, h).value.fields; f.acked.None? || (f.severity.Some? && f.severity.value >= 4)
    ensures KeptFrom(w, h, unflagged, ceiling, ceiling)
  {
    FlaggedIffRow(w.rows, h);
  }

  lemma OtherwiseKeepsToWindow(w: Watchlist, h: Hash, unflagged: int, ceiling: int)
    requires WatchlistValid(w) && NoPlatelessAlert(w) && ceiling <= unflagged
    requires RowOf(w.rows, h).None? || !RowOf(w.rows, h).value.kind.Alerted?
             || (RowOf(w.rows, h).value.fields.acked.Some?
                 && (RowOf(w.rows, h).value.fields.severity.None? || RowOf(w.rows, h).value.fields.severity.value <= 3))
    ensures KeptFrom(w, h, unflagged, ceiling, unflagged)
  {
    FlaggedIffRow(w.rows, h);
    assert !FlaggedHash(w.rows, None);
  }

  lemma OnlyOneBound(w: Watchlist, h: Hash, unflagged: int, ceiling: int, a: int, b: int)
    requires KeptFrom(w, h, unflagged, ceiling, a) && KeptFrom(w, h, unflagged, ceiling, b)
    ensures a == b
  {
    var t := if a < b then a else b;
    var ds: Detections := map[0 := Detection("", "", h, None, false, t)];
    assert 0 in ds && ds[0].hash == h && ds[0].frameTs == t;
    assert 0 in Survivors(ds, w.rows, Some(unflagged), Some(ceiling)) <==> t >= a;
    assert 0 in Survivors(ds, w.rows, Some(unflagged), Some(ceiling)) <==> t >= b;
  }

  /** An evaluation that lists a plate or strictly upgrades it, and a request that takes an
      acknowledgement back, keep all of its evidence up to the ceiling. */
  lemma AlertKeepsEvidence(w: Watchlist, op: Op, unflagged: int, ceiling: int)
    requires WatchlistValid(w) && Legal(op)
    requires var row := RowOf(w.rows, if op.Evaluate? || op.Unack? then op.h else []);
             || (op.Evaluate? && op.score >= 2 && (row.None? || (!row.value.kind.Whitelist?
                    && (row.value.fields.severity.None? || op.score > row.value.fields.severity.value))))
             || (op.Unack? && row.Some? && row.value.kind.Alerted?)
    ensures KeptFrom(Step(w, op), op.h, unflagged, ceiling, ceiling)
  {
    StepRow(w, op, op.h);
    RowOfNone(w.rows, op.h);
    AlertedKeepsToCeiling(Step(w, op), op.h, unflagged, ceiling);
  }

  lemma PlatelessStays(w: Watchlist, op: Op)
    requires WatchlistValid(w) && NoPlatelessAlert(w) && (op.Ack? || op.AddWhitelist?)
    ensures NoPlatelessAlert(Step(w, op))
  {}

  /** Acknowledging an alert keeps the evidence up to the ceiling exactly for severity 4 and above, and
      for a milder one leaves what the unflagged window does. */
  lemma AckKeepsEvidenceIff(w: Watchlist, h: Hash, at: int, unflagged: int, ceiling: int)
    requires WatchlistValid(w) && NoPlatelessAlert(w) && ceiling < unflagged
    requires RowOf(w.rows, h).Some? && RowOf(w.rows, h).value.kind.Alerted?
    ensures var severity := RowOf(w.rows, h).value.fields.severity;
            && (KeptFrom(Step(w, Ack(h, at)), h, unflagged, ceiling, ceiling) <==> severity.Some? && severity.value >= 4)
            && (KeptFrom(Step(w, Ack(h, at)), h, unflagged, ceiling, unflagged) <==> severity.None? || severity.value <= 3)
  {
    var severity := RowOf(w.rows, h).value.fields.severity;
    var after := Step(w, Ack(h, at));
    StepRow(w, Ack(h, at), h);
    PlatelessStays(w, Ack(h, at));
    if severity.Some? && severity.value >= 4 {
      AlertedKeepsToCeiling(after, h, unflagged, ceiling);
    } else {
      OtherwiseKeepsToWindow(after, h, unflagged, ceiling);
    }
    if KeptFrom(after, h, unflagged, ceiling, ceiling) && KeptFrom(after, h, unflagged, ceiling, unflagged) {
      OnlyOneBound(after, h, unflagged, ceiling, ceiling, unflagged);
    }
  }

  /** Whitelisting a plate leaves of it what the unflagged window does. */
  lemma WhitelistKeepsToWindow(w: Watchlist, h: Hash, labelCipher: Option<Bytes>, unflagged: int, ceiling: int)
    requires WatchlistValid(w) && NoPlatelessAlert(w) && ceiling <= unflagged
    ensures KeptFrom(Step(w, AddWhitelist(h, labelCipher)), h, unflagged, ceiling, unflagged)
  {
    StepRow(w, AddWhitelist(h, labelCipher), h);
    PlatelessStays(w, AddWhitelist(h, labelCipher));
    OtherwiseKeepsToWindow(Step(w, AddWhitelist(h, labelCipher)), h, unflagged, ceiling);
  }
}
