/**
  What a committed plate merge or plate correction does to all tables at once
  (internal/api/alpr_corrections.go: MergePlates, EditDetection), and the invariants it keeps.
*/
module PlateMerge {
  import opened Common
  import opened WatchlistMerge
  import opened PlateTables

  datatype AuditEntry =
    | PlateMergeEntry(from: Hash, to: Hash, affectedRoutes: nat, watchlistPath: string)
    | PlateEditEntry(id: nat, dongle: string, route: string, before: Hash, after: Hash)

  datatype Tables = Tables(
    detections: Detections, encounters: Encounters, watchlist: Watchlist, audit: seq<AuditEntry>)

  ghost predicate TablesValid(db: Tables) {
    EncounterKeysUnique(db.encounters) && StatusesAllowed(db.encounters) && WatchlistValid(db.watchlist)
  }

  ghost predicate Evidenced(db: Tables) {
    forall id :: id in db.encounters ==> HasEvidence(db.detections, db.encounters[id])
  }

  /** Two encounters that a merge would put on one key of the unique index. */
  ghost predicate Collides(t: Encounters, from: Hash, to: Hash) {
    exists i, j :: i in t && j in t && t[i].hash == from && t[j].hash == to
                   && SameEncounterKey(t[i].(hash := to), t[j])
  }

  function WatchlistPath(hasFrom: bool, hasTo: bool): string {
    if hasFrom && hasTo then "merged" else if hasFrom then "renamed" else if hasTo then "to_only" else "neither"
  }

  /** Fold both watchlist rows, or rename the only one, or leave the table alone. */
  ghost function MergeWatch(w: Watchlist, from: Hash, to: Hash): Watchlist {
    match (RowOf(w.rows, from), RowOf(w.rows, to))
    case (Some(f), Some(t)) =>
      w.(rows := RemoveWatch(StampFields(w.rows, to, MergeFields(f.fields, t.fields)), from))
    case (Some(_), None) => w.(rows := RenameWatch(w.rows, from, to))
    case _ => w
  }

  ghost function MergedTables(db: Tables, from: Hash, to: Hash, entry: AuditEntry): Tables {
    Tables(
      RenameDetections(db.detections, from, to),
      RenameEncounters(db.encounters, from, to),
      MergeWatch(db.watchlist, from, to),
      db.audit + [entry])
  }

  ghost function EditedTables(db: Tables, id: nat, cipher: Bytes, hash: Hash, entry: AuditEntry): Tables {
    db.(detections := CorrectDetection(db.detections, id, cipher, hash), audit := db.audit + [entry])
  }

  // ---------------------------------------------------------------- affected routes

  datatype RouteKey = RouteKey(dongle: string, route: string)

  predicate DetectionOn(ds: Detections, h: Hash, k: RouteKey) {
    exists id :: id in ds && ds[id].hash == h && RouteKey(ds[id].dongle, ds[id].route) == k
  }

  predicate EncounterOn(t: Encounters, h: Hash, k: RouteKey) {
    exists id :: id in t && t[id].hash == h && RouteKey(t[id].dongle, t[id].route) == k
  }

  predicate Touches(db: Tables, h: Hash, k: RouteKey) {
    DetectionOn(db.detections, h, k) || EncounterOn(db.encounters, h, k)
  }

  ghost predicate OnRoute(t: Encounters, k: RouteKey, e: Encounter) {
    RouteKey(e.dongle, e.route) == k && exists id :: id in t && t[id] == e
  }

  // ---------------------------------------------------------------- the unique indexes

  /** The encounter rename passes the unique index exactly when no two encounters of the two
      plates start at the same instant of the same route. */
  lemma RenameEncountersUnique(t: Encounters, from: Hash, to: Hash)
    requires EncounterKeysUnique(t) && from != to
    ensures EncounterKeysUnique(RenameEncounters(t, from, to)) <==> !Collides(t, from, to)
  {
    var after := RenameEncounters(t, from, to);
    if Collides(t, from, to) {
      var i, j :| i in t && j in t && t[i].hash == from && t[j].hash == to
                  && SameEncounterKey(t[i].(hash := to), t[j]);
      assert SameEncounterKey(after[i], after[j]) && i != j;
    } else {
      forall i, j | i in after && j in after && i != j ensures !SameEncounterKey(after[i], after[j]) {
        if t[j].hash == from && t[i].hash == to {
          assert !SameEncounterKey(t[j].(hash := to), t[i]);
        }
      }
    }
  }

  /** The row of any plate after the watchlist step: the source's is gone, the destination's
      carries the merged columns under its own kind and label, or is the source's row renamed;
      no other plate is touched. The index on plate_hash and the severity CHECK still hold. */
  lemma MergeWatchRow(w: Watchlist, from: Hash, to: Hash, g: Hash)
    requires WatchlistValid(w) && from != to
    ensures WatchlistValid(MergeWatch(w, from, to))
    ensures var (f, t) := (RowOf(w.rows, from), RowOf(w.rows, to));
            RowOf(MergeWatch(w, from, to).rows, g) ==
            if g == from then None
            else if g != to || f.None? then RowOf(w.rows, g)
            else if t.None? then Some(f.value.(hash := Some(to)))
            else Some(t.value.(fields := MergeFields(f.value.fields, t.value.fields)))
  {
    RowOfNone(w.rows, from);
    RowOfNone(w.rows, to);
    match (RowOf(w.rows, from), RowOf(w.rows, to))
    case (Some(f), Some(t)) =>
      var merged := MergeFields(f.fields, t.fields);
      var change := (r: WatchRow) => r.(fields := merged);
      assert SeverityAllowed(merged.severity);
      UpdateWatchRow(w.rows, to, change, g);
      assert StampFields(w.rows, to, merged) == UpdateWatch(w.rows, to, change);
      RemoveWatchRow(StampFields(w.rows, to, merged), from, g);
    case (Some(f), None) =>
      RenameWatchUnique(w.rows, from, to);
      RenameWatchRow(w.rows, from, to, g);
    case _ =>
  }

  lemma MergedTablesValid(db: Tables, from: Hash, to: Hash, entry: AuditEntry)
    requires TablesValid(db) && from != to && !Collides(db.encounters, from, to)
    ensures TablesValid(MergedTables(db, from, to, entry))
  {
    RenameEncountersUnique(db.encounters, from, to);
    MergeWatchRow(db.watchlist, from, to, from);
  }

  // ---------------------------------------------------------------- identity

  ghost predicate CarriesHash(db: Tables, h: Hash) {
    || (exists id :: id in db.detections && db.detections[id].hash == h)
    || (exists id :: id in db.encounters && db.encounters[id].hash == h)
    || HasHash(db.watchlist.rows, h)
  }

  lemma MergeMovesRow(w: Watchlist, from: Hash, to: Hash, g: Hash)
    requires WatchlistValid(w) && from != to
    ensures HasHash(MergeWatch(w, from, to).rows, g) <==> g != from && (HasHash(w.rows, g) || (g == to && HasHash(w.rows, from)))
  {
    MergeWatchRow(w, from, to, g);
    RowOfNone(MergeWatch(w, from, to).rows, g);
    RowOfNone(w.rows, g);
    RowOfNone(w.rows, from);
    RowOfNone(w.rows, to);
  }

  /** No row of any table carries the source hash any more, and no other plate disappears. */
  lemma MergeMovesIdentity(db: Tables, from: Hash, to: Hash, entry: AuditEntry, g: Hash)
    requires TablesValid(db) && from != to
    ensures CarriesHash(MergedTables(db, from, to, entry), g) <==>
            g != from && (CarriesHash(db, g) || (g == to && CarriesHash(db, from)))
  {
    var after := MergedTables(db, from, to, entry);
    MergeMovesRow(db.watchlist, from, to, g);
    if g != from {
      forall id | id in db.detections && (db.detections[id].hash == g || (g == to && db.detections[id].hash == from))
        ensures after.detections[id].hash == g {}
      forall id | id in db.encounters && (db.encounters[id].hash == g || (g == to && db.encounters[id].hash == from))
        ensures after.encounters[id].hash == g {}
    }
  }

  // ---------------------------------------------------------------- evidence

  lemma RenameKeepsEvidence(ds: Detections, e: Encounter, from: Hash, to: Hash)
    requires HasEvidence(ds, e)
    ensures HasEvidence(RenameDetections(ds, from, to), if e.hash == from then e.(hash := to) else e)
  {
    var id :| id in ds && Supports(ds[id], e);
    assert Supports(RenameDetections(ds, from, to)[id], if e.hash == from then e.(hash := to) else e);
  }

  /** Both renames together leave every encounter with a detection inside its window, so the
      orphan sweep that follows a merge deletes nothing. */
  lemma MergeKeepsEvidence(db: Tables, from: Hash, to: Hash, entry: AuditEntry)
    requires Evidenced(db)
    ensures var after := MergedTables(db, from, to, entry);
            Evidenced(after) && DropOrphans(after.detections, after.encounters) == after.encounters
  {
    var after := MergedTables(db, from, to, entry);
    forall id | id in after.encounters ensures HasEvidence(after.detections, after.encounters[id]) {
      RenameKeepsEvidence(db.detections, db.encounters[id], from, to);
    }
  }

  /** Between the two renames exactly the source's encounters stand without evidence: a sweep at
      that point would delete every one of them. */
  lemma HalfMergedEvidence(db: Tables, from: Hash, to: Hash, id: nat)
    requires Evidenced(db) && from != to && id in db.encounters
    ensures HasEvidence(RenameDetections(db.detections, from, to), db.encounters[id])
            <==> db.encounters[id].hash != from
    ensures id in DropOrphans(RenameDetections(db.detections, from, to), db.encounters)
            <==> db.encounters[id].hash != from
  {
    var e := db.encounters[id];
    if e.hash != from {
      RenameKeepsEvidence(db.detections, e, from, to);
    }
  }

  /** A correction takes away an encounter's evidence exactly when the corrected detection was
      all of it and the plate really changed. */
  lemma CorrectionEvidence(ds: Detections, id: nat, cipher: Bytes, hash: Hash, e: Encounter)
    requires id in ds && HasEvidence(ds, e)
    ensures !HasEvidence(CorrectDetection(ds, id, cipher, hash), e) <==>
            hash != e.hash && forall other :: other in ds && other != id ==> !Supports(ds[other], e)
  {
    var after := CorrectDetection(ds, id, cipher, hash);
    assert forall other :: other in ds && other != id ==> after[other] == ds[other];
    if forall other :: other in ds && other != id ==> !Supports(ds[other], e) {
      assert Supports(ds[id], e);
      assert hash == e.hash ==> Supports(after[id], e);
    } else {
      var other :| other in ds && other != id && Supports(ds[other], e);
      assert Supports(after[other], e);
    }
  }

  // ---------------------------------------------------------------- runs of merges

  datatype Merge = Merge(from: Hash, to: Hash, entry: AuditEntry)

  /** Where a chain of merges sends a plate. */
  function Renamed(h: Hash, merges: seq<Merge>): Hash
    decreases merges
  {
    if merges == [] then h
    else Renamed(if h == merges[0].from then merges[0].to else h, merges[1..])
  }

  ghost function AfterMerges(db: Tables, merges: seq<Merge>): Tables
    decreases merges
  {
    if merges == [] then db
    else AfterMerges(MergedTables(db, merges[0].from, merges[0].to, merges[0].entry), merges[1..])
  }

  /** Every merge of the chain passes validation and the unique index in turn. */
  ghost predicate AllCommit(db: Tables, merges: seq<Merge>)
    decreases merges
  {
    merges != [] ==>
      && merges[0].from != merges[0].to
      && !Collides(db.encounters, merges[0].from, merges[0].to)
      && AllCommit(MergedTables(db, merges[0].from, merges[0].to, merges[0].entry), merges[1..])
  }

  /** A chain of merges keeps the constraints and the evidence of the tables. */
  lemma {:induction false} MergeChainKeepsTables(db: Tables, merges: seq<Merge>)
    requires TablesValid(db) && AllCommit(db, merges)
    ensures TablesValid(AfterMerges(db, merges))
    ensures Evidenced(db) ==> Evidenced(AfterMerges(db, merges))
    decreases merges
  {
    if merges != [] {
      var m := merges[0];
      MergedTablesValid(db, m.from, m.to, m.entry);
      if Evidenced(db) {
        MergeKeepsEvidence(db, m.from, m.to, m.entry);
      }
      MergeChainKeepsTables(MergedTables(db, m.from, m.to, m.entry), merges[1..]);
    }
  }

  /** A chain of merges only ever renames: each detection keeps its ciphertext and every other
      column, its hash goes through the composition of the renamings, and none is added or lost;
      and likewise for the encounters. */
  lemma {:induction false} MergeChainComposes(db: Tables, merges: seq<Merge>)
    ensures var after := AfterMerges(db, merges);
            && after.detections.Keys == db.detections.Keys
            && after.encounters.Keys == db.encounters.Keys
            && (forall id :: id in db.detections ==>
                  after.detections[id] == db.detections[id].(hash := Renamed(db.detections[id].hash, merges)))
            && (forall id :: id in db.encounters ==>
                  after.encounters[id] == db.encounters[id].(hash := Renamed(db.encounters[id].hash, merges)))
    decreases merges
  {
    if merges != [] {
      var m := merges[0];
      var next := MergedTables(db, m.from, m.to, m.entry);
      assert next.detections.Keys == db.detections.Keys;
      assert next.encounters.Keys == db.encounters.Keys;
      MergeChainComposes(next, merges[1..]);
    }
  }

  /** A plate that was merged away and never named as a destination again stays away. */
  lemma {:induction false} MergedAwayStaysAway(h: Hash, merges: seq<Merge>, k: nat)
    requires k < |merges| && forall i :: 0 <= i < |merges| ==> merges[i].from != merges[i].to
    requires forall i :: k <= i < |merges| ==> merges[i].to != merges[k].from
    ensures Renamed(h, merges) != merges[k].from
    decreases |merges|
  {
    var step := if h == merges[0].from then merges[0].to else h;
    if k > 0 {
      MergedAwayStaysAway(step, merges[1..], k - 1);
    } else {
      NeverRenamedTo(step, merges[1..], merges[0].from);
    }
  }

  lemma {:induction false} NeverRenamedTo(h: Hash, merges: seq<Merge>, away: Hash)
    requires h != away && forall i :: 0 <= i < |merges| ==> merges[i].to != away
    ensures Renamed(h, merges) != away
    decreases merges
  {
    if merges != [] {
      NeverRenamedTo(if h == merges[0].from then merges[0].to else h, merges[1..], away);
    }
  }
}
