/**
  The operator endpoints over the plate tables (internal/api/alpr_corrections.go). The store
  holds the tables; each SQL statement is a method that may fail, and each handler is one
  request from validation to rollback or commit.
*/
module PlateStore {
  import opened Common
  import opened WatchlistMerge
  import opened PlateTables
  import opened PlateMerge

  /** The database calls of a request that an outside failure can hit. */
  datatype Call =
    | RouteQuery(hash: Hash, ofEncounters: bool)
    | WatchlistLookup(hash: Hash)
    | Begin | UpdateDetections | UpdateEncounters | UpdateWatchlist | DeleteWatchlist | InsertAudit
    | DeleteEncounters | Upsert(position: nat) | Commit

  datatype Lookup = Found(row: WatchRow) | NoRows | LookupFailed

  datatype MergeResponse =
    | MalformedHash | WrongLength | SameHash | NeitherExists | MergeFailed
    | Merged(affected: seq<RouteKey>)

  datatype EditResponse =
    | InvalidId | EmptyPlate | DetectionNotFound | ForeignDevice | EditFailed
    | Edited(affected: seq<RouteKey>, hint: Option<Hash>)

  /** Plate text that is empty once spaces, dashes, dots and tabs are stripped. */
  predicate BlankPlate(s: string) {
    forall i :: 0 <= i < |s| ==> s[i] == ' ' || s[i] == '-' || s[i] == '.' || s[i] == '\t'
  }

  predicate WellFormedPair(from: Option<Hash>, to: Option<Hash>) {
    from.Some? && to.Some? && |from.value| == HASH_SIZE && |to.value| == HASH_SIZE && from != to
  }

  /** What the route queries of one plate report when some of them fail: a failed query is skipped. */
  predicate Reported(db: Tables, h: Hash, faults: set<Call>, k: RouteKey) {
    || (RouteQuery(h, false) !in faults && DetectionOn(db.detections, h, k))
    || (RouteQuery(h, true) !in faults && EncounterOn(db.encounters, h, k))
  }

  /** The status that the aggregator writes with every encounter. */
  const WRITTEN_STATUS := StatusText("open")

  /** No call of a persist transaction over n encounters fails from outside. */
  predicate NoPersistFault(n: nat, faults: set<Call>) {
    Begin !in faults && DeleteEncounters !in faults && Commit !in faults
    && forall i :: 0 <= i < n ==> Upsert(i) !in faults
  }

  /** An encounter of each of the plates starts at the same instant on the same route. */
  ghost predicate StartTogether(es: Encounters, from: Hash, to: Hash) {
    exists i, j :: i in es && j in es && es[i].hash == from && es[j].hash == to
                   && es[i].dongle == es[j].dongle && es[i].route == es[j].route && es[i].firstSeen == es[j].firstSeen
  }

  /** That is what a merge fails on. */
  lemma CollidesIff(es: Encounters, from: Hash, to: Hash)
    ensures Collides(es, from, to) <==> StartTogether(es, from, to)
  {
    if i, j :| i in es && j in es && es[i].hash == from && es[j].hash == to && es[i].dongle == es[j].dongle
               && es[i].route == es[j].route && es[i].firstSeen == es[j].firstSeen {
      assert SameEncounterKey(es[i].(hash := to), es[j]);
    }
  }

  /** The device's route has a detection or an encounter of the plate. */
  predicate HasPlate(ds: Detections, es: Encounters, h: Hash, k: RouteKey) {
    || (exists id :: id in ds && ds[id].hash == h && ds[id].dongle == k.dongle && ds[id].route == k.route)
    || (exists id :: id in es && es[id].hash == h && es[id].dongle == k.dongle && es[id].route == k.route)
  }

  /** Those are the routes that a merge reports when no query fails. */
  lemma ReportedIs(db: Tables, h: Hash, faults: set<Call>, k: RouteKey)
    requires faults == {}
    ensures Reported(db, h, faults, k) <==> HasPlate(db.detections, db.encounters, h, k)
  {}

  /** Every detection and every encounter of the one plate is now the other's; nothing else about
      them changed, and those of other plates are as they were. */
  ghost predicate Moved(ds: Detections, now: Detections, es: Encounters, enow: Encounters, from: Hash, to: Hash) {
    && now.Keys == ds.Keys && enow.Keys == es.Keys
    && (forall id :: id in ds ==>
          && now[id].hash == (if ds[id].hash == from then to else ds[id].hash)
          && now[id].dongle == ds[id].dongle && now[id].route == ds[id].route && now[id].cipher == ds[id].cipher
          && now[id].ocrCorrected == ds[id].ocrCorrected && now[id].frameTs == ds[id].frameTs)
    && (forall id :: id in es ==>
          && enow[id].hash == (if es[id].hash == from then to else es[id].hash)
          && enow[id].dongle == es[id].dongle && enow[id].route == es[id].route
          && enow[id].firstSeen == es[id].firstSeen && enow[id].lastSeen == es[id].lastSeen
          && enow[id].count == es[id].count && enow[id].turns == es[id].turns && enow[id].maxGap == es[id].maxGap
          && enow[id].status == es[id].status)
  }

  /** v is the larger (the smaller) of two cells, of which NULL is none. */
  predicate LargerOf(v: Option<int>, a: Option<int>, b: Option<int>) {
    (v == a || v == b) && (a.Some? ==> v.Some? && v.value >= a.value) && (b.Some? ==> v.Some? && v.value >= b.value)
  }

  predicate SmallerOf(v: Option<int>, a: Option<int>, b: Option<int>) {
    (v == a || v == b) && (a.Some? ==> v.Some? && v.value <= a.value) && (b.Some? ==> v.Some? && v.value <= b.value)
  }

  /** The notes of a merged row: the destination's and then the source's. */
  predicate NotesJoined(v: Option<string>, from: Option<string>, to: Option<string>) {
    if from.Some? && to.Some? then v == Some(to.value + " | " + from.value) else v == if to.Some? then to else from
  }

  /** The watchlist after a merge, column by column: the source has no row; the destination has its own
      kind and label with the worst severity, the earliest first and the latest last alert, the later
      acknowledgement if both were acknowledged, and both notes; or it has the source's row. */
  ghost predicate WatchMoved(rows: WatchRows, now: WatchRows, from: Hash, to: Hash) {
    && RowOf(now, from).None?
    && (forall g :: g != from && g != to ==> RowOf(now, g) == RowOf(rows, g))
    && var (f, t, r) := (RowOf(rows, from), RowOf(rows, to), RowOf(now, to));
       if f.None? then r == t
       else if t.None? then r == Some(f.value.(hash := Some(to)))
       else
         && r.Some? && r.value.hash == Some(to) && r.value.kind == t.value.kind && r.value.labelCipher == t.value.labelCipher
         && var (ff, tf, rf) := (f.value.fields, t.value.fields, r.value.fields);
            && LargerOf(rf.severity, ff.severity, tf.severity)
            && SmallerOf(rf.firstAlert, ff.firstAlert, tf.firstAlert)
            && LargerOf(rf.lastAlert, ff.lastAlert, tf.lastAlert)
            && (if ff.acked.Some? && tf.acked.Some? then LargerOf(rf.acked, ff.acked, tf.acked) else rf.acked.None?)
            && NotesJoined(rf.notes, ff.notes, tf.notes)
  }

  lemma WatchlistMoved(w: Watchlist, from: Hash, to: Hash)
    requires WatchlistValid(w) && from != to
    ensures WatchMoved(w.rows, MergeWatch(w, from, to).rows, from, to)
  {
    forall g { MergeWatchRow(w, from, to, g); }
    RowColumns(w, from);
    RowColumns(w, to);
  }

  lemma RowsMoved(db: Tables, from: Hash, to: Hash, entry: AuditEntry)
    requires from != to
    ensures var now := MergedTables(db, from, to, entry);
            Moved(db.detections, now.detections, db.encounters, now.encounters, from, to)
  {}

  lemma RowColumns(w: Watchlist, h: Hash)
    requires WatchlistValid(w)
    ensures RowOf(w.rows, h).Some? ==> RowOf(w.rows, h).value.hash == Some(h) && SeverityAllowed(RowOf(w.rows, h).value.fields.severity)
  {}

  class Store {
    var detections: Detections
    var encounters: Encounters
    var nextEncounter: nat
    var watchlist: Watchlist
    var audit: seq<AuditEntry>

    ghost function Db(): Tables
      reads this
    { Tables(detections, encounters, watchlist, audit) }

    ghost predicate Valid()
      reads this
    { TablesValid(Db()) && forall id :: id in encounters ==> id < nextEncounter }

    // -------------------------------------------------------------- statements

    method BulkUpdateDetectionsHashOnly(to: Hash, from: Hash, faults: set<Call>) returns (ok: bool)
      modifies this`detections
      ensures ok <==> UpdateDetections !in faults
      ensures detections == if ok then RenameDetections(old(detections), from, to) else old(detections)
    {
      ok := UpdateDetections !in faults;
      if ok { detections := RenameDetections(detections, from, to); }
    }

    /** Fails as a whole when the unique index on the encounter key rejects a renamed row. */
    method BulkUpdateEncountersPlateHash(to: Hash, from: Hash, faults: set<Call>) returns (ok: bool)
      requires EncounterKeysUnique(encounters) && from != to
      modifies this`encounters
      ensures ok <==> UpdateEncounters !in faults && !Collides(old(encounters), from, to)
      ensures encounters == if ok then RenameEncounters(old(encounters), from, to) else old(encounters)
      ensures EncounterKeysUnique(encounters)
    {
      var renamed := RenameEncounters(encounters, from, to);
      RenameEncountersUnique(encounters, from, to);
      ok := UpdateEncounters !in faults && EncounterKeysUnique(renamed);
      if ok { encounters := renamed; }
    }

    method GetWatchlistByHash(h: Hash, faults: set<Call>) returns (r: Lookup)
      requires HashesUnique(watchlist.rows)
      ensures r.LookupFailed? <==> WatchlistLookup(h) in faults
      ensures r.Found? ==> RowOf(watchlist.rows, h) == Some(r.row)
      ensures r.NoRows? ==> RowOf(watchlist.rows, h).None?
    {
      RowOfNone(watchlist.rows, h);
      if WatchlistLookup(h) in faults { return LookupFailed; }
      if !HasHash(watchlist.rows, h) { return NoRows; }
      var id :| id in watchlist.rows && watchlist.rows[id].hash == Some(h);
      RowOfIs(watchlist.rows, id, h);
      return Found(watchlist.rows[id]);
    }

    method DistinctRoutes(h: Hash, ofEncounters: bool, faults: set<Call>) returns (rows: Option<seq<RouteKey>>)
      ensures rows.None? <==> RouteQuery(h, ofEncounters) in faults
      ensures rows.Some? ==> forall k :: k in rows.value <==>
                if ofEncounters then EncounterOn(encounters, h, k) else DetectionOn(detections, h, k)
    {
      if RouteQuery(h, ofEncounters) in faults { return None; }
      var keys :=
        if ofEncounters
        then set id | id in encounters && encounters[id].hash == h :: RouteKey(encounters[id].dongle, encounters[id].route)
        else set id | id in detections && detections[id].hash == h :: RouteKey(detections[id].dongle, detections[id].route);
      var out, left := [], keys;
      while left != {}
        invariant forall k :: k in keys <==> k in out || k in left
        decreases |left|
      {
        var k :| k in left;
        out, left := out + [k], left - {k};
      }
      return Some(out);
    }

    // -------------------------------------------------------------- affected routes

    /** The closure `add` of the collectors over one list of rows. */
    static method AddRoutes(seen0: set<RouteKey>, out0: seq<RouteKey>, rows: seq<RouteKey>)
      returns (seen: set<RouteKey>, out: seq<RouteKey>)
      requires NoDuplicates(out0) && forall k :: k in seen0 <==> k in out0
      ensures NoDuplicates(out) && forall k :: k in seen <==> k in out
      ensures forall k :: k in out <==> k in out0 || k in rows
      ensures |out0| <= |out| && out[..|out0|] == out0
    {
      seen, out := seen0, out0;
      for i := 0 to |rows|
        invariant NoDuplicates(out) && forall k :: k in seen <==> k in out
        invariant forall k :: k in out <==> k in out0 || k in rows[..i]
        invariant |out0| <= |out| && out[..|out0|] == out0
      {
        if rows[i] !in seen {
          seen, out := seen + {rows[i]}, out + [rows[i]];
        }
      }
    }

    /** Each route of either plate once, as far as the route queries answered. */
    method CollectAffectedRoutesForMerge(from: Hash, to: Hash, faults: set<Call>) returns (out: seq<RouteKey>)
      ensures NoDuplicates(out)
      ensures forall k :: k in out <==> Reported(Db(), from, faults, k) || Reported(Db(), to, faults, k)
    {
      var seen: set<RouteKey> := {};
      out := [];
      var hashes := [from, to];
      for i := 0 to 2
        invariant NoDuplicates(out) && forall k :: k in seen <==> k in out
        invariant forall k :: k in out <==>
                    (i > 0 && Reported(Db(), from, faults, k)) || (i > 1 && Reported(Db(), to, faults, k))
      {
        var rows := DistinctRoutes(hashes[i], false, faults);
        if rows.Some? { seen, out := AddRoutes(seen, out, rows.value); }
        rows := DistinctRoutes(hashes[i], true, faults);
        if rows.Some? { seen, out := AddRoutes(seen, out, rows.value); }
      }
    }

    /** The edited detection's own route first, then the routes of the new plate's detections and
        of the old plate's detections and encounters. */
    method CollectAffectedRoutes(before: Hash, after: Hash, own: RouteKey, faults: set<Call>)
      returns (out: seq<RouteKey>)
      ensures NoDuplicates(out) && |out| > 0 && out[0] == own
      ensures forall k :: k in out <==>
                || k == own
                || (RouteQuery(after, false) !in faults && DetectionOn(detections, after, k))
                || (before != after && Reported(Db(), before, faults, k))
    {
      var seen := {own};
      out := [own];
      var rows := DistinctRoutes(after, false, faults);
      if rows.Some? { seen, out := AddRoutes(seen, out, rows.value); }
      if before != after {
        rows := DistinctRoutes(before, false, faults);
        if rows.Some? { seen, out := AddRoutes(seen, out, rows.value); }
        rows := DistinctRoutes(before, true, faults);
        if rows.Some? { seen, out := AddRoutes(seen, out, rows.value); }
      }
    }

    // -------------------------------------------------------------- MergePlates

    /** The statements of the merge in order, stopping at the first that fails. A failure can
        leave the tables half merged: undoing that is up to the caller. */
    method MergeStatements(from: Hash, to: Hash, fromRow: Lookup, toRow: Lookup, entry: AuditEntry, faults: set<Call>)
      returns (ok: bool)
      requires Valid() && from != to
      requires !fromRow.LookupFailed? && !toRow.LookupFailed?
      requires fromRow.Found? ==> RowOf(watchlist.rows, from) == Some(fromRow.row)
      requires fromRow.NoRows? ==> RowOf(watchlist.rows, from).None?
      requires toRow.Found? ==> RowOf(watchlist.rows, to) == Some(toRow.row)
      requires toRow.NoRows? ==> RowOf(watchlist.rows, to).None?
      modifies this`detections, this`encounters, this`watchlist, this`audit
      ensures ok ==> Db() == MergedTables(old(Db()), from, to, entry)
      ensures ok <==> !Collides(old(encounters), from, to)
                      && UpdateDetections !in faults && UpdateEncounters !in faults && InsertAudit !in faults
                      && (fromRow.Found? ==> UpdateWatchlist !in faults)
                      && (fromRow.Found? && toRow.Found? ==> DeleteWatchlist !in faults)
    {
      ok := BulkUpdateDetectionsHashOnly(to, from, faults);
      if !ok { return; }
      ok := BulkUpdateEncountersPlateHash(to, from, faults);
      if !ok { return; }
      if fromRow.Found? {
        RowOfNone(watchlist.rows, from);
        RowOfNone(watchlist.rows, to);
        if toRow.Found? {
          var merged := MergeFields(fromRow.row.fields, toRow.row.fields);
          if UpdateWatchlist in faults || !SeverityAllowed(merged.severity) { return false; }
          watchlist := watchlist.(rows := StampFields(watchlist.rows, to, merged));
          if DeleteWatchlist in faults { return false; }
          watchlist := watchlist.(rows := RemoveWatch(watchlist.rows, from));
        } else {
          var renamed := RenameWatch(watchlist.rows, from, to);
          RenameWatchUnique(watchlist.rows, from, to);
          if UpdateWatchlist in faults || !HashesUnique(renamed) { return false; }
          watchlist := watchlist.(rows := renamed);
        }
      }
      if InsertAudit in faults { return false; }
      audit := audit + [entry];
    }

    /** POST /v1/alpr/plates/merge. None stands for a hash that is not base64. Either all tables
        take the merged state or none changes; without outside failures the response is decided
        by the input and the tables, and a well-formed merge of a known plate fails exactly when
        two encounters collide. */
    method MergePlates(from: Option<Hash>, to: Option<Hash>, faults: set<Call>) returns (r: MergeResponse)
      requires Valid()
      modifies this
      ensures Valid()
      ensures !r.Merged? ==> Db() == old(Db())
      ensures r.Merged? ==>
                && WellFormedPair(from, to)
                && !Collides(old(encounters), from.value, to.value)
                && Db() == MergedTables(old(Db()), from.value, to.value,
                     PlateMergeEntry(from.value, to.value, |r.affected|,
                       WatchlistPath(HasHash(old(watchlist.rows), from.value), HasHash(old(watchlist.rows), to.value))))
                && NoDuplicates(r.affected)
                && (forall k :: k in r.affected <==>
                      Reported(old(Db()), from.value, faults, k) || Reported(old(Db()), to.value, faults, k))
      ensures r.Merged? ==> Moved(old(detections), detections, old(encounters), encounters, from.value, to.value)
      ensures r.MalformedHash? <==> from.None? || to.None?
      ensures r.WrongLength? <==> from.Some? && to.Some? && !(|from.value| == 32 && |to.value| == 32)
      ensures r.SameHash? <==> from.Some? && to == from && |to.value| == 32
      ensures r.Merged? ==> WatchMoved(old(watchlist.rows), watchlist.rows, from.value, to.value)
      ensures r.Merged? ==> |audit| == |old(audit)| + 1 && audit[..|old(audit)|] == old(audit)
                            && audit[|old(audit)|].PlateMergeEntry?
                            && audit[|old(audit)|].from == from.value && audit[|old(audit)|].to == to.value
                            && audit[|old(audit)|].affectedRoutes == |r.affected|
                            && audit[|old(audit)|].watchlistPath ==
                               (if HasHash(old(watchlist.rows), from.value)
                                then if HasHash(old(watchlist.rows), to.value) then "merged" else "renamed"
                                else if HasHash(old(watchlist.rows), to.value) then "to_only" else "neither")
      ensures faults == {} ==>
                && (r.Merged? || r.NeitherExists? || r.MergeFailed? <==> WellFormedPair(from, to))
                && (r.NeitherExists? <==>
                      WellFormedPair(from, to) && !CarriesHash(old(Db()), from.value) && !CarriesHash(old(Db()), to.value))
                && (r.MergeFailed? <==> WellFormedPair(from, to) && Collides(old(encounters), from.value, to.value))
    {
      if from.None? || to.None? { return MalformedHash; }
      var source, target := from.value, to.value;
      if |source| != HASH_SIZE || |target| != HASH_SIZE { return WrongLength; }
      if source == target { return SameHash; }

      var affected := CollectAffectedRoutesForMerge(source, target, faults);
      var fromRow := GetWatchlistByHash(source, faults);
      var toRow := GetWatchlistByHash(target, faults);
      RowOfNone(watchlist.rows, source);
      RowOfNone(watchlist.rows, target);
      EmptyMeansUnknown(Db(), source, target, affected, faults);
      if |affected| == 0 && fromRow.NoRows? && toRow.NoRows? { return NeitherExists; }
      if fromRow.LookupFailed? || toRow.LookupFailed? { return MergeFailed; }

      if Begin in faults { return MergeFailed; }
      var snapshot := (detections, encounters, watchlist, audit);
      var entry := PlateMergeEntry(source, target, |affected|, WatchlistPath(fromRow.Found?, toRow.Found?));
      var ok := MergeStatements(source, target, fromRow, toRow, entry, faults);
      if !ok || Commit in faults {
        detections, encounters, watchlist, audit := snapshot.0, snapshot.1, snapshot.2, snapshot.3;
        return MergeFailed;
      }
      MergedTablesValid(old(Db()), source, target, entry);
      WatchlistMoved(snapshot.2, source, target);
      RowsMoved(old(Db()), source, target, entry);
      return Merged(affected);
    }

    /** An empty answer from working route queries means no detection and no encounter. */
    static lemma EmptyMeansUnknown(db: Tables, from: Hash, to: Hash, affected: seq<RouteKey>, faults: set<Call>)
      requires forall k :: k in affected <==> Reported(db, from, faults, k) || Reported(db, to, faults, k)
      ensures faults == {} ==>
                (|affected| == 0 && !HasHash(db.watchlist.rows, from) && !HasHash(db.watchlist.rows, to)
                 <==> !CarriesHash(db, from) && !CarriesHash(db, to))
      ensures Collides(db.encounters, from, to) ==> CarriesHash(db, from)
    {
      if faults == {} {
        if |affected| > 0 {
          assert affected[0] in affected;
        }
        forall id | id in db.detections && (db.detections[id].hash == from || db.detections[id].hash == to)
          ensures |affected| > 0
        {
          var k := RouteKey(db.detections[id].dongle, db.detections[id].route);
          assert DetectionOn(db.detections, db.detections[id].hash, k);
          assert k in affected;
        }
        forall id | id in db.encounters && (db.encounters[id].hash == from || db.encounters[id].hash == to)
          ensures |affected| > 0
        {
          var k := RouteKey(db.encounters[id].dongle, db.encounters[id].route);
          assert EncounterOn(db.encounters, db.encounters[id].hash, k);
          assert k in affected;
        }
      }
    }

    // -------------------------------------------------------------- EditDetection

    /** PATCH /v1/alpr/detections/:id. The keyring is a parameter: hashOf is its Hash, encrypt its
        Encrypt, which may refuse. A merge is hinted at exactly when the plate changed and the new
        one has a watchlist row. */
    method EditDetection(id: int, plate: string, hashOf: string -> Hash, encrypt: string -> Option<Bytes>,
                         mayAccess: string -> bool, loadFails: bool, faults: set<Call>)
      returns (r: EditResponse)
      requires Valid()
      modifies this
      ensures Valid()
      ensures !r.Edited? ==> Db() == old(Db())
      ensures r.InvalidId? <==> id <= 0
      ensures r.EmptyPlate? <==> id > 0 && forall c :: c in plate ==> c in [' ', '-', '.', '\t']
      ensures r.Edited? ==>
                && id > 0 && id in old(detections) && !BlankPlate(plate) && encrypt(plate).Some?
                && mayAccess(old(detections)[id].dongle)
                && var d := old(detections)[id];
                && Db() == EditedTables(old(Db()), id, encrypt(plate).value, hashOf(plate),
                     PlateEditEntry(id, d.dongle, d.route, d.hash, hashOf(plate)))
                && detections == old(detections)[id := Detection(d.dongle, d.route, hashOf(plate), encrypt(plate), true, d.frameTs)]
                && encounters == old(encounters) && watchlist == old(watchlist)
                && audit == old(audit) + [PlateEditEntry(id, d.dongle, d.route, d.hash, hashOf(plate))]
                && NoDuplicates(r.affected) && |r.affected| > 0 && r.affected[0] == RouteKey(d.dongle, d.route)
                && (faults == {} ==> forall k :: k in r.affected <==>
                      || k == RouteKey(d.dongle, d.route)
                      || DetectionOn(detections, hashOf(plate), k)
                      || (d.hash != hashOf(plate) && Touches(Db(), d.hash, k)))
                && (r.hint.Some? ==> r.hint.value == hashOf(plate))
                && (r.hint.Some? <==> d.hash != hashOf(plate) && HasHash(watchlist.rows, hashOf(plate))
                                      && WatchlistLookup(hashOf(plate)) !in faults)
      ensures faults == {} && !loadFails ==>
                (r.Edited? <==> id > 0 && id in old(detections) && !BlankPlate(plate) && encrypt(plate).Some?
                                && mayAccess(old(detections)[id].dongle))
    {
      if id <= 0 { return InvalidId; }
      assert BlankPlate(plate) <==> forall c :: c in plate ==> c in [' ', '-', '.', '\t'] by {
        assert forall i :: 0 <= i < |plate| ==> plate[i] in plate;
      }
      if BlankPlate(plate) { return EmptyPlate; }
      if loadFails { return EditFailed; }
      if id !in detections { return DetectionNotFound; }
      var d := detections[id];
      if !mayAccess(d.dongle) { return ForeignDevice; }
      var newHash := hashOf(plate);
      var newCipher := encrypt(plate);
      if newCipher.None? { return EditFailed; }

      if Begin in faults { return EditFailed; }
      var snapshot := (detections, audit);
      var ok := UpdateDetections !in faults;
      if ok {
        detections := CorrectDetection(detections, id, newCipher.value, newHash);
        ok := InsertAudit !in faults;
      }
      if ok {
        audit := audit + [PlateEditEntry(id, d.dongle, d.route, d.hash, newHash)];
      }
      if !ok || Commit in faults {
        detections, audit := snapshot.0, snapshot.1;
        return EditFailed;
      }

      var affected := CollectAffectedRoutes(d.hash, newHash, RouteKey(d.dongle, d.route), faults);
      var hint: Option<Hash> := None;
      if d.hash != newHash {
        RowOfNone(watchlist.rows, newHash);
        var existing := GetWatchlistByHash(newHash, faults);
        if existing.Found? { hint := existing.row.hash; }
      }
      return Edited(affected, hint);
    }

    // -------------------------------------------------------------- aggregator

    /** Replace a route's encounters inside one transaction. It succeeds exactly when no call fails
        and either nothing is to be written or the status written is one the table admits. Then the
        route holds exactly the computed encounters; no other route ever changes. */
    method PersistEncounters(k: RouteKey, computed: seq<Encounter>, written: EncounterStatus, faults: set<Call>)
      returns (ok: bool)
      requires Valid()
      requires forall i :: 0 <= i < |computed| ==> RouteKey(computed[i].dongle, computed[i].route) == k
      requires forall i :: 0 <= i < |computed| ==> computed[i].status == written
      requires forall i, j :: 0 <= i < j < |computed| ==> !SameEncounterKey(computed[i], computed[j])
      modifies this`encounters, this`nextEncounter
      ensures Valid()
      ensures ok <==> NoPersistFault(|computed|, faults) && (computed == [] || StatusAllowed(written))
      ensures faults == {} ==>
                (ok <==> computed == [] || written in {StatusActive, StatusReviewed, StatusWhitelist, StatusAlerted})
      ensures !ok ==> encounters == old(encounters)
      ensures ok ==> forall r, e :: OnRoute(encounters, r, e) <==>
                if r == k then e in computed else OnRoute(old(encounters), r, e)
    {
      if Begin in faults || DeleteEncounters in faults { return false; }
      var before := encounters;
      encounters := DropRoute(encounters, k.dongle, k.route);
      DropRouteRows(before, k);
      for i := 0 to |computed|
        invariant EncounterKeysUnique(encounters) && StatusesAllowed(encounters)
        invariant forall id :: id in encounters ==> id < nextEncounter
        invariant nextEncounter >= old(nextEncounter)
        invariant (forall j :: 0 <= j < i ==> Upsert(j) !in faults) && (i > 0 ==> StatusAllowed(written))
        invariant forall r, e :: OnRoute(encounters, r, e) <==>
                    if r == k then e in computed[..i] else OnRoute(before, r, e)
      {
        var next := UpsertEncounter(encounters, nextEncounter, computed[i]);
        if Upsert(i) in faults || next.None? {
          encounters := before;
          return false;
        }
        ghost var was := encounters;
        forall f { UpsertEncounterRows(encounters, nextEncounter, computed[i], f); }
        encounters, nextEncounter := next.value.0, next.value.1;
        UpsertedOnRoute(was, encounters, before, k, computed, i);
      }
      if Commit in faults {
        encounters := before;
        return false;
      }
      assert computed[..|computed|] == computed;
      return true;
    }

    /** The aggregator's persist. It writes the status "open", which the table does not admit: a
        route without encounters is emptied, and a route with any keeps its old rows. */
    method Persist(k: RouteKey, computed: seq<Encounter>, faults: set<Call>) returns (ok: bool)
      requires Valid()
      requires forall i :: 0 <= i < |computed| ==> RouteKey(computed[i].dongle, computed[i].route) == k
      requires forall i :: 0 <= i < |computed| ==> computed[i].status == WRITTEN_STATUS
      requires forall i, j :: 0 <= i < j < |computed| ==> !SameEncounterKey(computed[i], computed[j])
      modifies this`encounters, this`nextEncounter
      ensures Valid()
      ensures ok <==> NoPersistFault(|computed|, faults) && computed == []
      ensures !ok ==> encounters == old(encounters)
      ensures ok ==> forall r, e :: OnRoute(encounters, r, e) <==> r != k && OnRoute(old(encounters), r, e)
    {
      ok := PersistEncounters(k, computed, WRITTEN_STATUS, faults);
    }

    static lemma UpsertedOnRoute(was: Encounters, now: Encounters, before: Encounters, k: RouteKey,
                                 computed: seq<Encounter>, i: nat)
      requires i < |computed| && RouteKey(computed[i].dongle, computed[i].route) == k
      requires forall j, l :: 0 <= j < l < |computed| ==> !SameEncounterKey(computed[j], computed[l])
      requires forall f :: (exists id :: id in now && now[id] == f) <==>
                 if SameEncounterKey(f, computed[i]) then f == computed[i] else exists id :: id in was && was[id] == f
      requires forall r, e :: OnRoute(was, r, e) <==> if r == k then e in computed[..i] else OnRoute(before, r, e)
      ensures forall r, e :: OnRoute(now, r, e) <==> if r == k then e in computed[..i + 1] else OnRoute(before, r, e)
    {
      var row := computed[i];
      forall r, e ensures OnRoute(now, r, e) <==> if r == k then e in computed[..i + 1] else OnRoute(before, r, e) {
        assert computed[..i + 1] == computed[..i] + [row];
        assert OnRoute(now, r, e) <==> if SameEncounterKey(e, row) then r == k && e == row else OnRoute(was, r, e);
        if r == k && SameEncounterKey(e, row) {
          assert e !in computed[..i];
        }
      }
    }

    static lemma DropRouteRows(t: Encounters, k: RouteKey)
      ensures forall r, e :: OnRoute(DropRoute(t, k.dongle, k.route), r, e) <==> r != k && OnRoute(t, r, e)
    {
      var after := DropRoute(t, k.dongle, k.route);
      forall r, e | r != k && OnRoute(t, r, e) ensures OnRoute(after, r, e) {
        var id :| id in t && t[id] == e;
        assert after[id] == e;
      }
    }
  }
}
