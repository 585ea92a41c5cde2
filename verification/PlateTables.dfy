/**
  The plate tables (sql/migrations/015 and 018) as values, and the SQL statements of
  internal/db/alpr_detections.sql.go, alpr_encounters.sql.go and alpr_watchlist.sql.go as
  functions from table to table. A table maps the BIGSERIAL id of a row to the row.
*/
module PlateTables {
  import opened Common
  import opened WatchlistMerge

  type Hash = Bytes

  const HASH_SIZE := 32

  datatype Detection = Detection(
    dongle: string, route: string, hash: Hash, cipher: Option<Bytes>, ocrCorrected: bool, frameTs: int)

  /** The status column is TEXT; a CHECK admits the first four values and no other text. */
  datatype EncounterStatus = StatusActive | StatusReviewed | StatusWhitelist | StatusAlerted | StatusText(text: string)

  datatype Encounter = Encounter(
    dongle: string, route: string, hash: Hash, firstSeen: int, lastSeen: int,
    count: int, turns: int, maxGap: int, status: EncounterStatus)

  datatype Kind = Whitelist | Alerted | Note

  /** A signature-keyed alert has no plate hash (migration 018). */
  datatype WatchRow = WatchRow(hash: Option<Hash>, labelCipher: Option<Bytes>, kind: Kind, fields: Fields)

  type Detections = map<nat, Detection>
  type Encounters = map<nat, Encounter>
  type WatchRows = map<nat, WatchRow>

  /** The watchlist with the next value of its id sequence. */
  datatype Watchlist = Watchlist(rows: WatchRows, nextId: nat)

  const NO_FIELDS := Fields(None, None, None, None, None)

  // ---------------------------------------------------------------- constraints

  predicate SameEncounterKey(a: Encounter, b: Encounter) {
    a.dongle == b.dongle && a.route == b.route && a.hash == b.hash && a.firstSeen == b.firstSeen
  }

  /** UNIQUE (dongle_id, route, plate_hash, first_seen_ts) */
  predicate EncounterKeysUnique(t: Encounters) {
    forall i, j :: i in t && j in t && i != j ==> !SameEncounterKey(t[i], t[j])
  }

  /** CHECK (status IN ('active', 'reviewed', 'whitelist', 'alerted')) */
  predicate StatusAllowed(s: EncounterStatus) { !s.StatusText? }

  predicate StatusesAllowed(t: Encounters) { forall id :: id in t ==> StatusAllowed(t[id].status) }

  /** The partial unique index on plate_hash where it is not NULL. */
  predicate HashesUnique(rows: WatchRows) {
    forall i, j :: i in rows && j in rows && i != j && rows[i].hash.Some? ==> rows[i].hash != rows[j].hash
  }

  /** CHECK (severity BETWEEN 1 AND 5), which lets NULL through. */
  predicate SeverityAllowed(s: Option<int>) { s.Some? ==> 1 <= s.value <= 5 }

  predicate WatchlistValid(w: Watchlist) {
    && HashesUnique(w.rows)
    && (forall id :: id in w.rows ==> id < w.nextId && SeverityAllowed(w.rows[id].fields.severity))
  }

  // ---------------------------------------------------------------- plate_detections

  function RenameDetections(t: Detections, from: Hash, to: Hash): Detections {
    map id | id in t :: if t[id].hash == from then t[id].(hash := to) else t[id]
  }

  function CorrectDetection(t: Detections, id: nat, cipher: Bytes, hash: Hash): Detections {
    if id in t then t[id := t[id].(cipher := Some(cipher), hash := hash, ocrCorrected := true)] else t
  }

  function PruneAllBefore(t: Detections, cutoff: int): Detections {
    map id | id in t && !(t[id].frameTs < cutoff) :: t[id]
  }

  /** SQL's three-valued x NOT IN (list): a NULL in the list turns "true" into "unknown". */
  function NotIn(x: Hash, list: seq<Option<Hash>>): Option<bool> {
    if Some(x) in list then Some(false)
    else if None in list then Option<bool>.None
    else Some(true)
  }

  function PruneUnflaggedBefore(t: Detections, cutoff: int, flagged: seq<Option<Hash>>): Detections {
    map id | id in t && !(t[id].frameTs < cutoff && NotIn(t[id].hash, flagged) == Some(true)) :: t[id]
  }

  // ---------------------------------------------------------------- plate_encounters

  function RenameEncounters(t: Encounters, from: Hash, to: Hash): Encounters {
    map id | id in t :: if t[id].hash == from then t[id].(hash := to) else t[id]
  }

  /** d is a surviving detection behind encounter e. */
  predicate Supports(d: Detection, e: Encounter) {
    d.dongle == e.dongle && d.route == e.route && d.hash == e.hash && e.firstSeen <= d.frameTs <= e.lastSeen
  }

  predicate HasEvidence(ds: Detections, e: Encounter) {
    exists id :: id in ds && Supports(ds[id], e)
  }

  function DropOrphans(ds: Detections, t: Encounters): Encounters {
    map id | id in t && HasEvidence(ds, t[id]) :: t[id]
  }

  /** DeleteEncountersForRoute. */
  function DropRoute(t: Encounters, dongle: string, route: string): Encounters {
    map id | id in t && !(t[id].dongle == dongle && t[id].route == route) :: t[id]
  }

  /** INSERT ... ON CONFLICT (dongle_id, route, plate_hash, first_seen_ts) DO UPDATE of the
      other columns; nextId is the id sequence. None is a violation of the status CHECK. */
  function UpsertEncounter(t: Encounters, nextId: nat, e: Encounter): Option<(Encounters, nat)> {
    if !StatusAllowed(e.status) then None
    else if exists id :: id in t && SameEncounterKey(t[id], e) then
      Some((map id | id in t ::
              if SameEncounterKey(t[id], e)
              then t[id].(lastSeen := e.lastSeen, count := e.count, turns := e.turns, maxGap := e.maxGap, status := e.status)
              else t[id],
            nextId))
    else Some((t[nextId := e], nextId + 1))
  }

  /** An upsert that succeeds keeps the table's constraints. */
  lemma UpsertEncounterKeeps(t: Encounters, nextId: nat, e: Encounter)
    requires EncounterKeysUnique(t) && StatusesAllowed(t) && forall id :: id in t ==> id < nextId
    requires StatusAllowed(e.status)
    ensures var (after, next) := UpsertEncounter(t, nextId, e).value;
            EncounterKeysUnique(after) && StatusesAllowed(after) && forall id :: id in after ==> id < next
  {}

  /** It succeeds exactly for an admitted status. Afterwards the encounter's key has exactly the row
      e, every other key keeps its rows, and a second upsert changes nothing. */
  lemma UpsertEncounterRows(t: Encounters, nextId: nat, e: Encounter, f: Encounter)
    requires EncounterKeysUnique(t) && StatusesAllowed(t) && forall id :: id in t ==> id < nextId
    ensures UpsertEncounter(t, nextId, e).Some? <==> StatusAllowed(e.status)
    ensures StatusAllowed(e.status) ==>
            var (after, next) := UpsertEncounter(t, nextId, e).value;
            && EncounterKeysUnique(after) && StatusesAllowed(after) && (forall id :: id in after ==> id < next)
            && ((exists id :: id in after && after[id] == f) <==>
                if SameEncounterKey(f, e) then f == e else exists id :: id in t && t[id] == f)
            && UpsertEncounter(after, next, e) == Some((after, next))
  {
    if !StatusAllowed(e.status) { return; }
    var (after, next) := UpsertEncounter(t, nextId, e).value;
    UpsertEncounterKeeps(t, nextId, e);
    if exists id :: id in t && SameEncounterKey(t[id], e) {
      var id :| id in t && SameEncounterKey(t[id], e);
      assert after[id] == e;
      assert forall other :: other in t && other != id ==> after[other] == t[other];
    } else {
      assert after[nextId] == e;
      assert forall other :: other in t ==> after[other] == t[other];
    }
    UpsertEncounterAgain(after, next, e);
  }

  lemma UpsertEncounterAgain(t: Encounters, nextId: nat, e: Encounter)
    requires EncounterKeysUnique(t) && StatusAllowed(e.status) && exists id :: id in t && t[id] == e
    ensures UpsertEncounter(t, nextId, e) == Some((t, nextId))
  {
    var id :| id in t && t[id] == e;
    assert SameEncounterKey(t[id], e);
    assert forall other :: other in t && SameEncounterKey(t[other], e) ==> other == id;
    assert UpsertEncounter(t, nextId, e).value.0 == t;
  }

  // ---------------------------------------------------------------- plate_watchlist

  predicate HasHash(rows: WatchRows, h: Hash) {
    exists id :: id in rows && rows[id].hash == Some(h)
  }

  function RemoveWatch(rows: WatchRows, h: Hash): WatchRows {
    map id | id in rows && rows[id].hash != Some(h) :: rows[id]
  }

  /** UPDATE plate_watchlist SET plate_hash = to WHERE plate_hash = from */
  function RenameWatch(rows: WatchRows, from: Hash, to: Hash): WatchRows {
    map id | id in rows :: if rows[id].hash == Some(from) then rows[id].(hash := Some(to)) else rows[id]
  }

  /** UPDATE plate_watchlist SET ... WHERE plate_hash = h, for an update that keeps the hash. */
  function UpdateWatch(rows: WatchRows, h: Hash, change: WatchRow -> WatchRow): WatchRows {
    map id | id in rows :: if rows[id].hash == Some(h) then change(rows[id]).(hash := rows[id].hash) else rows[id]
  }

  function StampFields(rows: WatchRows, h: Hash, fields: Fields): WatchRows {
    UpdateWatch(rows, h, (r: WatchRow) => r.(fields := fields))
  }

  /** INSERT ... ON CONFLICT (plate_hash) DO UPDATE */
  function UpsertWatch(w: Watchlist, h: Hash, inserted: WatchRow, change: WatchRow -> WatchRow): Watchlist {
    if HasHash(w.rows, h) then w.(rows := UpdateWatch(w.rows, h, change))
    else Watchlist(w.rows[w.nextId := inserted.(hash := Some(h))], w.nextId + 1)
  }

  /** GREATEST(COALESCE(existing, 0), computed): GREATEST skips a NULL argument. */
  function GreatestSeverity(existing: Option<int>, computed: Option<int>): Option<int> {
    var base := if existing.Some? then existing.value else 0;
    if computed.Some? then Some(Max(base, computed.value)) else Some(base)
  }

  function AlertedRow(labelCipher: Option<Bytes>, severity: Option<int>, notes: Option<string>, at: Option<int>): WatchRow {
    WatchRow(None, labelCipher, Alerted, Fields(severity, at, at, None, notes))
  }

  /** The clearing upsert's DO UPDATE. */
  function Realert(r: WatchRow, labelCipher: Option<Bytes>, severity: Option<int>, notes: Option<string>, at: Option<int>): WatchRow {
    WatchRow(r.hash, Coalesce(labelCipher, r.labelCipher), Alerted,
             Fields(severity, Coalesce(r.fields.firstAlert, at), at, None, Coalesce(notes, r.fields.notes)))
  }

  /** The ack-preserving upsert's DO UPDATE. */
  function Reconfirm(r: WatchRow, labelCipher: Option<Bytes>, severity: Option<int>, notes: Option<string>, at: Option<int>): WatchRow {
    WatchRow(r.hash, Coalesce(labelCipher, r.labelCipher), Alerted,
             Fields(GreatestSeverity(r.fields.severity, severity), Coalesce(r.fields.firstAlert, at), at,
                    r.fields.acked, Coalesce(notes, r.fields.notes)))
  }

  function Whitelisted(r: WatchRow, labelCipher: Option<Bytes>, notes: Option<string>): WatchRow {
    WatchRow(r.hash, Coalesce(labelCipher, r.labelCipher), Whitelist,
             NO_FIELDS.(notes := Coalesce(notes, r.fields.notes)))
  }

  // ---------------------------------------------------------------- the row of a plate

  /** GetWatchlistByHash. */
  ghost function RowOf(rows: WatchRows, h: Hash): Option<WatchRow> {
    if HasHash(rows, h)
    then var id :| id in rows && rows[id].hash == Some(h); Some(rows[id])
    else None
  }

  lemma RowOfIs(rows: WatchRows, id: nat, h: Hash)
    requires HashesUnique(rows) && id in rows && rows[id].hash == Some(h)
    ensures RowOf(rows, h) == Some(rows[id])
  {}

  lemma RowOfNone(rows: WatchRows, h: Hash)
    ensures RowOf(rows, h).None? <==> !HasHash(rows, h)
    ensures RowOf(rows, h).Some? ==> RowOf(rows, h).value.hash == Some(h)
  {}

  lemma UpdateWatchRow(rows: WatchRows, h: Hash, change: WatchRow -> WatchRow, g: Hash)
    requires HashesUnique(rows)
    ensures HashesUnique(UpdateWatch(rows, h, change))
    ensures RowOf(UpdateWatch(rows, h, change), g) ==
            if g == h && RowOf(rows, h).Some? then Some(change(RowOf(rows, h).value).(hash := Some(h)))
            else RowOf(rows, g)
  {
    var after := UpdateWatch(rows, h, change);
    assert forall id :: id in rows <==> id in after;
    assert forall id :: id in rows ==> after[id].hash == rows[id].hash;
    if HasHash(rows, g) {
      var id :| id in rows && rows[id].hash == Some(g);
      RowOfIs(rows, id, g);
      RowOfIs(after, id, g);
    }
  }

  lemma RemoveWatchRow(rows: WatchRows, h: Hash, g: Hash)
    requires HashesUnique(rows)
    ensures HashesUnique(RemoveWatch(rows, h))
    ensures RowOf(RemoveWatch(rows, h), g) == if g == h then None else RowOf(rows, g)
  {
    var after := RemoveWatch(rows, h);
    if g != h && HasHash(rows, g) {
      var id :| id in rows && rows[id].hash == Some(g);
      RowOfIs(rows, id, g);
      RowOfIs(after, id, g);
    }
  }

  /** Renaming a row stays within the unique index exactly when it does not run into another row. */
  lemma RenameWatchUnique(rows: WatchRows, from: Hash, to: Hash)
    requires HashesUnique(rows) && from != to
    ensures HashesUnique(RenameWatch(rows, from, to)) <==> !(HasHash(rows, from) && HasHash(rows, to))
  {
    var after := RenameWatch(rows, from, to);
    if HasHash(rows, from) && HasHash(rows, to) {
      var i :| i in rows && rows[i].hash == Some(from);
      var j :| j in rows && rows[j].hash == Some(to);
      assert after[i].hash == Some(to) == after[j].hash && i != j;
    }
  }

  lemma RenameWatchRow(rows: WatchRows, from: Hash, to: Hash, g: Hash)
    requires HashesUnique(rows) && from != to && HasHash(rows, from) && !HasHash(rows, to)
    ensures RowOf(RenameWatch(rows, from, to), g) ==
            if g == from then None
            else if g == to then Some(RowOf(rows, from).value.(hash := Some(to)))
            else RowOf(rows, g)
  {
    RenameWatchUnique(rows, from, to);
    var after := RenameWatch(rows, from, to);
    var was := if g == to then from else g;
    if g != from && HasHash(rows, was) {
      var id :| id in rows && rows[id].hash == Some(was);
      RowOfIs(rows, id, was);
      RowOfIs(after, id, g);
    }
  }

  lemma UpsertWatchRow(w: Watchlist, h: Hash, inserted: WatchRow, change: WatchRow -> WatchRow, g: Hash)
    requires WatchlistValid(w)
    ensures HashesUnique(UpsertWatch(w, h, inserted, change).rows)
    ensures RowOf(UpsertWatch(w, h, inserted, change).rows, g) ==
            if g != h then RowOf(w.rows, g)
            else if RowOf(w.rows, h).Some? then Some(change(RowOf(w.rows, h).value).(hash := Some(h)))
            else Some(inserted.(hash := Some(h)))
  {
    if HasHash(w.rows, h) {
      UpdateWatchRow(w.rows, h, change, g);
    } else {
      var after := UpsertWatch(w, h, inserted, change).rows;
      assert HashesUnique(after);
      if HasHash(w.rows, g) {
        var id :| id in w.rows && w.rows[id].hash == Some(g);
        RowOfIs(w.rows, id, g);
        RowOfIs(after, id, g);
      } else if g == h {
        RowOfIs(after, w.nextId, h);
      }
    }
  }
}
