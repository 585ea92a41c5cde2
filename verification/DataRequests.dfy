/**
  On-demand data requests (internal/api/route_data_request.go: RequestFullData, GetFullDataRequest;
  internal/db/route_data_requests.sql.go; internal/worker/route_data_request_dispatcher.go: processRow).
*/
module DataRequests {
  import opened Common
  import opened Decimal
  import opened Ordering
  import opened UploadPaths
  import opened SegmentUploads
  import opened UploadStorage

  const IDEMPOTENCY_WINDOW := 3600  // one hour in seconds; no result depends on the unit of the instants

  datatype Status = Pending | Dispatched | Partial | Complete | Failed

  datatype Request = Request(routeId: int, kind: string, requestedAt: int, status: Status, dispatchedAt: Option<int>,
                             completedAt: Option<int>, error: Option<string>, files: nat)

  /** route_data_requests in id order; rows are only ever added at the end. */
  type Requests = seq<Request>

  // ---------------------------------------------------------------- completion

  predicate Completes(status: Status, requested: nat, uploaded: nat) {
    !status.Complete? && !status.Failed? && requested > 0 && uploaded >= requested
  }

  function Percent(requested: nat, uploaded: nat): nat {
    if requested > 0 then uploaded * 100 / requested else 100
  }

  function UploadedIn(db: Db, dongle: string, route: string, wanted: seq<string>): nat
    requires (dongle, route) in db.routes
  {
    Uploaded(ListSegmentsByRoute(db.segments, db.routes[(dongle, route)]), wanted)
  }

  function TotalIn(db: Db, dongle: string, route: string, wanted: seq<string>): nat
    requires (dongle, route) in db.routes
  {
    |ListSegmentsByRoute(db.segments, db.routes[(dongle, route)])| * |wanted|
  }

  /** Whether a GET after these PUTs completes a request minted before them exactly when every
      wanted file is there. */
  ghost predicate JudgedRightly(db: Db, dongle: string, route: string, wanted: seq<string>, puts: seq<(int, string)>)
    requires (dongle, route) in db.routes
  {
    var after := AfterPuts(db, dongle, route, puts);
    Completes(Dispatched, |MissingIn(db, dongle, route, wanted)|, UploadedIn(after, dongle, route, wanted))
    <==> MissingIn(after, dongle, route, wanted) == []
  }

  /** Uploads only ever add, by exactly what they take off the missing files. */
  lemma PutsCount(db: Db, dongle: string, route: string, wanted: seq<string>, puts: seq<(int, string)>)
    requires PlainRoute(db, dongle, route) && Trackable(wanted) && LegalPuts(db, dongle, route, puts)
    ensures var after := AfterPuts(db, dongle, route, puts);
            && UploadedIn(after, dongle, route, wanted) + |MissingIn(after, dongle, route, wanted)|
               == TotalIn(db, dongle, route, wanted)
               == UploadedIn(db, dongle, route, wanted) + |MissingIn(db, dongle, route, wanted)|
            && UploadedIn(db, dongle, route, wanted) <= UploadedIn(after, dongle, route, wanted)
  {
    PutsLeaveOthers(db, dongle, route, wanted, puts);
    var id := db.routes[(dongle, route)];
    CountsConserved(ListSegmentsByRoute(db.segments, id), wanted);
    CountsConserved(ListSegmentsByRoute(AfterPuts(db, dongle, route, puts).segments, id), wanted);
  }

  lemma OneLeft(db: Db, dongle: string, route: string, wanted: seq<string>) returns (puts: seq<(int, string)>)
    requires PlainRoute(db, dongle, route) && Trackable(wanted) && KeysUnique(db.segments)
    requires MissingIn(db, dongle, route, wanted) != []
    ensures LegalPuts(db, dongle, route, puts)
    ensures |MissingIn(AfterPuts(db, dongle, route, puts), dongle, route, wanted)| == 1
  {
    var all := MissingIn(db, dongle, route, wanted);
    var k := |all| - 1;
    puts := all[..k];
    MissingIsListed(db, dongle, route, wanted);
    MissingDistinct(db, dongle, route, wanted);
    forall i | 0 <= i < k ensures puts[i].1 in VALID_FILENAMES && HasSegment(db.segments, db.routes[(dongle, route)], puts[i].0) {
      assert puts[i] in all && TestedByOwnFlag(puts[i].1);
    }
    PutsLeaveOthers(db, dongle, route, wanted, puts);
    forall i | 0 <= i < |all| ensures CoveredBy(puts, all[i]) <==> i < k {
      if i < k { assert Covers(puts[i], all[i]); }
      forall j | 0 <= j < k && Covers(puts[j], all[i]) ensures i < k {
        assert all[i] in all && all[j] in all;
        DistinctFlags(wanted, all[j].1, all[i].1);
        assert all[j] == all[i];
      }
    }
    WhereSplits(all, o => !CoveredBy(puts, o), k);
  }

  /** The completion test compares all uploads with the files that were missing at the start. It is
      right after every course of uploads if and only if nothing was uploaded at the start and there
      was something to upload. */
  lemma CompletionRightIff(db: Db, dongle: string, route: string, wanted: seq<string>)
    requires PlainRoute(db, dongle, route) && Trackable(wanted) && KeysUnique(db.segments)
    ensures (forall puts :: LegalPuts(db, dongle, route, puts) ==> JudgedRightly(db, dongle, route, wanted, puts))
            <==> UploadedIn(db, dongle, route, wanted) == 0 && TotalIn(db, dongle, route, wanted) > 0
  {
    var u0, total := UploadedIn(db, dongle, route, wanted), TotalIn(db, dongle, route, wanted);
    PutsCount(db, dongle, route, wanted, []);
    if u0 == 0 && total > 0 {
      forall puts | LegalPuts(db, dongle, route, puts) ensures JudgedRightly(db, dongle, route, wanted, puts) {
        PutsCount(db, dongle, route, wanted, puts);
      }
    } else if u0 == total {
      assert !JudgedRightly(db, dongle, route, wanted, []);
    } else {
      var puts := OneLeft(db, dongle, route, wanted);
      PutsCount(db, dongle, route, wanted, puts);
      assert !JudgedRightly(db, dongle, route, wanted, puts);
    }
  }

  lemma SoleSegment(seg: Segment)
    ensures ListSegmentsByRoute([seg], seg.routeId) == [seg]
  {
    WhereAll([seg], (s: Segment) => s.routeId == seg.routeId);
    assert [seg][1..] == [];
  }

  /** Two of the three cameras were there when the third was asked for: the request is complete at
      once, with that file still missing. */
  lemma CompletesEarly(dongle: string, route: string)
    requires route != "" && '/' !in route && route != "boot"
    ensures var db := Db(map[(dongle, route) := 1], 2, [Segment(1, 0, {Fcamera, Ecamera})]);
            && PlainRoute(db, dongle, route)
            && MissingIn(db, dongle, route, FULL_VIDEO_FILES) == [(0, "dcamera.hevc")]
            && UploadedIn(db, dongle, route, FULL_VIDEO_FILES) == 2 && Percent(1, 2) == 200
            && !JudgedRightly(db, dongle, route, FULL_VIDEO_FILES, [])
  {
    var seg := Segment(1, 0, {Fcamera, Ecamera});
    SoleSegment(seg);
    assert [seg][1..] == [] && [seg][..0] == [];
    var (three, two, one) := (FULL_VIDEO_FILES, ["fcamera.hevc", "ecamera.hevc"], ["fcamera.hevc"]);
    assert three[..2] == two && two[..1] == one && one[..0] == [];
    assert MissingOf(seg, two) == [];
    assert UploadedOf(seg, two) == 2;
    assert UploadedOf(seg, three) == 2;
  }

  /** "The percentage reaches 100 when the completion test is met, and only then" holds for every
      count of uploads if and only if something was requested: a request for nothing shows 100
      percent and is never completed. */
  lemma FullExactlyWhenComplete(requested: nat)
    ensures (forall uploaded: nat :: Percent(requested, uploaded) >= 100 <==> Completes(Dispatched, requested, uploaded))
            <==> requested > 0
  {
    if requested > 0 {
      forall uploaded: nat ensures Percent(requested, uploaded) >= 100 <==> Completes(Dispatched, requested, uploaded) {
        DivAtMost(uploaded * 100, requested, 99);
      }
    } else {
      assert Percent(0, 0) >= 100 && !Completes(Dispatched, 0, 0);
    }
  }

  lemma PercentIs(requested: nat, uploaded: nat)
    ensures if requested == 0 then Percent(requested, uploaded) == 100
            else Percent(requested, uploaded) * requested <= 100 * uploaded < (Percent(requested, uploaded) + 1) * requested
  {}

  /** The percentage never falls as uploads arrive, and with u0 files there at the start it stays
      within 100 to the very end exactly when they were fewer than one in 101 (or everything). */
  lemma PercentRange(requested: nat, u0: nat)
    ensures forall u: nat, v: nat :: u <= v ==> Percent(requested, u) <= Percent(requested, v)
    ensures Percent(requested, u0 + requested) <= 100 <==> requested == 0 || 101 * u0 < u0 + requested
  {
    if requested > 0 {
      forall u: nat, v: nat | u <= v ensures Percent(requested, u) <= Percent(requested, v) {
        DivMonotone(u * 100, v * 100, requested);
      }
      DivAtMost((u0 + requested) * 100, requested, 100);
    }
  }

  lemma MulMonotone(d: nat, x: nat, y: nat)
    requires x <= y
    ensures d * x <= d * y
  {}

  lemma DivAtMost(a: nat, d: nat, q: nat)
    requires d > 0
    ensures a / d <= q <==> a < d * (q + 1)
  {
    var x := a / d;
    assert a == d * x + a % d;
    if x <= q { MulMonotone(d, x, q); } else { MulMonotone(d, q + 1, x); }
    assert d * (q + 1) == d * q + d;
  }

  lemma DivMonotone(a: nat, b: nat, d: nat)
    requires a <= b && d > 0
    ensures a / d <= b / d
  {
    DivAtMost(b, d, b / d);
    DivAtMost(a, d, b / d);
  }

  // ---------------------------------------------------------------- no item twice

  lemma {:induction false} MissingOfDistinct(seg: Segment, wanted: seq<string>)
    requires NoDuplicates(wanted)
    ensures NoDuplicates(MissingOf(seg, wanted))
    decreases |wanted|
  {
    if wanted != [] {
      var rest := wanted[..|wanted| - 1];
      MissingOfDistinct(seg, rest);
      forall m | m in MissingOf(seg, rest) ensures m.1 != wanted[|wanted| - 1] {
        MissingOfHas(seg, rest, m);
      }
    }
  }

  lemma {:induction false} MissingOfSorted(segments: Segments, wanted: seq<string>)
    requires NoDuplicates(wanted) && Sorted(segments, (a: Segment, b: Segment) => a.number < b.number)
    ensures NoDuplicates(Missing(segments, wanted))
    decreases |segments|
  {
    if segments != [] {
      var rest, last := segments[..|segments| - 1], segments[|segments| - 1];
      MissingOfSorted(rest, wanted);
      MissingOfDistinct(last, wanted);
      assert forall s :: s in rest ==> s.number < last.number;
      forall m | m in Missing(rest, wanted) ensures m.0 != last.number {
        MissingHas(rest, wanted, m);
      }
      forall m | m in MissingOf(last, wanted) ensures m.0 == last.number {
        MissingOfHas(last, wanted, m);
      }
    }
  }

  lemma MissingDistinct(db: Db, dongle: string, route: string, wanted: seq<string>)
    requires (dongle, route) in db.routes && Trackable(wanted) && KeysUnique(db.segments)
    ensures NoDuplicates(MissingIn(db, dongle, route, wanted))
  {
    var id := db.routes[(dongle, route)];
    var less := (a: Segment, b: Segment) => a.number < b.number;
    OwnComparable(db.segments, id);
    OrderBySorts(Where(db.segments, (s: Segment) => s.routeId == id), less);
    MissingOfSorted(ListSegmentsByRoute(db.segments, id), wanted);
  }

  lemma {:induction false} OwnComparable(t: Segments, id: int)
    requires KeysUnique(t)
    ensures Comparable(Where(t, (s: Segment) => s.routeId == id), (a: Segment, b: Segment) => a.number < b.number)
    decreases |t|
  {
    if t != [] {
      var own := (s: Segment) => s.routeId == id;
      OwnComparable(t[1..], id);
      forall s | s in Where(t[1..], own) && own(t[0]) ensures s.number != t[0].number {
        WhereHas(t[1..], own, s);
      }
    }
  }

  // ---------------------------------------------------------------- steps

  datatype Delivery = Offline | RpcError(message: string) | Sent

  /** GetLatestRouteDataRequestByRoute: some row of the route and kind that no other is later than.
      Among rows requested at the same instant the statement does not say which. */
  ghost predicate IsLatest(rows: Requests, routeId: int, kind: string, pick: Option<nat>) {
    match pick
    case None => forall i :: 0 <= i < |rows| ==> !Matches(rows[i], routeId, kind)
    case Some(p) =>
      && p < |rows| && Matches(rows[p], routeId, kind)
      && forall i :: 0 <= i < |rows| && Matches(rows[i], routeId, kind) ==> rows[i].requestedAt <= rows[p].requestedAt
  }

  predicate Matches(r: Request, routeId: int, kind: string) { r.routeId == routeId && r.kind == kind }

  /** Post reads the clock once to check (now) and the database stamps the row later (at); Get is
      the polling endpoint, Sweep one visit of the dispatcher to a pending row. */
  datatype Event =
    | Post(routeId: int, kind: string, pick: Option<nat>, now: int, at: int, delivery: Delivery, files: nat)
    | Get(id: nat, uploaded: nat, now: int)
    | Sweep(id: nat, delivery: Delivery, spent: bool, now: int)

  predicate Reused(rows: Requests, pick: Option<nat>, now: int) {
    pick.Some? && pick.value < |rows| && !rows[pick.value].status.Failed?
    && now - rows[pick.value].requestedAt < IDEMPOTENCY_WINDOW
  }

  function NewRequest(routeId: int, kind: string, now: int, at: int, delivery: Delivery, files: nat): Request {
    match delivery
    case Offline => Request(routeId, kind, at, Pending, None, None, None, files)
    case RpcError(m) => Request(routeId, kind, at, Failed, None, None, Some(m), files)
    case Sent => Request(routeId, kind, at, Dispatched, Some(now), None, None, files)
  }

  function Step(rows: Requests, e: Event): Requests {
    match e
    case Post(id, kind, pick, now, at, delivery, files) =>
      if FilesForKind(kind).None? || Reused(rows, pick, now) then rows
      else rows + [NewRequest(id, kind, now, at, delivery, files)]
    case Get(id, uploaded, now) =>
      if id < |rows| && Completes(rows[id].status, rows[id].files, uploaded)
      then rows[id := rows[id].(status := Complete, completedAt := Some(now))] else rows
    case Sweep(id, delivery, spent, now) =>
      if id >= |rows| || !rows[id].status.Pending? then rows
      else if delivery.Sent? then rows[id := rows[id].(status := Dispatched, dispatchedAt := Some(now))]
      else if spent then rows[id := rows[id].(status := Failed, error := Some("dispatch failed"))]
      else rows
  }

  /** A visit of the dispatcher, column by column: it touches a pending row alone, which it marks as
      dispatched at that time, or as failed once the attempts are spent, or leaves pending. */
  lemma SweepIs(rows: Requests, id: nat, delivery: Delivery, spent: bool, now: int)
    requires id < |rows|
    ensures Step(rows, Sweep(id, delivery, spent, now)) ==
            rows[id := if rows[id].status != Pending then rows[id]
                       else if delivery == Sent then rows[id].(status := Dispatched, dispatchedAt := Some(now))
                       else if spent then rows[id].(status := Failed, error := Some("dispatch failed")) else rows[id]]
  {}

  /** The clock has not run backwards since the rows of the key were stamped. */
  predicate InTime(rows: Requests, e: Event) {
    e.Post? ==>
      e.now <= e.at && forall i :: 0 <= i < |rows| && Matches(rows[i], e.routeId, e.kind) ==> rows[i].requestedAt <= e.at
  }

  /** A latest row of the key has failed and shares its instant with one that has not, less than a
      window before the request. */
  ghost predicate TiedWithLive(rows: Requests, routeId: int, kind: string, at: int) {
    exists p: nat, i: nat :: IsTie(rows, routeId, kind, at, p, i)
  }

  ghost predicate IsTie(rows: Requests, routeId: int, kind: string, at: int, p: nat, i: nat) {
    && IsLatest(rows, routeId, kind, Some(p)) && rows[p].status.Failed?
    && i < |rows| && Matches(rows[i], routeId, kind) && !rows[i].status.Failed?
    && rows[i].requestedAt == rows[p].requestedAt && at < rows[i].requestedAt + IDEMPOTENCY_WINDOW
  }

  /** The request would be answered by a row that hides a live one. */
  ghost predicate Unlucky(rows: Requests, e: Event) {
    e.Post? && FilesForKind(e.kind).Some? && TiedWithLive(rows, e.routeId, e.kind, e.at)
  }

  /** A request in time that is not unlucky, with some latest row as its answer. */
  ghost predicate Legal(rows: Requests, e: Event) {
    InTime(rows, e) && !Unlucky(rows, e) && (e.Post? ==> IsLatest(rows, e.routeId, e.kind, e.pick))
  }

  predicate SameKey(a: Request, b: Request) { a.routeId == b.routeId && a.kind == b.kind }

  /** Rows of a key are in time order, and whatever follows one that has not failed follows it by
      the window. */
  ghost predicate Spaced(rows: Requests) {
    forall i, j :: 0 <= i < j < |rows| && SameKey(rows[i], rows[j]) ==>
      && rows[i].requestedAt <= rows[j].requestedAt
      && (!rows[i].status.Failed? ==> rows[i].requestedAt + IDEMPOTENCY_WINDOW <= rows[j].requestedAt)
  }

  /** A row keeps its request for good; failed and complete are final. */
  ghost predicate Settled(before: Requests, after: Requests) {
    && |before| <= |after|
    && forall i :: 0 <= i < |before| ==>
         && SameKey(before[i], after[i]) && before[i].requestedAt == after[i].requestedAt && before[i].files == after[i].files
         && (before[i].status.Failed? || before[i].status.Complete? ==> after[i] == before[i])
  }

  lemma PostKeepsSpaced(rows: Requests, e: Event)
    requires Spaced(rows) && Legal(rows, e) && e.Post? && FilesForKind(e.kind).Some? && !Reused(rows, e.pick, e.now)
    ensures Spaced(rows + [NewRequest(e.routeId, e.kind, e.now, e.at, e.delivery, e.files)])
  {
    forall i: nat | i < |rows| && Matches(rows[i], e.routeId, e.kind) && !rows[i].status.Failed?
      ensures rows[i].requestedAt + IDEMPOTENCY_WINDOW <= e.at
    {
      var p := e.pick.value;
      if rows[p].status.Failed? {
        assert !IsTie(rows, e.routeId, e.kind, e.at, p, i);
        if p < i { assert SameKey(rows[p], rows[i]); } else { assert SameKey(rows[i], rows[p]); }
      }
    }
  }

  /** Every answer the statement may give to a request keeps the spacing, if and only if the request
      is not unlucky. */
  lemma AnswersKeepSpacedIff(rows: Requests, e: Event)
    requires Spaced(rows) && InTime(rows, e) && e.Post?
    ensures (forall pick :: IsLatest(rows, e.routeId, e.kind, pick) ==> Spaced(Step(rows, e.(pick := pick))))
            <==> !Unlucky(rows, e)
  {
    if Unlucky(rows, e) {
      var p: nat, i: nat :| IsTie(rows, e.routeId, e.kind, e.at, p, i);
      var after := Step(rows, e.(pick := Some(p)));
      assert after[i] == rows[i] && after[|rows|].requestedAt == e.at && SameKey(after[i], after[|rows|]);
      assert IsLatest(rows, e.routeId, e.kind, Some(p)) && !Spaced(after);
    } else {
      forall pick | IsLatest(rows, e.routeId, e.kind, pick) ensures Spaced(Step(rows, e.(pick := pick))) {
        if FilesForKind(e.kind).Some? && !Reused(rows, pick, e.now) { PostKeepsSpaced(rows, e.(pick := pick)); }
      }
    }
  }

  /** Rows of a key that all have instants of their own are never tied. */
  lemma DistinctInstantsNeverTied(rows: Requests, e: Event)
    requires forall i, j :: 0 <= i < j < |rows| && SameKey(rows[i], rows[j]) ==> rows[i].requestedAt != rows[j].requestedAt
    ensures !Unlucky(rows, e)
  {
    if e.Post? {
      forall p: nat, i: nat | p < |rows| && i < |rows| && SameKey(rows[p], rows[i])
        ensures p == i || rows[p].requestedAt != rows[i].requestedAt
      {
        if i < p { assert SameKey(rows[i], rows[p]); }
      }
      assert forall p: nat, i: nat :: !IsTie(rows, e.routeId, e.kind, e.at, p, i);
    }
  }

  lemma StepKeepsSpaced(rows: Requests, e: Event)
    requires Spaced(rows) && Legal(rows, e)
    ensures Spaced(Step(rows, e)) && Settled(rows, Step(rows, e))
  {
    if e.Post? {
      if FilesForKind(e.kind).Some? && !Reused(rows, e.pick, e.now) { PostKeepsSpaced(rows, e); }
    } else {
      var after := Step(rows, e);
      assert forall i :: 0 <= i < |rows| ==>
        after[i].routeId == rows[i].routeId && after[i].kind == rows[i].kind && after[i].requestedAt == rows[i].requestedAt
        && (rows[i].status.Failed? ==> after[i].status.Failed?);
    }
  }

  function AfterRun(rows: Requests, events: seq<Event>): Requests
    decreases events
  {
    if events == [] then rows else AfterRun(Step(rows, events[0]), events[1..])
  }

  ghost predicate LegalRun(rows: Requests, events: seq<Event>)
    decreases events
  {
    events != [] ==> Legal(rows, events[0]) && LegalRun(Step(rows, events[0]), events[1..])
  }

  lemma {:induction false} RunKeepsSpaced(rows: Requests, events: seq<Event>)
    requires Spaced(rows) && LegalRun(rows, events)
    ensures Spaced(AfterRun(rows, events)) && Settled(rows, AfterRun(rows, events))
    decreases events
  {
    if events != [] {
      StepKeepsSpaced(rows, events[0]);
      RunKeepsSpaced(Step(rows, events[0]), events[1..]);
    }
  }

  /** In every run any two requests for the same route and kind that have not failed were made at
      least an hour apart. */
  lemma RequestsAnHourApart(events: seq<Event>, i: nat, j: nat)
    requires LegalRun([], events) && i < j < |AfterRun([], events)|
    requires SameKey(AfterRun([], events)[i], AfterRun([], events)[j])
    requires !AfterRun([], events)[i].status.Failed? && !AfterRun([], events)[j].status.Failed?
    ensures AfterRun([], events)[i].requestedAt + 3600 <= AfterRun([], events)[j].requestedAt
  {
    RunKeepsSpaced([], events);
  }

  /** The clock never runs backwards along the events. */
  predicate Monotone(events: seq<Event>, clock: int)
    decreases events
  {
    events != [] ==>
      && (events[0].Post? ==> clock <= events[0].now <= events[0].at)
      && Monotone(events[1..], if events[0].Post? then events[0].at else clock)
  }

  /** One of the ways the statement may answer the event. */
  ghost predicate Answer(rows: Requests, e: Event, pick: Option<nat>) {
    e.Post? ==> IsLatest(rows, e.routeId, e.kind, pick)
  }

  function Answered(e: Event, pick: Option<nat>): Event { if e.Post? then e.(pick := pick) else e }

  /** However the ties are answered, the rows stay spaced all along. */
  ghost predicate AlwaysSpaced(rows: Requests, events: seq<Event>)
    decreases events
  {
    && Spaced(rows)
    && (events != [] ==> forall pick :: Answer(rows, events[0], pick) ==>
          AlwaysSpaced(Step(rows, Answered(events[0], pick)), events[1..]))
  }

  /** However the ties are answered, no request is unlucky. */
  ghost predicate NeverUnlucky(rows: Requests, events: seq<Event>)
    decreases events
  {
    events != [] ==>
      && !Unlucky(rows, events[0])
      && forall pick :: Answer(rows, events[0], pick) ==> NeverUnlucky(Step(rows, Answered(events[0], pick)), events[1..])
  }

  /** Under a clock that may repeat an instant but does not run backwards, the window holds along a
      run whatever the statement answers, if and only if no request of the run is unlucky. */
  lemma {:induction false} WindowHoldsIffNeverUnlucky(rows: Requests, events: seq<Event>, clock: int)
    requires Spaced(rows) && Monotone(events, clock) && forall i :: 0 <= i < |rows| ==> rows[i].requestedAt <= clock
    ensures AlwaysSpaced(rows, events) <==> NeverUnlucky(rows, events)
    decreases events
  {
    if events != [] {
      var e, rest := events[0], events[1..];
      if Unlucky(rows, e) {
        AnswersKeepSpacedIff(rows, e);
        var pick :| IsLatest(rows, e.routeId, e.kind, pick) && !Spaced(Step(rows, e.(pick := pick)));
        assert Answer(rows, e, pick) && !AlwaysSpaced(Step(rows, Answered(e, pick)), rest);
      } else {
        forall pick | Answer(rows, e, pick)
          ensures AlwaysSpaced(Step(rows, Answered(e, pick)), rest) <==> NeverUnlucky(Step(rows, Answered(e, pick)), rest)
        {
          StepKeepsSpaced(rows, Answered(e, pick));
          StepInTime(rows, Answered(e, pick), clock);
          WindowHoldsIffNeverUnlucky(Step(rows, Answered(e, pick)), rest, if e.Post? then e.at else clock);
        }
      }
    }
  }

  lemma StepInTime(rows: Requests, e: Event, clock: int)
    requires forall i :: 0 <= i < |rows| ==> rows[i].requestedAt <= clock
    requires e.Post? ==> clock <= e.at
    ensures forall i :: 0 <= i < |Step(rows, e)| ==> Step(rows, e)[i].requestedAt <= if e.Post? then e.at else clock
  {}

  function FailedPost(id: int, t: int): Event { Post(id, "all", None, t, t, RpcError("timeout"), 4) }

  function SentPost(id: int, t: int): Event { Post(id, "all", Some(0), t, t, Sent, 4) }

  /** Two requests come in at one instant; the first fails and the second is dispatched. */
  lemma TieReached(id: int, t: int)
    ensures var failed := NewRequest(id, "all", t, t, RpcError("timeout"), 4);
            && LegalRun([], [FailedPost(id, t), SentPost(id, t)])
            && AfterRun([], [FailedPost(id, t), SentPost(id, t)]) == [failed, NewRequest(id, "all", t, t, Sent, 4)]
  {
    var failed := NewRequest(id, "all", t, t, RpcError("timeout"), 4);
    assert [FailedPost(id, t), SentPost(id, t)][1..] == [SentPost(id, t)] && [SentPost(id, t)][1..] == [];
    assert Step([], FailedPost(id, t)) == [failed];
    DistinctInstantsNeverTied([], FailedPost(id, t));
    DistinctInstantsNeverTied([failed], SentPost(id, t));
    assert LegalRun([failed], [SentPost(id, t)]);
    assert AfterRun([failed], [SentPost(id, t)]) == Step([failed], SentPost(id, t));
  }

  /** A second later the statement may answer a third request with the failed one, and it is
      dispatched beside the second. */
  lemma TieDefeatsWindow(id: int, t: int)
    ensures var failed := NewRequest(id, "all", t, t, RpcError("timeout"), 4);
            var sent := NewRequest(id, "all", t, t, Sent, 4);
            && Spaced([failed, sent]) && IsLatest([failed, sent], id, "all", Some(0))
            && Unlucky([failed, sent], SentPost(id, t + 1))
            && Step([failed, sent], SentPost(id, t + 1)) == [failed, sent, NewRequest(id, "all", t + 1, t + 1, Sent, 4)]
  {
    var failed := NewRequest(id, "all", t, t, RpcError("timeout"), 4);
    var sent := NewRequest(id, "all", t, t, Sent, 4);
    assert IsTie([failed, sent], id, "all", t + 1, 0, 1);
  }

  // ---------------------------------------------------------------- handlers

  datatype PostReply = UnknownKind | NoRoute | Recent(id: nat) | Added(id: nat)

  class RequestHandler {
    var rows: Requests

    constructor ()
      ensures rows == []
    { rows := []; }

    /** ORDER BY requested_at DESC LIMIT 1, by a scan. */
    method GetLatest(routeId: int, kind: string) returns (pick: Option<nat>)
      ensures IsLatest(rows, routeId, kind, pick)
    {
      pick := None;
      for i := 0 to |rows|
        invariant IsLatest(rows[..i], routeId, kind, pick)
      {
        if Matches(rows[i], routeId, kind) && (pick.None? || rows[pick.value].requestedAt <= rows[i].requestedAt) {
          pick := Some(i);
        }
      }
      assert rows[..|rows|] == rows;
    }

    /** Returns the recent request if there is one that has not failed. Otherwise mints an address for
        every file that is missing, and adds a request for that many with the outcome of the dispatch. */
    method RequestFullData(db: Db, dongle: string, route: string, kind: string, now: int, at: int, delivery: Delivery)
      returns (r: PostReply, items: seq<Item>, ghost latest: Option<nat>)
      modifies this
      ensures r.UnknownKind? <==> FilesForKind(kind).None?
      ensures r.NoRoute? <==> FilesForKind(kind).Some? && (dongle, route) !in db.routes
      ensures r.UnknownKind? || r.NoRoute? ==> rows == old(rows)
      ensures r.Recent? || r.Added? ==>
                var missing := MissingIn(db, dongle, route, FilesForKind(kind).value);
                && IsLatest(old(rows), db.routes[(dongle, route)], kind, latest)
                && rows == Step(old(rows), Post(db.routes[(dongle, route)], kind, latest, now, at, delivery, |missing|))
                && (r.Added? ==> items == MintAll(route, missing))
      ensures r.Recent? ==>
                && rows == old(rows) && r.id < |rows| && Matches(rows[r.id], db.routes[(dongle, route)], kind)
                && !rows[r.id].status.Failed? && rows[r.id].requestedAt > now - 3600
      ensures r.Added? ==> forall i :: 0 <= i < |old(rows)| && Matches(old(rows)[i], db.routes[(dongle, route)], kind)
                                       && !old(rows)[i].status.Failed? && old(rows)[i].requestedAt > now - 3600 ==>
                latest.Some? && old(rows)[latest.value].status.Failed? && old(rows)[latest.value].requestedAt >= old(rows)[i].requestedAt
      ensures r.Added? ==>
                && r.id == |old(rows)| && |rows| == r.id + 1 && rows[..r.id] == old(rows)
                && Matches(rows[r.id], db.routes[(dongle, route)], kind) && rows[r.id].requestedAt == at
                && (rows[r.id].status.Failed? <==> delivery.RpcError?) && (rows[r.id].status.Pending? <==> delivery.Offline?)
                && (rows[r.id].dispatchedAt.Some? <==> delivery.Sent?) && rows[r.id].files == |items|
                && rows[r.id].dispatchedAt == (if delivery.Sent? then Some(now) else None) && rows[r.id].completedAt.None?
                && rows[r.id].error == (if delivery.RpcError? then Some(delivery.message) else None)
                && (rows[r.id].status.Dispatched? <==> delivery.Sent?)
    {
      items, latest := [], None;
      if FilesForKind(kind).None? { return UnknownKind, items, latest; }
      if (dongle, route) !in db.routes { return NoRoute, items, latest; }
      var routeId := db.routes[(dongle, route)];
      var pick := GetLatest(routeId, kind);
      latest := pick;
      if pick.Some? && !rows[pick.value].status.Failed? && now - rows[pick.value].requestedAt < IDEMPOTENCY_WINDOW {
        return Recent(pick.value), items, latest;
      }
      items := BuildUploadItems(route, ListSegmentsByRoute(db.segments, routeId), FilesForKind(kind).value);
      MintAllCount(route, MissingIn(db, dongle, route, FilesForKind(kind).value));
      rows := rows + [NewRequest(routeId, kind, now, at, delivery, |items|)];
      return Added(|rows| - 1), items, latest;
    }

    /** Reports progress, and completes the request when enough files are there. */
    method GetFullDataRequest(db: Db, dongle: string, route: string, id: nat, now: int) returns (percent: Option<nat>)
      modifies this
      ensures percent.Some? <==>
                id < |old(rows)| && (dongle, route) in db.routes && old(rows)[id].routeId == db.routes[(dongle, route)]
      ensures percent.None? ==> rows == old(rows)
      ensures percent.Some? ==>
                var was := old(rows)[id];
                var uploaded := if FilesForKind(was.kind).None? then 0 else UploadedIn(db, dongle, route, FilesForKind(was.kind).value);
                percent == Some(Percent(was.files, uploaded)) && rows == Step(old(rows), Get(id, uploaded, now))
                && (if was.files == 0 then percent.value == 100
                    else percent.value * was.files <= 100 * uploaded < (percent.value + 1) * was.files)
                && rows == if was.status.Complete? || was.status.Failed? || was.files == 0 || uploaded < was.files then old(rows)
                           else old(rows)[id := was.(status := Complete, completedAt := Some(now))]
    {
      if id >= |rows| || (dongle, route) !in db.routes || rows[id].routeId != db.routes[(dongle, route)] { return None; }
      var uploaded := CountUploadedForKind(ListSegmentsByRoute(db.segments, rows[id].routeId), rows[id].kind);
      percent := Some(Percent(rows[id].files, uploaded));
      PercentIs(rows[id].files, uploaded);
      if Completes(rows[id].status, rows[id].files, uploaded) {
        rows := rows[id := rows[id].(status := Complete, completedAt := Some(now))];
      }
    }
  }

  // ---------------------------------------------------------------- a whole course

  /** PUTs of accepted files to minted addresses, all stored and tracked. */
  method PutAll(u: UploadHandler, dongle: string, route: string, puts: seq<(int, string)>)
    requires PlainRoute(u.Tables(), dongle, route) && PlainName(dongle) && LegalPuts(u.Tables(), dongle, route, puts)
    modifies u
    ensures u.Tables() == AfterPuts(old(u.Tables()), dongle, route, puts)
  {
    for i := 0 to |puts|
      invariant u.Tables() == AfterPuts(old(u.Tables()), dongle, route, puts[..i])
    {
      PutIsStored(old(u.Tables()), u.base, dongle, route, puts, i);
      AfterPutsMore(old(u.Tables()), dongle, route, puts, i);
      var reply := u.UploadFile(dongle, Mint(route, puts[i]).put, Written, {});
    }
    assert puts[..|puts|] == puts;
  }

  lemma PutIsStored(db: Db, base: Base, dongle: string, route: string, puts: seq<(int, string)>, i: nat)
    requires PlainRoute(db, dongle, route) && PlainName(dongle) && LegalPuts(db, dongle, route, puts) && i < |puts|
    ensures var put := RoutePut(Mint(route, puts[i]).put);
            put.SegmentFile? && UnderBase(base, StoreDir(base, dongle, put.target.route, put.target.segment))
  {
    var (n, file) := puts[i];
    var j :| 0 <= j < |db.segments| && db.segments[j].routeId == db.routes[(dongle, route)] && db.segments[j].number == n;
    assert db.segments[j] in db.segments;
    FilenameIsPlain(file);
    PutReachesSegmentIff(route, n, file);
    AtoiItoa(n);
    NumeralIsPlain(Itoa(n));
    OwnDirectoryIff(base, dongle, route, Itoa(n), file);
  }

  /** A POST that finds no recent request, any course of PUTs, and a GET, through the handlers: the
      request is complete exactly when it was for something and as many files are there as it was for.
      If none was there at the start, that is exactly when none is missing. */
  method RequestUploadPoll(h: RequestHandler, u: UploadHandler, dongle: string, route: string, kind: string,
                           now: int, at: int, puts: seq<(int, string)>, later: int) returns (id: nat, percent: nat)
    requires PlainRoute(u.Tables(), dongle, route) && PlainName(dongle) && FilesForKind(kind).Some?
    requires LegalPuts(u.Tables(), dongle, route, puts)
    requires forall i :: 0 <= i < |h.rows| && Matches(h.rows[i], u.Tables().routes[(dongle, route)], kind) ==>
               h.rows[i].status.Failed? || now - h.rows[i].requestedAt >= IDEMPOTENCY_WINDOW
    modifies h, u
    ensures u.Tables() == AfterPuts(old(u.Tables()), dongle, route, puts)
    ensures id == |old(h.rows)| && |h.rows| == id + 1 && h.rows[..id] == old(h.rows)
    ensures var wanted := FilesForKind(kind).value;
            var (was, polled) := (old(u.Tables()), u.Tables());
            var (missing, left) := (|MissingIn(was, dongle, route, wanted)|, |MissingIn(polled, dongle, route, wanted)|);
            && h.rows[id].files == missing
            && percent == Percent(missing, UploadedIn(polled, dongle, route, wanted))
            && (h.rows[id].status.Complete? <==> Completes(Dispatched, missing, UploadedIn(polled, dongle, route, wanted)))
            && (UploadedIn(was, dongle, route, wanted) == 0 && missing > 0 ==> (h.rows[id].status.Complete? <==> left == 0))
  {
    ghost var wanted := FilesForKind(kind).value;
    var reply, items, latest := h.RequestFullData(u.Tables(), dongle, route, kind, now, at, Sent);
    id := reply.id;
    PutAll(u, dongle, route, puts);
    KindsAreTrackable(kind);
    PutsCount(old(u.Tables()), dongle, route, wanted, puts);
    PutsLeaveOthers(old(u.Tables()), dongle, route, wanted, puts);
    var answer := h.GetFullDataRequest(u.Tables(), dongle, route, id, later);
    percent := answer.value;
  }
}
