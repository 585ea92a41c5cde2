/**
  Start, end and track of a route from its log (internal/cereal/route_metadata.go). Instants are
  nanoseconds since the Unix epoch, coordinates are exact reals.
*/
module RouteMetadata {
  import opened Common

  const EPSILON := 0.000001
  const MILLISECOND := 1_000_000
  const MAX_DRIFT := 24 * 3600 * 1_000_000_000
  const YEAR_2010 := 1_262_304_000_000_000_000
  const YEAR_2100 := 4_102_444_800_000_000_000

  // ---------------------------------------------------------------- events

  datatype GpsData = GpsData(hasFix: bool, lat: real, lng: real, unixMs: int)

  datatype Event =
    | InitData(wallTimeNanos: nat)
    | GpsLocation(gps: GpsData)
    | GpsLocationExternal(gps: GpsData)
    | LiveLocationKalman(statusValid: bool, gpsOk: bool, positionValid: bool, position: seq<real>, unixMs: int)
    | OtherEvent

  /** time is None when the source carried no usable clock. */
  datatype GpsPoint = GpsPoint(lat: real, lng: real, time: Option<int>)

  predicate PlausibleWallClock(t: int) { YEAR_2010 < t < YEAR_2100 }

  const TWO_63 := 0x8000_0000_0000_0000
  const TWO_64 := 0x1_0000_0000_0000_0000

  /** The int64 that holds x modulo 2^64. */
  function Int64(x: int): (r: int)
    ensures -TWO_63 <= r < TWO_63
    ensures -TWO_63 <= x < TWO_63 ==> r == x
    decreases if x >= TWO_63 then 2 * x else if x < -TWO_63 then -2 * x else 0
  {
    if x >= TWO_63 then Int64(x - TWO_64) else if x < -TWO_63 then Int64(x + TWO_64) else x
  }

  function GpsTime(unixMs: int): Option<int> {
    if unixMs <= 0 then None
    else
      var t := Int64(unixMs * MILLISECOND);
      if PlausibleWallClock(t) then Some(t) else None
  }

  function InitTime(ns: nat): Option<int> {
    if ns == 0 || !PlausibleWallClock(Int64(ns)) then None else Some(Int64(ns))
  }

  predicate GpsLatLonValid(lat: real, lng: real) {
    !(lat == 0.0 && lng == 0.0) && -90.0 <= lat <= 90.0 && -180.0 <= lng <= 180.0
  }

  function ValidPoint(lat: real, lng: real, unixMs: int): Option<GpsPoint> {
    if GpsLatLonValid(lat, lng) then Some(GpsPoint(lat, lng, GpsTime(unixMs))) else None
  }

  /** The fix an event carries, if it is a valid one. */
  function Fix(e: Event): Option<GpsPoint> {
    match e
    case GpsLocation(g) => if g.hasFix then ValidPoint(g.lat, g.lng, g.unixMs) else None
    case GpsLocationExternal(g) => if g.hasFix then ValidPoint(g.lat, g.lng, g.unixMs) else None
    case LiveLocationKalman(ok, gpsOk, posOk, pos, ms) =>
      if ok && gpsOk && posOk && |pos| >= 2 then ValidPoint(pos[0], pos[1], ms) else None
    case _ => None
  }

  /** The multiplication in GpsTime is 64 bits wide: an accepted time is the event's own exactly when
      the product fits. */
  lemma GpsTimeExactIff(ms: int)
    requires ms > 0 && GpsTime(ms).Some?
    ensures GpsTime(ms).value == ms * MILLISECOND <==> ms * MILLISECOND < TWO_63
  {}

  /** A clock reading in the year 2602 is taken for one in 2017. */
  lemma WrappedTimeAccepted()
    ensures GpsTime(19_946_744_073_709) == Some(1_499_999_999_999_448_384)
  {}

  // ---------------------------------------------------------------- specification

  function Fixes(events: seq<Event>): seq<GpsPoint> {
    if events == [] then []
    else
      var before := Fixes(events[..|events| - 1]);
      match Fix(events[|events| - 1])
      case Some(p) => before + [p]
      case None => before
  }

  function FirstInit(events: seq<Event>): Option<int> {
    if events == [] then None
    else
      match FirstInit(events[..|events| - 1])
      case Some(t) => Some(t)
      case None => if events[|events| - 1].InitData? then InitTime(events[|events| - 1].wallTimeNanos) else None
  }

  function Abs(x: real): real { if x < 0.0 then -x else x }

  predicate Near(a: GpsPoint, b: GpsPoint) { Abs(b.lat - a.lat) < EPSILON && Abs(b.lng - a.lng) < EPSILON }

  /** Keep a fix unless it is near the last one kept. */
  function Extend(kept: seq<GpsPoint>, next: GpsPoint): seq<GpsPoint> {
    if kept != [] && Near(kept[|kept| - 1], next) then kept else kept + [next]
  }

  function Dedupe(fixes: seq<GpsPoint>): seq<GpsPoint> {
    if fixes == [] then [] else Extend(Dedupe(fixes[..|fixes| - 1]), fixes[|fixes| - 1])
  }

  lemma DedupeMore(fixes: seq<GpsPoint>, p: GpsPoint)
    ensures Dedupe(fixes + [p]) == Extend(Dedupe(fixes), p)
  {
    assert (fixes + [p])[..|fixes|] == fixes;
  }

  /** The usable times of the fixes, kept or not. */
  function Times(fixes: seq<GpsPoint>): set<int> {
    set i | 0 <= i < |fixes| && fixes[i].time.Some? :: fixes[i].time.value
  }

  /** t is the least (the greatest) of the times. */
  ghost predicate IsFirst(t: Option<int>, times: set<int>) {
    if t.None? then times == {} else t.value in times && forall u :: u in times ==> t.value <= u
  }

  ghost predicate IsLast(t: Option<int>, times: set<int>) {
    if t.None? then times == {} else t.value in times && forall u :: u in times ==> u <= t.value
  }

  /** The drift rule. */
  function StartEnd(init: Option<int>, first: Option<int>, last: Option<int>): (Option<int>, Option<int>) {
    if init.Some? && first.Some? then
      var drift := first.value - init.value;
      if (if drift < 0 then -drift else drift) > MAX_DRIFT then (first, last)
      else (init, if last.Some? && last.value > init.value then last else init)
    else if init.Some? then (init, init)
    else (first, last)
  }

  // ---------------------------------------------------------------- the track

  /** The two places are less than a millionth of a degree apart on both axes. */
  predicate Close(a: GpsPoint, b: GpsPoint) {
    -0.000001 < b.lat - a.lat && b.lat - a.lat < 0.000001 && -0.000001 < b.lng - a.lng && b.lng - a.lng < 0.000001
  }

  /** Neighbours on the track lie at least epsilon apart on some axis. */
  lemma {:induction false} TrackApart(fixes: seq<GpsPoint>, i: nat)
    requires i + 1 < |Dedupe(fixes)|
    ensures !Close(Dedupe(fixes)[i], Dedupe(fixes)[i + 1])
    decreases |fixes|
  {
    if i + 1 < |Dedupe(fixes[..|fixes| - 1])| {
      TrackApart(fixes[..|fixes| - 1], i);
    }
  }

  /** Every fix is a place on earth other than (0, 0), with a time from 2010 to 2099 or none. */
  lemma {:induction false} FixesValid(events: seq<Event>, i: nat)
    requires i < |Fixes(events)|
    ensures var p := Fixes(events)[i];
            && (p.lat != 0.0 || p.lng != 0.0) && -90.0 <= p.lat <= 90.0 && -180.0 <= p.lng <= 180.0
            && (p.time.Some? ==> 1_262_304_000_000_000_000 < p.time.value < 4_102_444_800_000_000_000)
    decreases |events|
  {
    if i < |Fixes(events[..|events| - 1])| { FixesValid(events[..|events| - 1], i); }
  }

  lemma {:induction false} TrackGrows(fixes: seq<GpsPoint>, n: nat)
    requires n <= |fixes|
    ensures Dedupe(fixes[..n]) <= Dedupe(fixes)
    decreases |fixes|
  {
    if n < |fixes| {
      TrackGrows(fixes[..|fixes| - 1], n);
      assert fixes[..|fixes| - 1][..n] == fixes[..n];
    } else {
      assert fixes[..n] == fixes;
    }
  }

  /** Every fix is on the track, as the next point after those of the earlier fixes, or lies within
      epsilon on both axes of the last point kept before it. */
  lemma FixCovered(fixes: seq<GpsPoint>, i: nat)
    requires i < |fixes|
    ensures var before := Dedupe(fixes[..i]);
            before + [fixes[i]] <= Dedupe(fixes)
            || (before != [] && before <= Dedupe(fixes) && Close(before[|before| - 1], fixes[i]))
  {
    TrackGrows(fixes, i + 1);
    assert fixes[..i + 1] == fixes[..i] + [fixes[i]];
    DedupeMore(fixes[..i], fixes[i]);
  }

  ghost predicate Apart(t: seq<GpsPoint>) { forall i :: 0 < i < |t| ==> !Near(t[i - 1], t[i]) }

  lemma {:induction false} ApartUnchanged(t: seq<GpsPoint>)
    requires Apart(t)
    ensures Dedupe(t) == t
    decreases |t|
  {
    if t != [] { ApartUnchanged(t[..|t| - 1]); }
  }

  lemma DedupeApart(fixes: seq<GpsPoint>)
    ensures Apart(Dedupe(fixes))
  {
    forall i | 0 < i < |Dedupe(fixes)| ensures !Near(Dedupe(fixes)[i - 1], Dedupe(fixes)[i]) {
      TrackApart(fixes, i - 1);
    }
  }

  /** Deduping a track again changes nothing, and only tracks stay unchanged. */
  lemma DedupeIdempotent(fixes: seq<GpsPoint>)
    ensures Dedupe(Dedupe(fixes)) == Dedupe(fixes)
    ensures Dedupe(fixes) == fixes <==> Apart(fixes)
  {
    DedupeApart(fixes);
    ApartUnchanged(Dedupe(fixes));
    if Apart(fixes) { ApartUnchanged(fixes); }
  }

  // ---------------------------------------------------------------- the window

  /** In every branch of the drift rule the route has a start exactly when it has an end, and does
      not end before it starts. */
  lemma StartNotAfterEnd(init: Option<int>, first: Option<int>, last: Option<int>, times: set<int>)
    requires IsFirst(first, times) && IsLast(last, times)
    ensures var (start, end) := StartEnd(init, first, last);
            && (start.Some? <==> end.Some?) && (start.Some? <==> init.Some? || times != {})
            && (start.Some? ==> start.value <= end.value)
            && (end.Some? ==> end == init || end.value in times)
  {}

  /** Start and end depend on the first plausible initData and on the set of fix times alone. */
  lemma WindowDependsOnTimes(init: Option<int>, times: set<int>, first1: Option<int>, last1: Option<int>,
                             first2: Option<int>, last2: Option<int>)
    requires IsFirst(first1, times) && IsLast(last1, times) && IsFirst(first2, times) && IsLast(last2, times)
    ensures StartEnd(init, first1, last1) == StartEnd(init, first2, last2)
  {
    if times != {} {
      assert first1.value <= first2.value <= first1.value && last1.value <= last2.value <= last1.value;
    } else {
      assert first1 == first2 == None && last1 == last2 == None;
    }
  }

  // ---------------------------------------------------------------- the extractor

  datatype Metadata = Metadata(start: Option<int>, end: Option<int>, track: seq<GpsPoint>)

  lemma SeenMore(seen: seq<Event>, e: Event)
    ensures Fixes(seen + [e]) == match Fix(e) case Some(p) => Fixes(seen) + [p] case None => Fixes(seen)
    ensures FirstInit(seen + [e]) == if FirstInit(seen).Some? then FirstInit(seen)
                                     else if e.InitData? then InitTime(e.wallTimeNanos) else None
  {
    assert (seen + [e])[..|seen|] == seen;
  }

  lemma TimesMore(fixes: seq<GpsPoint>, p: GpsPoint)
    ensures Times(fixes + [p]) == if p.time.Some? then Times(fixes) + {p.time.value} else Times(fixes)
  {
    var more := fixes + [p];
    forall t ensures t in Times(more) <==> t in Times(fixes) || p.time == Some(t) {
      if t in Times(fixes) {
        var i :| 0 <= i < |fixes| && fixes[i].time == Some(t);
        assert more[i].time == Some(t);
      }
      if p.time == Some(t) { assert more[|fixes|].time == Some(t); }
    }
  }

  /** The running state of an extraction. */
  class Extractor {
    var init: Option<int>
    var track: seq<GpsPoint>
    var lastLat: real
    var lastLng: real
    var havePrev: bool
    var first: Option<int>
    var last: Option<int>

    constructor ()
      ensures Cursor() && Window({}) && track == [] && init == None
    {
      init, track, lastLat, lastLng, havePrev, first, last := None, [], 0.0, 0.0, false, None, None;
    }

    /** The cursor is the last point of the track. */
    ghost predicate Cursor()
      reads this
    {
      && havePrev == (track != [])
      && (havePrev ==> lastLat == track[|track| - 1].lat && lastLng == track[|track| - 1].lng)
    }

    ghost predicate Window(times: set<int>)
      reads this
    { IsFirst(first, times) && IsLast(last, times) }

    /** Appends the point exactly when it is not near the last one on the track. */
    method EmitPoint(p: GpsPoint)
      requires Cursor()
      modifies this`track, this`lastLat, this`lastLng, this`havePrev
      ensures Cursor() && track == Extend(old(track), p)
    {
      if havePrev {
        var dLat, dLng := p.lat - lastLat, p.lng - lastLng;
        if Abs(dLat) < EPSILON && Abs(dLng) < EPSILON { return; }
      }
      track := track + [p];
      lastLat, lastLng, havePrev := p.lat, p.lng, true;
    }

    /** Widens the window to a usable time. */
    method NoteFallback(t: Option<int>, ghost times: set<int>)
      requires Window(times)
      modifies this`first, this`last
      ensures Window(if t.Some? then times + {t.value} else times)
    {
      if t.None? { return; }
      if first.None? || t.value < first.value { first := t; }
      if last.None? || t.value > last.value { last := t; }
    }

    method NoteFix(p: GpsPoint, ghost fixes: seq<GpsPoint>)
      requires Cursor() && Window(Times(fixes)) && track == Dedupe(fixes)
      modifies this`track, this`lastLat, this`lastLng, this`havePrev, this`first, this`last
      ensures Cursor() && Window(Times(fixes + [p])) && track == Dedupe(fixes + [p])
    {
      TimesMore(fixes, p);
      DedupeMore(fixes, p);
      NoteFallback(p.time, Times(fixes));
      EmitPoint(p);
    }

    /** Takes in the next event of the log. */
    method NoteEvent(e: Event, ghost seen: seq<Event>)
      requires Cursor() && Window(Times(Fixes(seen))) && track == Dedupe(Fixes(seen)) && init == FirstInit(seen)
      modifies this
      ensures Cursor() && Window(Times(Fixes(seen + [e]))) && track == Dedupe(Fixes(seen + [e]))
      ensures init == FirstInit(seen + [e])
    {
      SeenMore(seen, e);
      if e.InitData? {
        NoteWallTime(InitTime(e.wallTimeNanos), seen, seen + [e]);
      } else {
        NotePlace(Fix(e), seen, seen + [e]);
      }
    }

    /** Takes the first wall time that there is. */
    method NoteWallTime(t: Option<int>, ghost seen: seq<Event>, ghost more: seq<Event>)
      requires Fixes(more) == Fixes(seen) && FirstInit(more) == if FirstInit(seen).Some? then FirstInit(seen) else t
      requires Cursor() && Window(Times(Fixes(seen))) && track == Dedupe(Fixes(seen)) && init == FirstInit(seen)
      modifies this`init
      ensures Cursor() && Window(Times(Fixes(more))) && track == Dedupe(Fixes(more)) && init == FirstInit(more)
    {
      if init.None? { init := t; }
    }

    method NotePlace(p: Option<GpsPoint>, ghost seen: seq<Event>, ghost more: seq<Event>)
      requires Fixes(more) == (if p.Some? then Fixes(seen) + [p.value] else Fixes(seen)) && FirstInit(more) == FirstInit(seen)
      requires Cursor() && Window(Times(Fixes(seen))) && track == Dedupe(Fixes(seen)) && init == FirstInit(seen)
      modifies this`track, this`lastLat, this`lastLng, this`havePrev, this`first, this`last
      ensures Cursor() && Window(Times(Fixes(more))) && track == Dedupe(Fixes(more)) && init == FirstInit(more)
    {
      if p.Some? { NoteFix(p.value, Fixes(seen)); }
    }

    /** Start and end by the drift rule. */
    method Choose() returns (start: Option<int>, end: Option<int>)
      ensures (start, end) == StartEnd(init, first, last)
    {
      if init.Some? && first.Some? {
        var drift := first.value - init.value;
        if (if drift < 0 then -drift else drift) > MAX_DRIFT { return first, last; }
        start := init;
        end := if last.Some? && last.value > init.value then last else init;
      } else if init.Some? {
        start, end := init, init;
      } else {
        start, end := first, last;
      }
    }
  }

  /** The first plausible time that an initData event of the log gives. */
  ghost predicate IsInit(init: Option<int>, events: seq<Event>) {
    if init.None? then forall i :: 0 <= i < |events| ==> !GivesInit(events[i])
    else
      exists i :: 0 <= i < |events| && GivesInit(events[i]) && init.value == Int64(events[i].wallTimeNanos)
                  && forall j :: 0 <= j < i ==> !GivesInit(events[j])
  }

  predicate GivesInit(e: Event) {
    e.InitData? && 1_262_304_000_000_000_000 < Int64(e.wallTimeNanos) < 4_102_444_800_000_000_000
  }

  lemma {:induction false} FirstInitIs(events: seq<Event>)
    ensures IsInit(FirstInit(events), events)
    decreases |events|
  {
    if events != [] {
      var (before, last) := (events[..|events| - 1], |events| - 1);
      FirstInitIs(before);
      assert GivesInit(events[last]) <==> events[last].InitData? && InitTime(events[last].wallTimeNanos).Some?;
      if FirstInit(before).Some? {
        var i :| 0 <= i < |before| && GivesInit(before[i]) && FirstInit(before).value == Int64(before[i].wallTimeNanos)
                 && forall j :: 0 <= j < i ==> !GivesInit(before[j]);
        assert events[i] == before[i] && forall j :: 0 <= j < i ==> events[j] == before[j];
      } else {
        forall j | 0 <= j < last ensures !GivesInit(events[j]) { assert events[j] == before[j]; }
      }
    }
  }

  /** The event places the car there: a satellite fix that is one, or a valid estimate. */
  predicate Places(e: Event, lat: real, lng: real, unixMs: int) {
    && (lat != 0.0 || lng != 0.0) && -90.0 <= lat && lat <= 90.0 && -180.0 <= lng && lng <= 180.0
    && ((e.GpsLocation? && e.gps == GpsData(true, lat, lng, unixMs))
        || (e.GpsLocationExternal? && e.gps == GpsData(true, lat, lng, unixMs))
        || (e.LiveLocationKalman? && e.statusValid && e.gpsOk && e.positionValid && e.unixMs == unixMs
            && |e.position| >= 2 && e.position[0] == lat && e.position[1] == lng))
  }

  /** The instant a reading in milliseconds stands for, in 64-bit nanoseconds, if it lies between 2010
      and 2100. */
  predicate ReadsAs(unixMs: int, t: int) {
    unixMs > 0 && t == Int64(unixMs * 1_000_000) && 1_262_304_000_000_000_000 < t < 4_102_444_800_000_000_000
  }

  lemma GpsTimeReads(ms: int, t: int)
    ensures GpsTime(ms) == Some(t) <==> ReadsAs(ms, t)
  {}

  lemma PlacesFix(e: Event, lat: real, lng: real, ms: int)
    requires Places(e, lat, lng, ms)
    ensures Fix(e) == Some(GpsPoint(lat, lng, GpsTime(ms)))
  {}

  /** What a fix is, column by column: where an event places the car, with the time it reads. */
  lemma FixIff(e: Event, p: GpsPoint)
    ensures Fix(e) == Some(p) <==>
            exists ms :: Places(e, p.lat, p.lng, ms)
                         && if p.time.Some? then ReadsAs(ms, p.time.value) else forall t :: !ReadsAs(ms, t)
  {
    forall ms, t { GpsTimeReads(ms, t); }
    forall ms | Places(e, p.lat, p.lng, ms) ensures Fix(e) == Some(GpsPoint(p.lat, p.lng, GpsTime(ms))) {
      PlacesFix(e, p.lat, p.lng, ms);
    }
    if Fix(e) == Some(p) {
      var ms := if e.LiveLocationKalman? then e.unixMs else e.gps.unixMs;
      assert Places(e, p.lat, p.lng, ms) && p.time == GpsTime(ms);
    }
    if ms :| Places(e, p.lat, p.lng, ms) && if p.time.Some? then ReadsAs(ms, p.time.value) else forall t :: !ReadsAs(ms, t) {
      assert GpsTime(ms) == p.time by {
        if GpsTime(ms).Some? { assert ReadsAs(ms, GpsTime(ms).value); }
      }
    }
  }

  lemma {:induction false} FixesAre(events: seq<Event>, p: GpsPoint)
    ensures p in Fixes(events) <==> exists i :: 0 <= i < |events| && Fix(events[i]) == Some(p)
    decreases |events|
  {
    if events != [] {
      var before := events[..|events| - 1];
      FixesAre(before, p);
      assert forall i :: 0 <= i < |before| ==> before[i] == events[i];
    }
  }

  /** The fixes of two stretches of a log are those of the first and then those of the second. */
  lemma {:induction false} FixesConcat(a: seq<Event>, b: seq<Event>)
    ensures Fixes(a + b) == Fixes(a) + Fixes(b)
    decreases |b|
  {
    if b == [] {
      assert a + b == a;
    } else {
      FixesConcat(a, b[..|b| - 1]);
      assert (a + b)[..|a + b| - 1] == a + b[..|b| - 1];
    }
  }

  /** Some event of the log carries this usable time. */
  ghost predicate Timed(events: seq<Event>, t: int) {
    exists i, lat, lng, ms :: 0 <= i < |events| && Places(events[i], lat, lng, ms) && ReadsAs(ms, t)
  }

  lemma TimesAre(events: seq<Event>, t: int)
    ensures t in Times(Fixes(events)) <==> Timed(events, t)
  {
    if t in Times(Fixes(events)) {
      var k :| 0 <= k < |Fixes(events)| && Fixes(events)[k].time == Some(t);
      var p := Fixes(events)[k];
      FixesAre(events, p);
      var i :| 0 <= i < |events| && Fix(events[i]) == Some(p);
      FixIff(events[i], p);
    }
    if Timed(events, t) {
      var i, lat, lng, ms :| 0 <= i < |events| && Places(events[i], lat, lng, ms) && ReadsAs(ms, t);
      var p := GpsPoint(lat, lng, Some(t));
      FixIff(events[i], p);
      FixesAre(events, p);
      var k :| 0 <= k < |Fixes(events)| && Fixes(events)[k] == p;
    }
  }

  /** The start and end that the drift rule promises: initData's time counts when no fix has a usable
      time or the first of them is within a day of it. The end is the last usable time, or the start
      if that is later. */
  predicate Promised(init: Option<int>, first: Option<int>, last: Option<int>, start: Option<int>, end: Option<int>) {
    && (start == init <==> (init.Some? && (first.None? || -86_400_000_000_000 <= first.value - init.value <= 86_400_000_000_000))
                           || (first == init))
    && (first.Some? && last.Some? ==>
          && start.Some? && end.Some? && -86_400_000_000_000 <= start.value - first.value <= 86_400_000_000_000
          && (end == last || (end == start && start.value > last.value)) && last.value <= end.value && start.value <= end.value)
    && (start != init ==> start == first && end == last)
    && (first.None? && last.None? ==> start == init && end == init)
  }

  lemma StartEndPromised(init: Option<int>, first: Option<int>, last: Option<int>)
    requires first.Some? <==> last.Some?
    requires first.Some? ==> first.value <= last.value
    ensures var (start, end) := StartEnd(init, first, last); Promised(init, first, last, start, end)
  {}

  /** The track is the greedy dedupe of the valid fixes, and the window comes from the first
      plausible initData and the least and the greatest usable time of all of them. */
  method ExtractRouteMetadata(events: seq<Event>)
    returns (m: Metadata, ghost first: Option<int>, ghost last: Option<int>)
    ensures m.track == Dedupe(Fixes(events))
    ensures IsFirst(first, Times(Fixes(events))) && IsLast(last, Times(Fixes(events)))
    ensures (m.start, m.end) == StartEnd(FirstInit(events), first, last)
    ensures IsInit(FirstInit(events), events) && Promised(FirstInit(events), first, last, m.start, m.end)
    ensures if first.None? then forall t :: !Timed(events, t) else Timed(events, first.value) && forall t :: Timed(events, t) ==> first.value <= t
    ensures if last.None? then forall t :: !Timed(events, t) else Timed(events, last.value) && forall t :: Timed(events, t) ==> t <= last.value
  {
    FirstInitIs(events);
    forall t { TimesAre(events, t); }
    var x := new Extractor();
    for i := 0 to |events|
      invariant fresh(x) && x.Cursor() && x.Window(Times(Fixes(events[..i])))
      invariant x.track == Dedupe(Fixes(events[..i])) && x.init == FirstInit(events[..i])
    {
      assert events[..i + 1] == events[..i] + [events[i]];
      x.NoteEvent(events[i], events[..i]);
    }
    assert events[..|events|] == events;
    first, last := x.first, x.last;
    StartEndPromised(x.init, first, last);
    var start, end := x.Choose();
    m := Metadata(start, end, x.track);
  }

  /** Two logs whose first plausible initData agree and whose fixes carry the same set of times,
      in whatever order and however often, give the same start and end. */
  method OrderIrrelevant(a: seq<Event>, b: seq<Event>) returns (m: Metadata, n: Metadata)
    requires FirstInit(a) == FirstInit(b) && Times(Fixes(a)) == Times(Fixes(b))
    ensures m.start == n.start && m.end == n.end
  {
    ghost var first1, last1, first2, last2;
    m, first1, last1 := ExtractRouteMetadata(a);
    n, first2, last2 := ExtractRouteMetadata(b);
    WindowDependsOnTimes(FirstInit(a), Times(Fixes(a)), first1, last1, first2, last2);
  }
}
