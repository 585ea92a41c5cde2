/**
  The driving-signals timeline and its cache files (internal/api/signals.go). A segment's directory
  holds up to three forms of its log and the cache; each file has a modification time.
*/
module Signals {
  import opened Common

  /** What the log parser returns: columns, one entry a moment; times in nanoseconds. */
  datatype Driving = Driving(times: seq<int>, vEgo: seq<real>, steeringAngleDeg: seq<real>, engaged: seq<bool>,
                             alertText: seq<string>)

  ghost predicate Aligned(d: Driving) {
    |d.times| == |d.vEgo| == |d.steeringAngleDeg| == |d.engaged| == |d.alertText|
  }

  /** The decoder of a log; None is a parse error. */
  type Parser = Bytes -> Option<Driving>

  ghost predicate AlignedParser(parse: Parser) {
    forall b :: parse(b).Some? ==> Aligned(parse(b).value)
  }

  /** A response, and a segment's cache entry. */
  datatype Columns = Columns(times: seq<int>, speedMps: seq<real>, steeringDeg: seq<real>, engaged: seq<bool>,
                             alerts: seq<string>)
  {
    predicate SameLength() { |times| == |speedMps| == |steeringDeg| == |engaged| == |alerts| }

    function Then(o: Columns): Columns {
      Columns(times + o.times, speedMps + o.speedMps, steeringDeg + o.steeringDeg, engaged + o.engaged, alerts + o.alerts)
    }
  }

  const NO_COLUMNS := Columns([], [], [], [], [])

  datatype LogName = QlogZst | QlogBz2 | Qlog

  datatype File<T> = File(content: T, modTime: int)

  datatype Dir = Dir(logs: map<LogName, File<Bytes>>, cache: Option<File<Columns>>)

  const EMPTY_DIR := Dir(map[], None)

  // ---------------------------------------------------------------- specification

  /** findQlog: the zstd form before the bz2 form before the raw one. */
  function Preferred(d: Dir): Option<File<Bytes>> {
    if QlogZst in d.logs then Some(d.logs[QlogZst])
    else if QlogBz2 in d.logs then Some(d.logs[QlogBz2])
    else if Qlog in d.logs then Some(d.logs[Qlog])
    else None
  }

  function Millis(times: seq<int>): (r: seq<int>)
    ensures |r| == |times|
  { seq(|times|, i requires 0 <= i < |times| => times[i] / 1_000_000) }

  function Compute(parse: Parser, log: Bytes): Option<Columns> {
    match parse(log)
    case None => None
    case Some(d) => Some(Columns(Millis(d.times), d.vEgo, d.steeringAngleDeg, d.engaged, d.alertText))
  }

  datatype Load = Skipped | Failed | Loaded(columns: Columns)

  /** A segment computed anew from its preferred log. */
  function Fresh(parse: Parser, d: Dir): Load {
    match Preferred(d)
    case None => Skipped
    case Some(f) => match Compute(parse, f.content) case None => Failed case Some(c) => Loaded(c)
  }

  function DirOf(disk: map<int, Dir>, segment: int): Dir { if segment in disk then disk[segment] else EMPTY_DIR }

  /** The route computed anew, segment after segment; None is an error. */
  function FreshRoute(parse: Parser, disk: map<int, Dir>, segments: seq<int>): Option<Columns> {
    if segments == [] then Some(NO_COLUMNS)
    else
      match FreshRoute(parse, disk, segments[..|segments| - 1])
      case None => None
      case Some(before) =>
        match Fresh(parse, DirOf(disk, segments[|segments| - 1]))
        case Skipped => Some(before)
        case Failed => None
        case Loaded(c) => Some(before.Then(c))
  }

  /** A cache that would be used holds what the preferred log computes to. */
  ghost predicate CacheTrue(parse: Parser, d: Dir) {
    d.cache.Some? ==>
      Preferred(d).Some?
      && (d.cache.value.modTime >= Preferred(d).value.modTime ==>
            Compute(parse, Preferred(d).value.content) == Some(d.cache.value.content))
  }

  /** loadSegmentSignals; writable says whether the cache write succeeds. */
  function LoadSegment(parse: Parser, d: Dir, now: int, writable: bool): (Load, Dir) {
    var log := Preferred(d);
    if d.cache.Some? && (log.None? || d.cache.value.modTime >= log.value.modTime) then (Loaded(d.cache.value.content), d)
    else if log.None? then (Skipped, d)
    else
      match Compute(parse, log.value.content)
      case None => (Failed, d)
      case Some(c) => (Loaded(c), if writable then d.(cache := Some(File(c, now))) else d)
  }

  function WriteLog(d: Dir, name: LogName, content: Bytes, now: int): Dir {
    d.(logs := d.logs[name := File(content, now)])
  }

  // ---------------------------------------------------------------- what a step keeps

  /** A load answers as a fresh computation would, whether or not its cache write succeeds and
      whatever the clock says, and leaves a true cache. */
  lemma LoadIsFresh(parse: Parser, d: Dir, now: int, writable: bool)
    requires CacheTrue(parse, d)
    ensures LoadSegment(parse, d, now, writable).0 == Fresh(parse, d)
    ensures var after := LoadSegment(parse, d, now, writable).1;
            CacheTrue(parse, after) && after.logs == d.logs && Fresh(parse, after) == Fresh(parse, d)
  {
    var after := LoadSegment(parse, d, now, writable).1;
    assert Preferred(after) == Preferred(d);
  }

  predicate NewPreferred(d: Dir, name: LogName) {
    name.QlogZst? || (name.QlogBz2? && QlogZst !in d.logs) || (name.Qlog? && QlogZst !in d.logs && QlogBz2 !in d.logs)
  }

  /** Writing a log leaves a true cache if and only if there is no cache, or the log is not the
      preferred one, or it is stamped later than the cache, or it says what the cache says. */
  lemma WriteKeepsCacheTrueIff(parse: Parser, d: Dir, name: LogName, content: Bytes, now: int)
    requires CacheTrue(parse, d)
    ensures CacheTrue(parse, WriteLog(d, name, content, now)) <==>
            d.cache.None? || !NewPreferred(d, name) || now > d.cache.value.modTime
            || Compute(parse, content) == Some(d.cache.value.content)
  {
    var after := WriteLog(d, name, content, now);
    if NewPreferred(d, name) {
      assert Preferred(after) == Some(File(content, now));
    } else {
      assert Preferred(after) == Preferred(d);
    }
  }

  // ---------------------------------------------------------------- runs

  datatype Event =
    | Write(segment: int, name: LogName, content: Bytes, time: int)
    | Read(segment: int, time: int, writable: bool)

  function Step(parse: Parser, disk: map<int, Dir>, e: Event): map<int, Dir> {
    var d := DirOf(disk, e.segment);
    match e
    case Write(s, name, content, time) => disk[s := WriteLog(d, name, content, time)]
    case Read(s, time, writable) => disk[s := LoadSegment(parse, d, time, writable).1]
  }

  /** Times strictly increase along the run, starting after "from". */
  ghost predicate Increasing(events: seq<Event>, from: int)
    decreases events
  {
    events != [] ==> events[0].time > from && Increasing(events[1..], events[0].time)
  }

  function AfterRun(parse: Parser, disk: map<int, Dir>, events: seq<Event>): map<int, Dir>
    decreases events
  {
    if events == [] then disk else AfterRun(parse, Step(parse, disk, events[0]), events[1..])
  }

  /** No file is younger than the clock and every cache is true. */
  ghost predicate Sound(parse: Parser, disk: map<int, Dir>, clock: int) {
    forall s :: s in disk ==> CacheTrue(parse, disk[s]) && (disk[s].cache.Some? ==> disk[s].cache.value.modTime <= clock)
  }

  lemma StepKeepsSound(parse: Parser, disk: map<int, Dir>, e: Event, clock: int)
    requires Sound(parse, disk, clock) && e.time > clock
    ensures Sound(parse, Step(parse, disk, e), e.time)
  {
    var d := DirOf(disk, e.segment);
    match e
    case Write(s, name, content, time) => WriteKeepsCacheTrueIff(parse, d, name, content, time);
    case Read(s, time, writable) => LoadIsFresh(parse, d, time, writable);
  }

  /** After any run of log writes under any of the names and reads with or without a cache write,
      with increasing times and no deletion, the next read of any segment answers exactly as a
      fresh computation from the preferred log on disk. */
  lemma {:induction false} ReadsAreFresh(parse: Parser, disk: map<int, Dir>, clock: int, events: seq<Event>,
                                         segment: int, now: int, writable: bool)
    requires Sound(parse, disk, clock) && Increasing(events, clock)
    ensures var d := DirOf(AfterRun(parse, disk, events), segment);
            LoadSegment(parse, d, now, writable).0 == Fresh(parse, d)
    decreases events
  {
    if events == [] {
      LoadIsFresh(parse, DirOf(disk, segment), now, writable);
    } else {
      StepKeepsSound(parse, disk, events[0], clock);
      ReadsAreFresh(parse, Step(parse, disk, events[0]), events[0].time, events[1..], segment, now, writable);
    }
  }

  /** One equal time is enough to serve a stale answer for good. */
  lemma TieServesStale(parse: Parser, first: Bytes, second: Bytes, t: int, now: int)
    requires Compute(parse, first).Some? && Compute(parse, second) != Compute(parse, first)
    ensures var cached := LoadSegment(parse, WriteLog(EMPTY_DIR, QlogZst, first, t), t, true).1;
            var d := WriteLog(cached, QlogZst, second, t);
            LoadSegment(parse, d, now, true) == (Loaded(Compute(parse, first).value), d)
            && Fresh(parse, d) != Loaded(Compute(parse, first).value)
  {}

  /** The columns of a log: its times in whole milliseconds, its speed, steering, engagement and alerts. */
  ghost predicate ColumnsOf(c: Columns, d: Driving) {
    && |c.times| == |d.times| && (forall i :: 0 <= i < |d.times| ==> c.times[i] == d.times[i] / 1_000_000)
    && c.speedMps == d.vEgo && c.steeringDeg == d.steeringAngleDeg && c.engaged == d.engaged && c.alerts == d.alertText
  }

  /** The answer is read off this log. */
  ghost predicate AnswersFrom(parse: Parser, log: Bytes, r: Load) {
    if parse(log).None? then r.Failed? else r.Loaded? && ColumnsOf(r.columns, parse(log).value)
  }

  /** The answer is read off the zstd form of the log, or else the bz2 form, or else the raw one. */
  ghost predicate AnswersFromDir(parse: Parser, logs: map<LogName, File<Bytes>>, r: Load) {
    if QlogZst in logs then AnswersFrom(parse, logs[QlogZst].content, r)
    else if QlogBz2 in logs then AnswersFrom(parse, logs[QlogBz2].content, r)
    else if Qlog in logs then AnswersFrom(parse, logs[Qlog].content, r)
    else r.Skipped?
  }

  lemma FreshAnswers(parse: Parser, d: Dir)
    ensures AnswersFromDir(parse, d.logs, Fresh(parse, d))
  {}

  lemma ThenJoins(a: Columns, b: Columns, c: Columns)
    ensures a.Then(b.Then(c)) == a.Then(b).Then(c) && a.Then(NO_COLUMNS) == a && NO_COLUMNS.Then(a) == a
  {
    assert a.times + (b.times + c.times) == a.times + b.times + c.times && a.speedMps + (b.speedMps + c.speedMps) == a.speedMps + b.speedMps + c.speedMps;
    assert a.steeringDeg + (b.steeringDeg + c.steeringDeg) == a.steeringDeg + b.steeringDeg + c.steeringDeg;
    assert a.engaged + (b.engaged + c.engaged) == a.engaged + b.engaged + c.engaged && a.alerts + (b.alerts + c.alerts) == a.alerts + b.alerts + c.alerts;
    assert a.times + [] == a.times == [] + a.times && a.speedMps + [] == a.speedMps == [] + a.speedMps;
    assert a.steeringDeg + [] == a.steeringDeg == [] + a.steeringDeg;
    assert a.engaged + [] == a.engaged == [] + a.engaged && a.alerts + [] == a.alerts == [] + a.alerts;
  }

  function Joined(a: Option<Columns>, b: Option<Columns>): Option<Columns> {
    if a.Some? && b.Some? then Some(a.value.Then(b.value)) else None
  }

  function Or(r: Load): Option<Columns> {
    match r case Skipped => Some(NO_COLUMNS) case Failed => None case Loaded(c) => Some(c)
  }

  lemma JoinedJoins(a: Option<Columns>, b: Option<Columns>, c: Option<Columns>)
    ensures Joined(a, Joined(b, c)) == Joined(Joined(a, b), c) && Joined(a, Some(NO_COLUMNS)) == a && Joined(Some(NO_COLUMNS), a) == a
  {
    if a.Some? && b.Some? && c.Some? { ThenJoins(a.value, b.value, c.value); }
    if a.Some? { ThenJoins(a.value, a.value, a.value); }
  }

  lemma RouteMore(parse: Parser, disk: map<int, Dir>, segments: seq<int>)
    requires segments != []
    ensures FreshRoute(parse, disk, segments) ==
            Joined(FreshRoute(parse, disk, segments[..|segments| - 1]), Or(Fresh(parse, DirOf(disk, segments[|segments| - 1]))))
  {
    var before := FreshRoute(parse, disk, segments[..|segments| - 1]);
    JoinedJoins(before, before, before);
  }

  lemma {:induction false} RouteJoins(parse: Parser, disk: map<int, Dir>, a: seq<int>, b: seq<int>)
    ensures FreshRoute(parse, disk, a + b) == Joined(FreshRoute(parse, disk, a), FreshRoute(parse, disk, b))
    decreases |b|
  {
    var x := FreshRoute(parse, disk, a);
    if b == [] {
      assert a + b == a;
      JoinedJoins(x, x, x);
    } else {
      var front := b[..|b| - 1];
      RouteJoins(parse, disk, a, front);
      assert (a + b)[..|a + b| - 1] == a + front;
      RouteMore(parse, disk, a + b);
      RouteMore(parse, disk, b);
      JoinedJoins(x, FreshRoute(parse, disk, front), Or(Fresh(parse, DirOf(disk, b[|b| - 1]))));
    }
  }

  /** A route is its segments one behind the other: the columns of a list are those of its first part
      followed by those of the rest, and it has an answer exactly when both parts have. */
  lemma RouteConcat(parse: Parser, disk: map<int, Dir>, a: seq<int>, b: seq<int>)
    ensures var (x, y, both) := (FreshRoute(parse, disk, a), FreshRoute(parse, disk, b), FreshRoute(parse, disk, a + b));
            && (both.Some? <==> x.Some? && y.Some?)
            && (both.Some? ==>
                  && both.value.times == x.value.times + y.value.times && both.value.speedMps == x.value.speedMps + y.value.speedMps
                  && both.value.steeringDeg == x.value.steeringDeg + y.value.steeringDeg
                  && both.value.engaged == x.value.engaged + y.value.engaged && both.value.alerts == x.value.alerts + y.value.alerts)
  {
    RouteJoins(parse, disk, a, b);
  }

  /** And a single segment is what it answers, or nothing if it has no log. */
  lemma RouteOfOne(parse: Parser, disk: map<int, Dir>, s: int)
    ensures var (r, c) := (Fresh(parse, DirOf(disk, s)), FreshRoute(parse, disk, [s]));
            && AnswersFromDir(parse, DirOf(disk, s).logs, r)
            && (if r.Failed? then c.None? else c == Some(if r.Loaded? then r.columns else Columns([], [], [], [], [])))
  {
    var r := Fresh(parse, DirOf(disk, s));
    assert [s][..0] == [];
    RouteMore(parse, disk, [s]);
    JoinedJoins(Or(r), Or(r), Or(r));
  }

  // ---------------------------------------------------------------- the handler

  class SignalsHandler {
    const parse: Parser
    var disk: map<int, Dir>

    constructor (parse: Parser)
      requires AlignedParser(parse)
      ensures this.parse == parse && disk == map[] && Valid()
    { this.parse, disk := parse, map[]; }

    ghost predicate Valid()
      reads this
    {
      AlignedParser(parse) && forall s :: s in disk ==> CacheTrue(parse, disk[s])
    }

    /** Fills the five columns from the parsed log. */
    method ComputeSegmentSignals(log: Bytes) returns (r: Option<Columns>)
      requires AlignedParser(parse)
      ensures r == Compute(parse, log)
      ensures if parse(log).None? then r.None? else r.Some? && ColumnsOf(r.value, parse(log).value)
    {
      var parsed := parse(log);
      if parsed.None? { return None; }
      var d := parsed.value;
      var n := |d.times|;
      var c := NO_COLUMNS;
      for i := 0 to n
        invariant c == Columns(Millis(d.times[..i]), d.vEgo[..i], d.steeringAngleDeg[..i], d.engaged[..i], d.alertText[..i])
      {
        c := Columns(c.times + [d.times[i] / 1_000_000], c.speedMps + [d.vEgo[i]], c.steeringDeg + [d.steeringAngleDeg[i]],
                     c.engaged + [d.engaged[i]], c.alerts + [d.alertText[i]]);
        assert Millis(d.times[..i + 1]) == Millis(d.times[..i]) + [d.times[i] / 1_000_000];
      }
      assert d.times[..n] == d.times && d.vEgo[..n] == d.vEgo && d.steeringAngleDeg[..n] == d.steeringAngleDeg;
      assert d.engaged[..n] == d.engaged && d.alertText[..n] == d.alertText;
      return Some(c);
    }

    method LoadSegmentSignals(segment: int, now: int, writable: bool) returns (r: Load)
      requires Valid()
      modifies this
      ensures Valid() && r == Fresh(parse, DirOf(old(disk), segment))
      ensures AnswersFromDir(parse, DirOf(old(disk), segment).logs, r)
      ensures forall s :: DirOf(disk, s).logs == DirOf(old(disk), s).logs
    {
      var d := DirOf(disk, segment);
      LoadIsFresh(parse, d, now, writable);
      FreshAnswers(parse, d);
      var log := Preferred(d);
      if d.cache.Some? && (log.None? || d.cache.value.modTime >= log.value.modTime) {
        return Loaded(d.cache.value.content);
      }
      if log.None? { return Skipped; }
      var computed := ComputeSegmentSignals(log.value.content);
      if computed.None? { return Failed; }
      if writable {
        disk := disk[segment := d.(cache := Some(File(computed.value, now)))];
      }
      return Loaded(computed.value);
    }

    /** The response is the route computed anew, an error exactly when a log does not parse, and all
        its columns are equally long. */
    method GetRouteSignals(segments: seq<int>, now: int, writable: set<int>) returns (r: Option<Columns>)
      requires Valid()
      modifies this
      ensures Valid() && r == FreshRoute(parse, old(disk), segments)
      ensures r.Some? ==> r.value.SameLength()
      ensures forall s :: DirOf(disk, s).logs == DirOf(old(disk), s).logs
    {
      var c := NO_COLUMNS;
      for i := 0 to |segments|
        invariant Valid() && FreshRoute(parse, old(disk), segments[..i]) == Some(c) && c.SameLength()
        invariant forall s :: DirOf(disk, s).logs == DirOf(old(disk), s).logs
      {
        assert segments[..i + 1][..i] == segments[..i];
        SameLogs(parse, DirOf(disk, segments[i]), DirOf(old(disk), segments[i]));
        var segment := LoadSegmentSignals(segments[i], now, segments[i] in writable);
        if segment.Failed? {
          FailureStays(parse, old(disk), segments, i);
          return None;
        }
        if segment.Loaded? { c := c.Then(segment.columns); }
      }
      assert segments[..|segments|] == segments;
      return Some(c);
    }

    /** A device uploads a log, later than the segment's cache was written. */
    method Upload(segment: int, name: LogName, content: Bytes, now: int)
      requires Valid()
      requires DirOf(disk, segment).cache.Some? ==> now > DirOf(disk, segment).cache.value.modTime
      modifies this
      ensures Valid() && disk == Step(parse, old(disk), Write(segment, name, content, now))
    {
      WriteKeepsCacheTrueIff(parse, DirOf(disk, segment), name, content, now);
      disk := disk[segment := WriteLog(DirOf(disk, segment), name, content, now)];
    }
  }

  lemma SameLogs(parse: Parser, a: Dir, b: Dir)
    requires a.logs == b.logs
    ensures Fresh(parse, a) == Fresh(parse, b)
  {}

  lemma {:induction false} FailureStays(parse: Parser, disk: map<int, Dir>, segments: seq<int>, i: nat)
    requires i < |segments| && Fresh(parse, DirOf(disk, segments[i])) == Failed
    ensures FreshRoute(parse, disk, segments) == None
    decreases |segments|
  {
    if i < |segments| - 1 {
      FailureStays(parse, disk, segments[..|segments| - 1], i);
    }
  }
}
