/**
  The upload endpoint with its disk: where a PUT is stored (internal/storage/storage.go: Store, Path), what it
  tracks (internal/api/upload.go: UploadFile, trackUpload), and whether a set flag means that the file is there.
*/
module UploadStorage {
  import opened Common
  import opened Decimal
  import opened Ordering
  import opened UploadPaths
  import opened SegmentUploads

  // ---------------------------------------------------------------- places

  /** An absolute path, component by component. */
  type Place = seq<string>

  predicate PlainName(name: string) { name != "" && name != "." && name != ".." && '/' !in name }

  /** The storage root, as filepath.Abs gives it. */
  type Base = b: Place | forall i :: 0 <= i < |b| ==> PlainName(b[i]) witness []

  /** filepath.Clean of a rooted path: ".." goes up and stays at the root. */
  function Clean(parts: seq<string>): (r: Place)
    ensures forall i :: 0 <= i < |r| ==> r[i] in parts && r[i] != "" && r[i] != "." && r[i] != ".."
  {
    if parts == [] then []
    else
      var (before, part) := (Clean(parts[..|parts| - 1]), parts[|parts| - 1]);
      if part == "" || part == "." then before
      else if part == ".." then if before == [] then [] else before[..|before| - 1]
      else before + [part]
  }

  /** filepath.Join of components without a slash in them, which is all of Path. */
  function Path(base: Base, dongle: string, route: string, segment: string, filename: string): Place {
    Clean(base + [dongle, route, segment, filename])
  }

  /** The directory Store makes, and the file it then creates in it. */
  function StoreDir(base: Base, dongle: string, route: string, segment: string): Place {
    Clean(base + [dongle, route, segment])
  }

  function StorePlace(base: Base, dongle: string, route: string, segment: string, filename: string): Place {
    Clean(StoreDir(base, dongle, route, segment) + [filename])
  }

  /** The traversal check. */
  predicate UnderBase(base: Base, dir: Place) { |base| <= |dir| && dir[..|base|] == base }

  lemma CleanMore(parts: seq<string>, name: string)
    ensures Clean(parts + [name]) ==
            if name == "" || name == "." then Clean(parts)
            else if name == ".." then if Clean(parts) == [] then [] else Clean(parts)[..|Clean(parts)| - 1]
            else Clean(parts) + [name]
  {
    assert (parts + [name])[..|parts|] == parts;
  }

  lemma {:induction false} CleanSame(parts: seq<string>)
    requires forall i :: 0 <= i < |parts| ==> parts[i] != "" && parts[i] != "." && parts[i] != ".."
    ensures Clean(parts) == parts
  {
    if parts != [] { CleanSame(parts[..|parts| - 1]); }
  }

  lemma CleanTwoMore(parts: seq<string>, a: string, b: string)
    requires PlainName(a) && PlainName(b)
    ensures Clean(parts + [a, b]) == Clean(parts) + [a, b]
  {
    assert Clean(parts + [a]) == Clean(parts) + [a] by { CleanMore(parts, a); }
    assert Clean(parts + [a] + [b]) == Clean(parts + [a]) + [b] by { CleanMore(parts + [a], b); }
    EndsJoin(parts, a, b);
    EndsJoin(Clean(parts), a, b);
  }

  lemma StoreDirIs(base: Base, dongle: string, route: string, segment: string)
    requires PlainName(segment)
    ensures StoreDir(base, dongle, route, segment) == Clean(base + [dongle, route]) + [segment]
  {
    assert base + [dongle, route, segment] == base + [dongle, route] + [segment];
    CleanMore(base + [dongle, route], segment);
  }

  lemma StorePlaceIs(base: Base, dongle: string, route: string, segment: string, filename: string)
    requires PlainName(filename)
    ensures StorePlace(base, dongle, route, segment, filename) == StoreDir(base, dongle, route, segment) + [filename]
  {
    CleanSame(StoreDir(base, dongle, route, segment));
    CleanMore(StoreDir(base, dongle, route, segment), filename);
  }

  lemma PathIs(base: Base, dongle: string, route: string, segment: string, filename: string)
    requires PlainName(segment) && PlainName(filename)
    ensures Path(base, dongle, route, segment, filename) == Clean(base + [dongle, route]) + [segment, filename]
  {
    assert base + [dongle, route, segment, filename] == base + [dongle, route] + [segment, filename];
    CleanTwoMore(base + [dongle, route], segment, filename);
  }

  /** The end of a path: a plain segment and file name under whatever the rest comes to. */
  lemma PlaceEnds(base: Base, dongle: string, route: string, segment: string, filename: string)
    requires PlainName(segment) && PlainName(filename)
    ensures Path(base, dongle, route, segment, filename) == Clean(base + [dongle, route]) + [segment, filename]
    ensures StorePlace(base, dongle, route, segment, filename) == Path(base, dongle, route, segment, filename)
    ensures StoreDir(base, dongle, route, segment) == Clean(base + [dongle, route]) + [segment]
  {
    PathIs(base, dongle, route, segment, filename);
    StoreDirIs(base, dongle, route, segment);
    StorePlaceIs(base, dongle, route, segment, filename);
    EndsJoin(Clean(base + [dongle, route]), segment, filename);
  }

  lemma EndsJoin(front: Place, a: string, b: string)
    ensures front + [a] + [b] == front + [a, b]
  {}

  /** The directory of a route: its own, the device's or the root. */
  lemma RouteDirIs(base: Base, dongle: string, route: string)
    requires PlainName(dongle) && route != ""
    ensures Clean(base + [dongle, route]) ==
            if route == "." then base + [dongle] else if route == ".." then base else base + [dongle, route]
  {
    var device := base + [dongle];
    assert Clean(device) == device by {
      CleanSame(base);
      CleanMore(base, dongle);
    }
    assert device[..|device| - 1] == base;
    EndsJoin(base, dongle, route);
    CleanMore(device, route);
  }

  /** A PUT is stored in the directory of its own route if and only if the route is not called "." or
      ".."; the traversal check lets all of them through. */
  lemma OwnDirectoryIff(base: Base, dongle: string, route: string, segment: string, filename: string)
    requires PlainName(dongle) && PlainName(segment) && PlainName(filename) && route != ""
    ensures UnderBase(base, StoreDir(base, dongle, route, segment))
    ensures StorePlace(base, dongle, route, segment, filename) == base + [dongle, route, segment, filename]
            <==> route != "." && route != ".."
  {
    PlaceEnds(base, dongle, route, segment, filename);
    RouteDirIs(base, dongle, route);
    var place := Clean(base + [dongle, route]) + [segment, filename];
    if route == "." || route == ".." {
      assert |place| < |base + [dongle, route, segment, filename]|;
    } else {
      assert place == base + [dongle, route, segment, filename];
    }
  }

  /** Two devices write to one place with a route called "..". */
  lemma DevicesShareUpPlace(base: Base, a: string, b: string, segment: string, filename: string)
    requires PlainName(a) && PlainName(b) && PlainName(segment) && PlainName(filename)
    ensures StorePlace(base, a, "..", segment, filename) == base + [segment, filename] == StorePlace(base, b, "..", segment, filename)
  {
    PlaceEnds(base, a, "..", segment, filename);
    PlaceEnds(base, b, "..", segment, filename);
    RouteDirIs(base, a, "..");
    RouteDirIs(base, b, "..");
  }

  // ---------------------------------------------------------------- segment spellings

  lemma NumeralIsPlain(segment: string)
    requires Atoi(segment).Some?
    ensures PlainName(segment)
  {
    var signed := segment[0] == '+' || segment[0] == '-';
    var digits := if signed then segment[1..] else segment;
    assert forall i :: 0 <= i < |digits| ==> IsDigit(digits[i]);
    assert forall i :: 0 <= i < |segment| ==> segment[i] != '/';
    assert segment[|segment| - 1] == digits[|digits| - 1];
  }

  lemma FilenameIsPlain(filename: string)
    requires filename in VALID_FILENAMES
    ensures PlainName(filename) && FilenameToFlag(filename).Some?
  {
    FilenamesPlain(filename);
    AcceptedFilesHaveFlags(filename);
  }

  /** Readers name a segment's directory by the number in the table. */
  predicate Canonical(segment: string) {
    Atoi(segment).Some? && segment == Itoa(Int32(Atoi(segment).value))
  }

  lemma Int32Range(n: int)
    ensures -0x8000_0000 <= Int32(n) < 0x8000_0000
    ensures -0x8000_0000 <= n < 0x8000_0000 ==> Int32(n) == n
  {}

  /** That is the plain spelling of a number below 2^31, which minted links have. */
  lemma CanonicalIff(segment: string)
    requires Atoi(segment).Some? && Atoi(segment).value >= 0
    ensures Canonical(segment) <==> Atoi(segment).value < 0x8000_0000 && segment == Itoa(Atoi(segment).value)
  {
    Int32Range(Atoi(segment).value);
    AtoiItoa(Int32(Atoi(segment).value));
  }

  lemma OnlySpelling(segment: string, m: int)
    requires Atoi(segment).Some? && -0x8000_0000 <= m < 0x8000_0000 && segment == Itoa(m)
    ensures Canonical(segment) && m == Int32(Atoi(segment).value)
  {
    AtoiItoa(m);
    Int32Range(m);
  }

  /** A stored file lies where readers look for the segment that is flagged, if and only if the
      segment is spelled canonically. */
  lemma LiesWhereReadIff(base: Base, dongle: string, filePath: string)
    requires RoutePut(filePath).SegmentFile?
    ensures var t := RoutePut(filePath).target;
            && Atoi(t.segment).Some?
            && (Canonical(t.segment) <==>
                StorePlace(base, dongle, t.route, t.segment, t.filename)
                == Path(base, dongle, t.route, Itoa(Int32(Atoi(t.segment).value)), t.filename))
  {
    var t := RoutePut(filePath).target;
    ReadableTarget(filePath);
    var m := Int32(Atoi(t.segment).value);
    Int32Range(Atoi(t.segment).value);
    AtoiItoa(m);
    NumeralIsPlain(t.segment);
    NumeralIsPlain(Itoa(m));
    FilenameIsPlain(t.filename);
    PlaceEnds(base, dongle, t.route, t.segment, t.filename);
    PlaceEnds(base, dongle, t.route, Itoa(m), t.filename);
    SameEnds(Clean(base + [dongle, t.route]), t.segment, Itoa(m), t.filename);
  }

  lemma SameEnds(front: Place, a: string, b: string, filename: string)
    ensures front + [a, filename] == front + [b, filename] <==> a == b
  {
    assert (front + [a, filename])[|front|] == a && (front + [b, filename])[|front|] == b;
  }

  lemma ReadableTarget(filePath: string)
    requires RoutePut(filePath).SegmentFile?
    ensures var t := RoutePut(filePath).target;
            t.route != "" && Atoi(t.segment).Some? && Atoi(t.segment).value >= 0 && t.filename in VALID_FILENAMES
  {}

  lemma {:induction false} LeadingZero(digits: string)
    requires AllDigits(digits)
    ensures AllDigits("0" + digits) && DigitsValue("0" + digits) == DigitsValue(digits)
    decreases |digits|
  {
    var padded := "0" + digits;
    assert forall i :: 0 <= i < |padded| ==> IsDigit(padded[i]);
    if digits == "" {
      assert padded[..0] == "";
    } else {
      LeadingZero(digits[..|digits| - 1]);
      assert padded[..|padded| - 1] == "0" + digits[..|digits| - 1];
    }
  }

  lemma PaddedNumber(n: nat)
    requires n < 0x8000_0000
    ensures Atoi("0" + Itoa(n)) == Some(n) && !Canonical("0" + Itoa(n))
  {
    LeadingZero(Itoa(n));
    DigitsOfItoa(n);
    AtoiDigits("0" + Itoa(n));
    CanonicalIff("0" + Itoa(n));
    assert |"0" + Itoa(n)| == |Itoa(n)| + 1;
  }

  /** A PUT that spells its segment with a leading zero is accepted, is tracked on the segment without
      the zero, and does not lie where that segment is read. */
  lemma PaddedSegmentMisplaced(route: string, n: nat, filename: string)
    requires route != "" && '/' !in route && route != "boot" && n < 0x8000_0000 && filename in VALID_FILENAMES
    ensures RoutePut(SegmentPath(route, "0" + Itoa(n), filename)) == SegmentFile(Target(route, "0" + Itoa(n), filename))
    ensures Atoi("0" + Itoa(n)) == Some(n) && !Canonical("0" + Itoa(n))
  {
    PaddedNumber(n);
    SpelledPut(route, "0" + Itoa(n), filename);
  }

  lemma SpelledParse(route: string, segment: string, filename: string)
    requires route != "" && '/' !in route && filename != ""
    requires Atoi(segment).Some? && Atoi(segment).value >= 0
    ensures ParseUploadPath(SegmentPath(route, segment, filename)) == Some(Target(route, segment, filename))
  {
    NumeralIsPlain(segment);
    var rest := segment + "/" + filename;
    assert SegmentPath(route, segment, filename) == route + "/" + rest;
    SplitFirst(route, rest, 3);
    SplitFirst(segment, filename, 2);
  }

  lemma SpelledPut(route: string, segment: string, filename: string)
    requires route != "" && '/' !in route && route != "boot" && filename in VALID_FILENAMES
    requires Atoi(segment).Some? && Atoi(segment).value >= 0
    ensures RoutePut(SegmentPath(route, segment, filename)) == SegmentFile(Target(route, segment, filename))
  {
    FilenameIsPlain(filename);
    PlainRouteSegmentPut(route, segment, filename);
    SpelledParse(route, segment, filename);
  }

  // ---------------------------------------------------------------- tracking with faults

  datatype TrackCall = GetRoute | CreateRoute | CreateSegment | UpdateUpload

  /** trackUpload, up to the statement that fails. Nothing of it is undone. */
  function Tracked(db: Db, dongle: string, route: string, n: int, flag: Option<Flag>, faults: set<TrackCall>): Db {
    if GetRoute in faults || ((dongle, route) !in db.routes && CreateRoute in faults) then db
    else
      var found := GetOrCreateRoute(db, dongle, route);
      if CreateSegment in faults then found
      else
        found.(segments := TrackFlag(found.segments, found.routes[(dongle, route)], Int32(n),
                                     if UpdateUpload in faults then None else flag))
  }

  /** Whether it gets to the end. */
  predicate TracksFully(db: Db, dongle: string, route: string, faults: set<TrackCall>) {
    && GetRoute !in faults && ((dongle, route) in db.routes || CreateRoute !in faults)
    && CreateSegment !in faults && UpdateUpload !in faults
  }

  /** Route ids are distinct, and segments belong to them and hold 32-bit numbers. */
  ghost predicate DbValid(db: Db) {
    && (forall k :: k in db.routes ==> db.routes[k] < db.nextId)
    && (forall k, l :: k in db.routes && l in db.routes && k != l ==> db.routes[k] != db.routes[l])
    && (forall s :: s in db.segments ==> s.routeId < db.nextId && -0x8000_0000 <= s.number < 0x8000_0000)
  }

  ghost predicate HasFlag(db: Db, dongle: string, route: string, n: int, flag: Flag) {
    (dongle, route) in db.routes && FlagSet(db.segments, db.routes[(dongle, route)], n, flag)
  }

  lemma TrackFlagRows(t: Segments, id: int, n: int, flag: Option<Flag>)
    ensures forall s :: s in TrackFlag(t, id, n, flag) ==>
              (s.routeId == id && s.number == n) || exists i :: 0 <= i < |t| && t[i].routeId == s.routeId && t[i].number == s.number
  {
    var created := CreateSegmentIfNotExists(t, id, n);
    var after := TrackFlag(t, id, n, flag);
    forall i | 0 <= i < |after|
      ensures (after[i].routeId == id && after[i].number == n)
              || exists j :: 0 <= j < |t| && t[j].routeId == after[i].routeId && t[j].number == after[i].number
    {
      assert after[i].routeId == created[i].routeId && after[i].number == created[i].number;
      assert i < |t| ==> created[i] == t[i];
    }
  }

  lemma TrackedValid(db: Db, dongle: string, route: string, n: int, flag: Option<Flag>, faults: set<TrackCall>)
    requires DbValid(db)
    ensures DbValid(Tracked(db, dongle, route, n, flag, faults))
  {
    var found := GetOrCreateRoute(db, dongle, route);
    assert DbValid(found);
    Int32Range(n);
    TrackFlagRows(db.segments, found.routes[(dongle, route)], Int32(n), if UpdateUpload in faults then None else flag);
  }

  lemma CreatedRouteFlags(db: Db, dongle: string, route: string, d: string, r: string, m: int, g: Flag)
    requires DbValid(db)
    ensures HasFlag(GetOrCreateRoute(db, dongle, route), d, r, m, g) <==> HasFlag(db, d, r, m, g)
  {
    var found := GetOrCreateRoute(db, dongle, route);
    if (d, r) !in db.routes && (d, r) in found.routes {
      forall i | 0 <= i < |db.segments| ensures db.segments[i].routeId != found.routes[(d, r)] {
        assert db.segments[i] in db.segments;
      }
    }
  }

  lemma RouteIdsDiffer(db: Db, dongle: string, route: string, d: string, r: string)
    requires DbValid(db)
    ensures var found := GetOrCreateRoute(db, dongle, route);
            (d, r) in found.routes ==> (found.routes[(d, r)] == found.routes[(dongle, route)] <==> d == dongle && r == route)
  {
    if (d, r) in db.routes && (dongle, route) in db.routes && (d, r) != (dongle, route) {
      assert db.routes[(d, r)] != db.routes[(dongle, route)];
    }
  }

  lemma FlagOnFound(found: Db, dongle: string, route: string, n: int, flag: Option<Flag>, d: string, r: string, m: int, g: Flag)
    requires (dongle, route) in found.routes
    requires (d, r) in found.routes ==> (found.routes[(d, r)] == found.routes[(dongle, route)] <==> d == dongle && r == route)
    ensures HasFlag(found.(segments := TrackFlag(found.segments, found.routes[(dongle, route)], n, flag)), d, r, m, g) <==>
            HasFlag(found, d, r, m, g) || (flag == Some(g) && d == dongle && r == route && m == n)
  {
    if (d, r) in found.routes {
      TrackFlagSets(found.segments, found.routes[(dongle, route)], n, flag, found.routes[(d, r)], m, g);
    }
  }

  lemma TrackedFlag(db: Db, dongle: string, route: string, n: int, flag: Flag, faults: set<TrackCall>,
                    d: string, r: string, m: int, g: Flag)
    requires DbValid(db)
    ensures HasFlag(Tracked(db, dongle, route, n, Some(flag), faults), d, r, m, g) <==>
            HasFlag(db, d, r, m, g)
            || (TracksFully(db, dongle, route, faults) && d == dongle && r == route && m == Int32(n) && g == flag)
  {
    if GetRoute in faults || ((dongle, route) !in db.routes && CreateRoute in faults) { return; }
    CreatedRouteFlags(db, dongle, route, d, r, m, g);
    if CreateSegment in faults { return; }
    RouteIdsDiffer(db, dongle, route, d, r);
    FlagOnFound(GetOrCreateRoute(db, dongle, route), dongle, route, Int32(n),
                if UpdateUpload in faults then None else Some(flag), d, r, m, g);
  }

  /** Whatever fails, the tables stay valid, and the one flag that can be new is the file's own on the
      segment of the low 32 bits; it is set exactly when nothing failed. */
  lemma TrackedFlags(db: Db, dongle: string, route: string, n: int, flag: Flag, faults: set<TrackCall>)
    requires DbValid(db)
    ensures DbValid(Tracked(db, dongle, route, n, Some(flag), faults))
    ensures forall d, r, m, g :: HasFlag(Tracked(db, dongle, route, n, Some(flag), faults), d, r, m, g) <==>
              HasFlag(db, d, r, m, g)
              || (TracksFully(db, dongle, route, faults) && d == dongle && r == route && m == Int32(n) && g == flag)
  {
    TrackedValid(db, dongle, route, n, Some(flag), faults);
    forall d, r, m, g { TrackedFlag(db, dongle, route, n, flag, faults, d, r, m, g); }
  }

  // ---------------------------------------------------------------- flags and files

  /** The tables, and the segment files on disk. */
  datatype State = State(db: Db, disk: set<Place>)

  /** How storing ends: written, failed before the file is created, or cut off, which removes it. */
  datatype Storing = Written | NotCreated | CutOff

  function AfterStore(disk: set<Place>, place: Place, storing: Storing): set<Place> {
    match storing
    case Written => disk + {place}
    case NotCreated => disk
    case CutOff => disk - {place}
  }

  /** One PUT: only a file that is stored is tracked. */
  function AfterUpload(st: State, base: Base, dongle: string, filePath: string, storing: Storing, faults: set<TrackCall>): State {
    match RoutePut(filePath)
    case SegmentFile(t) =>
      if !UnderBase(base, StoreDir(base, dongle, t.route, t.segment)) || Atoi(t.segment).None? then st
      else
        State(if storing.Written? then Tracked(st.db, dongle, t.route, Atoi(t.segment).value, FilenameToFlag(t.filename), faults)
              else st.db,
              AfterStore(st.disk, StorePlace(base, dongle, t.route, t.segment, t.filename), storing))
    case _ => st
  }

  /** Some file with this flag lies where readers look for it. */
  ghost predicate Backed(disk: set<Place>, base: Base, dongle: string, route: string, n: int, flag: Flag) {
    exists f :: BackedBy(disk, base, dongle, route, n, flag, f)
  }

  ghost predicate BackedBy(disk: set<Place>, base: Base, dongle: string, route: string, n: int, flag: Flag, f: string) {
    f in VALID_FILENAMES && FilenameToFlag(f) == Some(flag) && Path(base, dongle, route, Itoa(n), f) in disk
  }

  ghost predicate FlagsBacked(st: State, base: Base) {
    forall d, r, n, flag :: HasFlag(st.db, d, r, n, flag) ==> Backed(st.disk, base, d, r, n, flag)
  }

  /** The names of devices and routes are plain. */
  ghost predicate NamesPlain(db: Db) { forall k :: k in db.routes ==> PlainName(k.0) && PlainName(k.1) }

  /** The place of a file tells its device, route, segment and name. */
  lemma PathsDiffer(base: Base, d: string, r: string, n: int, f: string, dongle: string, route: string, segment: string, filename: string)
    requires PlainName(d) && PlainName(r) && PlainName(f) && PlainName(Itoa(n))
    requires PlainName(dongle) && PlainName(route) && PlainName(segment) && PlainName(filename)
    ensures Path(base, d, r, Itoa(n), f) == StorePlace(base, dongle, route, segment, filename)
            <==> d == dongle && r == route && Itoa(n) == segment && f == filename
  {
    OwnDirectoryIff(base, d, r, Itoa(n), f);
    OwnDirectoryIff(base, dongle, route, segment, filename);
    PlaceEnds(base, d, r, Itoa(n), f);
    var (p, q) := (base + [d, r, Itoa(n), f], base + [dongle, route, segment, filename]);
    var b := |base|;
    assert p[b] == d && p[b + 1] == r && p[b + 2] == Itoa(n) && p[b + 3] == f;
    assert q[b] == dongle && q[b + 1] == route && q[b + 2] == segment && q[b + 3] == filename;
  }

  // ---------------------------------------------------------------- one PUT

  /** The removed file was the one that backed a flag. */
  ghost predicate TakesLast(st: State, base: Base, dongle: string, t: Target) {
    && Canonical(t.segment)
    && FilenameToFlag(t.filename).Some?
    && HasFlag(st.db, dongle, t.route, Int32(Atoi(t.segment).value), FilenameToFlag(t.filename).value)
    && forall f :: BackedBy(st.disk, base, dongle, t.route, Int32(Atoi(t.segment).value), FilenameToFlag(t.filename).value, f)
                   ==> f == t.filename
  }

  /** The PUT sets a flag for a file that lies elsewhere. */
  ghost predicate FlagsElsewhere(st: State, base: Base, dongle: string, t: Target, faults: set<TrackCall>) {
    && TracksFully(st.db, dongle, t.route, faults) && Atoi(t.segment).Some? && !Canonical(t.segment)
    && FilenameToFlag(t.filename).Some?
    && !Backed(st.disk, base, dongle, t.route, Int32(Atoi(t.segment).value), FilenameToFlag(t.filename).value)
  }

  /** What a PUT must not do for every set flag to go on meaning a file. */
  ghost predicate Unbacks(st: State, base: Base, dongle: string, filePath: string, storing: Storing, faults: set<TrackCall>) {
    match RoutePut(filePath)
    case SegmentFile(t) =>
      (storing.Written? && FlagsElsewhere(st, base, dongle, t, faults)) || (storing.CutOff? && TakesLast(st, base, dongle, t))
    case _ => false
  }

  lemma BackedByStays(st: State, base: Base, dongle: string, t: Target, d: string, r: string, n: int, flag: Flag, f: string)
    requires PlainName(dongle) && PlainName(t.route) && PlainName(d) && PlainName(r) && -0x8000_0000 <= n < 0x8000_0000
    requires Atoi(t.segment).Some? && t.filename in VALID_FILENAMES
    ensures var place := StorePlace(base, dongle, t.route, t.segment, t.filename);
            var own := d == dongle && r == t.route && Itoa(n) == t.segment && f == t.filename && FilenameToFlag(f) == Some(flag);
            && (BackedBy(st.disk + {place}, base, d, r, n, flag, f) <==> BackedBy(st.disk, base, d, r, n, flag, f) || own)
            && (BackedBy(st.disk - {place}, base, d, r, n, flag, f) <==> BackedBy(st.disk, base, d, r, n, flag, f) && !own)
  {
    if f in VALID_FILENAMES {
      AtoiItoa(n);
      NumeralIsPlain(Itoa(n));
      NumeralIsPlain(t.segment);
      FilenameIsPlain(f);
      FilenameIsPlain(t.filename);
      PathsDiffer(base, d, r, n, f, dongle, t.route, t.segment, t.filename);
    }
  }

  /** Storing a file takes no backing away, and gives it to its own flag exactly when the segment is
      spelled canonically. */
  lemma WrittenBacks(st: State, base: Base, dongle: string, t: Target, d: string, r: string, n: int, flag: Flag)
    requires PlainName(dongle) && PlainName(t.route) && PlainName(d) && PlainName(r) && -0x8000_0000 <= n < 0x8000_0000
    requires Atoi(t.segment).Some? && t.filename in VALID_FILENAMES
    ensures var place := StorePlace(base, dongle, t.route, t.segment, t.filename);
            Backed(st.disk + {place}, base, d, r, n, flag) <==>
            Backed(st.disk, base, d, r, n, flag)
            || (d == dongle && r == t.route && Itoa(n) == t.segment && FilenameToFlag(t.filename) == Some(flag))
  {
    forall f { BackedByStays(st, base, dongle, t, d, r, n, flag, f); }
    BackedByStays(st, base, dongle, t, d, r, n, flag, t.filename);
  }

  lemma CutOffBacks(st: State, base: Base, dongle: string, t: Target, d: string, r: string, n: int, flag: Flag)
    requires PlainName(dongle) && PlainName(t.route) && PlainName(d) && PlainName(r) && -0x8000_0000 <= n < 0x8000_0000
    requires Atoi(t.segment).Some? && t.filename in VALID_FILENAMES
    ensures var place := StorePlace(base, dongle, t.route, t.segment, t.filename);
            Backed(st.disk - {place}, base, d, r, n, flag) <==>
            exists f :: BackedBy(st.disk, base, d, r, n, flag, f)
                        && !(d == dongle && r == t.route && Itoa(n) == t.segment && f == t.filename)
  {
    forall f { BackedByStays(st, base, dongle, t, d, r, n, flag, f); }
  }

  lemma WrittenKeepsBackedIff(st: State, base: Base, dongle: string, t: Target, faults: set<TrackCall>)
    requires DbValid(st.db) && NamesPlain(st.db) && FlagsBacked(st, base)
    requires PlainName(dongle) && PlainName(t.route) && Atoi(t.segment).Some? && t.filename in VALID_FILENAMES
    ensures var after := State(Tracked(st.db, dongle, t.route, Atoi(t.segment).value, FilenameToFlag(t.filename), faults),
                               st.disk + {StorePlace(base, dongle, t.route, t.segment, t.filename)});
            FlagsBacked(after, base) <==> !FlagsElsewhere(st, base, dongle, t, faults)
  {
    FilenameIsPlain(t.filename);
    var (m, flag) := (Int32(Atoi(t.segment).value), FilenameToFlag(t.filename).value);
    var after := State(Tracked(st.db, dongle, t.route, Atoi(t.segment).value, FilenameToFlag(t.filename), faults),
                       st.disk + {StorePlace(base, dongle, t.route, t.segment, t.filename)});
    TrackedFlags(st.db, dongle, t.route, Atoi(t.segment).value, flag, faults);
    Int32Range(Atoi(t.segment).value);
    WrittenBacks(st, base, dongle, t, dongle, t.route, m, flag);
    forall d, r, n, g | HasFlag(st.db, d, r, n, g) ensures Backed(after.disk, base, d, r, n, g) {
      var i :| 0 <= i < |st.db.segments| && st.db.segments[i].routeId == st.db.routes[(d, r)] && st.db.segments[i].number == n;
      assert st.db.segments[i] in st.db.segments && PlainName((d, r).0) && PlainName((d, r).1);
      WrittenBacks(st, base, dongle, t, d, r, n, g);
    }
    if FlagsElsewhere(st, base, dongle, t, faults) {
      assert HasFlag(after.db, dongle, t.route, m, flag) && !Backed(after.disk, base, dongle, t.route, m, flag);
    }
  }

  lemma CutOffKeepsBackedIff(st: State, base: Base, dongle: string, t: Target)
    requires DbValid(st.db) && NamesPlain(st.db) && FlagsBacked(st, base)
    requires PlainName(dongle) && PlainName(t.route) && Atoi(t.segment).Some? && t.filename in VALID_FILENAMES
    ensures var after := st.(disk := st.disk - {StorePlace(base, dongle, t.route, t.segment, t.filename)});
            FlagsBacked(after, base) <==> !TakesLast(st, base, dongle, t)
  {
    FilenameIsPlain(t.filename);
    var (m, flag) := (Int32(Atoi(t.segment).value), FilenameToFlag(t.filename).value);
    var after := st.(disk := st.disk - {StorePlace(base, dongle, t.route, t.segment, t.filename)});
    Int32Range(Atoi(t.segment).value);
    if TakesLast(st, base, dongle, t) {
      CutOffBacks(st, base, dongle, t, dongle, t.route, m, flag);
      assert HasFlag(after.db, dongle, t.route, m, flag) && !Backed(after.disk, base, dongle, t.route, m, flag);
    } else {
      forall d, r, n, g | HasFlag(st.db, d, r, n, g) ensures Backed(after.disk, base, d, r, n, g) {
        var i :| 0 <= i < |st.db.segments| && st.db.segments[i].routeId == st.db.routes[(d, r)] && st.db.segments[i].number == n;
        assert st.db.segments[i] in st.db.segments && PlainName((d, r).0) && PlainName((d, r).1);
        CutOffBacks(st, base, dongle, t, d, r, n, g);
        var f :| BackedBy(st.disk, base, d, r, n, g, f);
        if d == dongle && r == t.route && Itoa(n) == t.segment && f == t.filename {
          OnlySpelling(t.segment, n);
          assert g == flag && n == m;
          var other :| BackedBy(st.disk, base, d, r, n, g, other) && other != t.filename;
        }
      }
    }
  }

  lemma StoreKeepsBackedIff(st: State, base: Base, dongle: string, t: Target, storing: Storing, faults: set<TrackCall>)
    requires DbValid(st.db) && NamesPlain(st.db) && FlagsBacked(st, base)
    requires PlainName(dongle) && PlainName(t.route) && Atoi(t.segment).Some? && t.filename in VALID_FILENAMES
    ensures var db := if storing.Written? then Tracked(st.db, dongle, t.route, Atoi(t.segment).value, FilenameToFlag(t.filename), faults)
                      else st.db;
            var disk := AfterStore(st.disk, StorePlace(base, dongle, t.route, t.segment, t.filename), storing);
            && UnderBase(base, StoreDir(base, dongle, t.route, t.segment)) && DbValid(db) && NamesPlain(db)
            && (FlagsBacked(State(db, disk), base) <==> !(storing.Written? && FlagsElsewhere(st, base, dongle, t, faults))
                                                        && !(storing.CutOff? && TakesLast(st, base, dongle, t)))
  {
    NumeralIsPlain(t.segment);
    FilenameIsPlain(t.filename);
    OwnDirectoryIff(base, dongle, t.route, t.segment, t.filename);
    TrackedFlags(st.db, dongle, t.route, Atoi(t.segment).value, FilenameToFlag(t.filename).value, faults);
    if storing.Written? { WrittenKeepsBackedIff(st, base, dongle, t, faults); }
    if storing.CutOff? { CutOffKeepsBackedIff(st, base, dongle, t); }
  }

  /** A PUT leaves every set flag backed by a file where readers look, if and only if it neither sets
      a new flag for a segment spelled another way, nor is cut off over the only file of a flag that
      is set. */
  lemma UploadKeepsBackedIff(st: State, base: Base, dongle: string, filePath: string, storing: Storing, faults: set<TrackCall>)
    requires DbValid(st.db) && NamesPlain(st.db) && FlagsBacked(st, base) && PlainName(dongle)
    requires RoutePut(filePath).SegmentFile? ==> PlainName(RoutePut(filePath).target.route)
    ensures var after := AfterUpload(st, base, dongle, filePath, storing, faults);
            && DbValid(after.db) && NamesPlain(after.db)
            && (FlagsBacked(after, base) <==> !Unbacks(st, base, dongle, filePath, storing, faults))
  {
    if RoutePut(filePath).SegmentFile? {
      var t := RoutePut(filePath).target;
      ReadableTarget(filePath);
      StoreKeepsBackedIff(st, base, dongle, t, storing, faults);
    }
  }

  // ---------------------------------------------------------------- any course of PUTs

  datatype Upload = Upload(dongle: string, filePath: string, storing: Storing, faults: set<TrackCall>)

  /** A PUT by a device, for a route, of plain names. */
  predicate PlainUpload(u: Upload) {
    PlainName(u.dongle) && (RoutePut(u.filePath).SegmentFile? ==> PlainName(RoutePut(u.filePath).target.route))
  }

  function After(st: State, base: Base, u: Upload): State {
    AfterUpload(st, base, u.dongle, u.filePath, u.storing, u.faults)
  }

  ghost predicate BackedThroughout(st: State, base: Base, uploads: seq<Upload>)
    decreases uploads
  { FlagsBacked(st, base) && (uploads != [] ==> BackedThroughout(After(st, base, uploads[0]), base, uploads[1..])) }

  ghost predicate NeverUnbacks(st: State, base: Base, uploads: seq<Upload>)
    decreases uploads
  {
    uploads != [] ==>
      var u := uploads[0];
      !Unbacks(st, base, u.dongle, u.filePath, u.storing, u.faults) && NeverUnbacks(After(st, base, u), base, uploads[1..])
  }

  /** Over any course of PUTs, whatever fails in them: the flags mean files all along if and only if no
      PUT is one of those two. */
  lemma {:induction false} UploadsKeepBackedIff(st: State, base: Base, uploads: seq<Upload>)
    requires DbValid(st.db) && NamesPlain(st.db) && FlagsBacked(st, base)
    requires forall i :: 0 <= i < |uploads| ==> PlainUpload(uploads[i])
    ensures BackedThroughout(st, base, uploads) <==> NeverUnbacks(st, base, uploads)
    decreases uploads
  {
    if uploads != [] {
      var u := uploads[0];
      assert PlainUpload(u);
      UploadKeepsBackedIff(st, base, u.dongle, u.filePath, u.storing, u.faults);
      if !Unbacks(st, base, u.dongle, u.filePath, u.storing, u.faults) {
        UploadsKeepBackedIff(After(st, base, u), base, uploads[1..]);
      }
    }
  }

  /** The place of a PUT is named by the number of its segment, as in every minted link. */
  predicate CanonicalUpload(u: Upload) {
    PlainUpload(u) && (RoutePut(u.filePath).SegmentFile? ==> Canonical(RoutePut(u.filePath).target.segment))
  }

  /** So PUTs to minted addresses that are not cut off keep every flag backed, whatever else fails. */
  lemma {:induction false} MintedUploadsKeepBacked(st: State, base: Base, uploads: seq<Upload>)
    requires forall i :: 0 <= i < |uploads| ==> CanonicalUpload(uploads[i]) && !uploads[i].storing.CutOff?
    ensures NeverUnbacks(st, base, uploads)
    decreases uploads
  {
    if uploads != [] {
      assert CanonicalUpload(uploads[0]);
      MintedUploadsKeepBacked(After(st, base, uploads[0]), base, uploads[1..]);
    }
  }

  lemma SegmentUpload(st: State, base: Base, dongle: string, route: string, n: nat, filename: string, storing: Storing)
    requires PlainName(dongle) && PlainName(route) && route != "boot" && n < 0x8000_0000 && filename in VALID_FILENAMES
    ensures AfterUpload(st, base, dongle, SegmentPath(route, Itoa(n), filename), storing, {}) ==
            State(if storing.Written? then Tracked(st.db, dongle, route, n, FilenameToFlag(filename), {}) else st.db,
                  AfterStore(st.disk, StorePlace(base, dongle, route, Itoa(n), filename), storing))
  {
    AtoiItoa(n);
    SpelledPut(route, Itoa(n), filename);
    NumeralIsPlain(Itoa(n));
    FilenameIsPlain(filename);
    OwnDirectoryIff(base, dongle, route, Itoa(n), filename);
  }

  /** A second PUT of a file that is cut off leaves the flag set and the file gone. */
  lemma CutOffLosesFile(st: State, base: Base, dongle: string, route: string, n: nat, filename: string)
    requires PlainName(dongle) && PlainName(route) && route != "boot" && n < 0x8000_0000 && filename in VALID_FILENAMES
    requires FilenameToFlag(filename).Some? && HasFlag(st.db, dongle, route, n, FilenameToFlag(filename).value)
    ensures var after := AfterUpload(st, base, dongle, SegmentPath(route, Itoa(n), filename), CutOff, {});
            && HasFlag(after.db, dongle, route, n, FilenameToFlag(filename).value)
            && Path(base, dongle, route, Itoa(n), filename) !in after.disk
  {
    SegmentUpload(st, base, dongle, route, n, filename, CutOff);
    AtoiItoa(n);
    NumeralIsPlain(Itoa(n));
    FilenameIsPlain(filename);
    PlaceEnds(base, dongle, route, Itoa(n), filename);
  }

  /** Of what a request of any kind would ask for, what is there now is gone from the list: the file of
      the same segment that has the same name up to its first dot, and nothing else. A preview or a
      short log takes nothing off. */
  ghost predicate TakesOwnStem(was: Db, now: Db, dongle: string, t: Target, n: int)
    requires (dongle, t.route) in was.routes && (dongle, t.route) in now.routes
  {
    forall kind :: FilesForKind(kind).Some? ==>
      var (before, after) := (MissingIn(was, dongle, t.route, FilesForKind(kind).value),
                              MissingIn(now, dongle, t.route, FilesForKind(kind).value));
      && after == Where(before, (o: (int, string)) => !(o.0 == n && Stem(o.1) == Stem(t.filename)))
      && (Stem(t.filename) in {"qcamera", "qlog"} ==> after == before)
  }

  lemma RequestedStems(kind: string, file: string)
    requires FilesForKind(kind).Some? && file in FilesForKind(kind).value
    ensures Stem(file) in {"fcamera", "ecamera", "dcamera", "rlog"}
  {
    RequestedFiles(kind);
    if file in {"fcamera.hevc", "fcamera.hevc~"} { FcameraNames(file); }
    if file in {"ecamera.hevc", "ecamera.hevc~"} { EcameraNames(file); }
    if file in {"dcamera.hevc", "dcamera.hevc~"} { DcameraNames(file); }
    if file in {"rlog", "rlog.bz2", "rlog.zst"} { RlogNames(file); }
  }

  /** However its segment is spelled, a PUT acts as that of the minted link. */
  lemma PutActsAsMinted(db: Db, dongle: string, filePath: string)
    requires RoutePut(filePath).SegmentFile?
    requires var t := RoutePut(filePath).target;
             PlainRoute(db, dongle, t.route) && Atoi(t.segment).Some? && 0 <= Atoi(t.segment).value < 0x8000_0000
    ensures var t := RoutePut(filePath).target;
            AfterPut(db, dongle, filePath) == AfterPut(db, dongle, Mint(t.route, (Atoi(t.segment).value, t.filename)).put)
  {
    var t := RoutePut(filePath).target;
    ReadableTarget(filePath);
    FilenameIsPlain(t.filename);
    PutReachesSegmentIff(t.route, Atoi(t.segment).value, t.filename);
    PutParses(db, dongle, t.route, Atoi(t.segment).value, t.filename);
  }

  lemma PutTakesOwnStem(db: Db, dongle: string, filePath: string)
    requires RoutePut(filePath).SegmentFile?
    requires var t := RoutePut(filePath).target;
             PlainRoute(db, dongle, t.route) && Atoi(t.segment).Some? && HasSegment(db.segments, db.routes[(dongle, t.route)], Atoi(t.segment).value)
    ensures var t := RoutePut(filePath).target;
            TakesOwnStem(db, AfterPut(db, dongle, filePath), dongle, t, Atoi(t.segment).value)
  {
    var t := RoutePut(filePath).target;
    var n := Atoi(t.segment).value;
    var i :| 0 <= i < |db.segments| && db.segments[i].routeId == db.routes[(dongle, t.route)] && db.segments[i].number == n;
    assert db.segments[i] in db.segments;
    ReadableTarget(filePath);
    PutActsAsMinted(db, dongle, filePath);
    forall kind | FilesForKind(kind).Some?
      ensures var (before, after) := (MissingIn(db, dongle, t.route, FilesForKind(kind).value),
                                      MissingIn(AfterPut(db, dongle, filePath), dongle, t.route, FilesForKind(kind).value));
              && after == Where(before, (o: (int, string)) => !(o.0 == n && Stem(o.1) == Stem(t.filename)))
              && (Stem(t.filename) in {"qcamera", "qlog"} ==> after == before)
    {
      var wanted := FilesForKind(kind).value;
      var before := MissingIn(db, dongle, t.route, wanted);
      KindsAreTrackable(kind);
      PutRemovesCovered(db, dongle, t.route, wanted, (n, t.filename));
      WhereSame(before, o => !Covers((n, t.filename), o), (o: (int, string)) => !(o.0 == n && Stem(o.1) == Stem(t.filename)));
      MissingIsListed(db, dongle, t.route, wanted);
      if Stem(t.filename) in {"qcamera", "qlog"} {
        forall o | o in before ensures !Covers((n, t.filename), o) { RequestedStems(kind, o.1); }
        WhereAll(before, o => !Covers((n, t.filename), o));
      }
    }
  }

  // ---------------------------------------------------------------- the handler

  datatype Reply = BadRequest | StoreFailed | Stored

  class UploadHandler {
    const base: Base
    var routes: map<(string, string), int>
    var nextId: int
    var segments: Segments
    var disk: set<Place>   // the segment files

    constructor (base: Base)
      ensures this.base == base && Tables() == Db(map[], 1, []) && disk == {}
    { this.base, routes, nextId, segments, disk := base, map[], 1, [], {}; }

    function Tables(): Db
      reads this
    { Db(routes, nextId, segments) }

    /** Finds or creates the route and the segment, and sets the file's flag; what was done before a
        statement fails stays done. */
    method TrackUpload(dongle: string, route: string, segment: string, filename: string, faults: set<TrackCall>) returns (ok: bool)
      modifies this`routes, this`nextId, this`segments
      ensures Atoi(segment).None? ==> !ok && Tables() == old(Tables())
      ensures Atoi(segment).Some? ==>
                Tables() == Tracked(old(Tables()), dongle, route, Atoi(segment).value, FilenameToFlag(filename), faults)
      ensures Atoi(segment).Some? && FilenameToFlag(filename).Some? ==> (ok <==> TracksFully(old(Tables()), dongle, route, faults))
    {
      var number := Atoi(segment);
      if number.None? { return false; }
      if GetRoute in faults { return false; }
      if (dongle, route) !in routes {
        if CreateRoute in faults { return false; }
        routes, nextId := routes[(dongle, route) := nextId], nextId + 1;
      }
      var id, n := routes[(dongle, route)], Int32(number.value);
      if CreateSegment in faults { return false; }
      segments := CreateSegmentIfNotExists(segments, id, n);
      var flag := FilenameToFlag(filename);
      if flag.Some? {
        if UpdateUpload in faults { return false; }
        segments := UpdateSegmentUpload(segments, id, n, flag.value);
      }
      return true;
    }

    /** storage.Store, up to where it fails. */
    method Store(dongle: string, route: string, segment: string, filename: string, storing: Storing) returns (ok: bool)
      modifies this`disk
      ensures ok <==> UnderBase(base, StoreDir(base, dongle, route, segment)) && storing.Written?
      ensures disk == if UnderBase(base, StoreDir(base, dongle, route, segment))
                      then AfterStore(old(disk), StorePlace(base, dongle, route, segment, filename), storing) else old(disk)
    {
      var dir := StoreDir(base, dongle, route, segment);
      if !UnderBase(base, dir) || storing.NotCreated? { return false; }
      var path := Clean(dir + [filename]);
      disk := disk + {path};
      if storing.CutOff? {
        disk := disk - {path};
        return false;
      }
      return true;
    }

    /** A PUT of a segment file is stored and then tracked. What is not stored is not tracked; what
        cannot be tracked is stored all the same and reported as a success. */
    method UploadFile(dongle: string, filePath: string, storing: Storing, faults: set<TrackCall>) returns (r: Reply)
      modifies this
      ensures r.BadRequest? <==> RoutePut(filePath).Refused?
      ensures RoutePut(filePath).SegmentFile? ==>
                var t := RoutePut(filePath).target;
                (r.Stored? <==> storing.Written? && UnderBase(base, StoreDir(base, dongle, t.route, t.segment)))
      ensures State(Tables(), disk) == AfterUpload(State(old(Tables()), old(disk)), base, dongle, filePath, storing, faults)
      ensures r.Stored? && faults == {} ==> Tables() == AfterPut(old(Tables()), dongle, filePath)
      ensures r.Stored? && faults == {} && RoutePut(filePath).SegmentFile? ==>
                var t := RoutePut(filePath).target;
                PlainRoute(old(Tables()), dongle, t.route) && Atoi(t.segment).Some?
                && HasSegment(old(segments), old(routes)[(dongle, t.route)], Atoi(t.segment).value) ==>
                  TakesOwnStem(old(Tables()), Tables(), dongle, t, Atoi(t.segment).value)
      ensures !r.Stored? ==> Tables() == old(Tables())
    {
      var put := RoutePut(filePath);
      match put
      case Refused => return BadRequest;
      case BootLog(_) => return if storing.Written? then Stored else StoreFailed;
      case SegmentFile(t) =>
        ReadableTarget(filePath);
        var ok := Store(dongle, t.route, t.segment, t.filename, storing);
        if !ok { return StoreFailed; }
        FilenameIsPlain(t.filename);
        var tracked := TrackUpload(dongle, t.route, t.segment, t.filename, faults);
        if PlainRoute(old(Tables()), dongle, t.route) && HasSegment(old(segments), old(routes)[(dongle, t.route)], Atoi(t.segment).value) {
          PutTakesOwnStem(old(Tables()), dongle, filePath);
        }
        return Stored;
    }
  }
}
