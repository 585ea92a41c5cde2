/**
  From requested files to uploaded files and back: the items minted by internal/api/route_data_request.go
  (filesForKind, segmentHasFile, BuildUploadItemsAt, countUploadedForKind) and the PUTs tracked by
  internal/api/upload.go (UploadFile, trackUpload, buildUploadParams).
*/
module SegmentUploads {
  import opened Common
  import opened Decimal
  import opened Ordering
  import opened UploadPaths

  /** The upload columns of a segment; those in the set are true. */
  datatype Flag = Rlog | Qlog | Fcamera | Ecamera | Dcamera | Qcamera

  datatype Segment = Segment(routeId: int, number: int, uploaded: set<Flag>)

  type Segments = seq<Segment>

  /** UNIQUE (route_id, segment_number) */
  ghost predicate KeysUnique(t: Segments) {
    forall i, j :: 0 <= i < j < |t| ==> !(t[i].routeId == t[j].routeId && t[i].number == t[j].number)
  }

  // ---------------------------------------------------------------- files and flags

  function FilenameToFlag(filename: string): Option<Flag> {
    match filename
    case "rlog" | "rlog.bz2" | "rlog.zst" => Some(Rlog)
    case "qlog" | "qlog.bz2" | "qlog.zst" => Some(Qlog)
    case "fcamera.hevc" | "fcamera.hevc~" => Some(Fcamera)
    case "ecamera.hevc" | "ecamera.hevc~" => Some(Ecamera)
    case "dcamera.hevc" | "dcamera.hevc~" => Some(Dcamera)
    case "qcamera.ts" => Some(Qcamera)
    case _ => None
  }

  predicate SegmentHasFile(seg: Segment, filename: string) {
    match filename
    case "fcamera.hevc" => Fcamera in seg.uploaded
    case "ecamera.hevc" => Ecamera in seg.uploaded
    case "dcamera.hevc" => Dcamera in seg.uploaded
    case "rlog.zst" => Rlog in seg.uploaded
    case _ => false
  }

  const FULL_VIDEO_FILES: seq<string> := ["fcamera.hevc", "ecamera.hevc", "dcamera.hevc"]
  const FULL_LOGS_FILES: seq<string> := ["rlog.zst"]

  function FilesForKind(kind: string): Option<seq<string>> {
    match kind
    case "full_video" => Some(FULL_VIDEO_FILES)
    case "full_logs" => Some(FULL_LOGS_FILES)
    case "all" => Some(FULL_VIDEO_FILES + FULL_LOGS_FILES)
    case _ => None
  }

  /** A list of files whose presence is tested by the very flags their uploads set, each by its own. */
  ghost predicate Trackable(wanted: seq<string>) {
    && (forall i :: 0 <= i < |wanted| ==> TestedByOwnFlag(wanted[i]))
    && (forall i, j :: 0 <= i < j < |wanted| ==> FilenameToFlag(wanted[i]) != FilenameToFlag(wanted[j]))
  }

  ghost predicate TestedByOwnFlag(file: string) {
    && file != "" && file in VALID_FILENAMES && FilenameToFlag(file).Some?
    && forall seg: Segment :: SegmentHasFile(seg, file) <==> FilenameToFlag(file).value in seg.uploaded
  }

  lemma KindsAreTrackable(kind: string)
    requires FilesForKind(kind).Some?
    ensures Trackable(FilesForKind(kind).value) && FilesForKind(kind).value != []
  {
    assert TestedByOwnFlag("fcamera.hevc") && TestedByOwnFlag("ecamera.hevc");
    assert TestedByOwnFlag("dcamera.hevc") && TestedByOwnFlag("rlog.zst");
  }

  // ---------------------------------------------------------------- names

  /** A file name up to its first dot. */
  function Stem(file: string): string { file[..IndexOf(file, '.')] }

  /** The upload column of a flag, without its suffix. */
  function Column(flag: Flag): string {
    match flag
    case Rlog => "rlog"
    case Qlog => "qlog"
    case Fcamera => "fcamera"
    case Ecamera => "ecamera"
    case Dcamera => "dcamera"
    case Qcamera => "qcamera"
  }

  lemma StemOf(stem: string, ending: string)
    requires '.' !in stem
    ensures Stem(stem + "." + ending) == stem && Stem(stem) == stem
  {
    IndexOfFirst(stem, '.', ending);
    assert (stem + "." + ending)[..|stem|] == stem;
    assert forall i :: 0 <= i < |stem| ==> stem[i] in stem;
  }

  /** The accepted names: a log as it is or compressed, a camera's video finished or not, and the
      preview. */
  lemma AcceptedNames(file: string)
    ensures file in VALID_FILENAMES <==>
            || (exists log :: log in ["rlog", "qlog"] && (file == log || file == log + ".bz2" || file == log + ".zst"))
            || (exists camera :: camera in ["fcamera", "ecamera", "dcamera"] && (file == camera + ".hevc" || file == camera + ".hevc~"))
            || file == "qcamera.ts"
  {
    assert "rlog" + ".bz2" == "rlog.bz2" && "rlog" + ".zst" == "rlog.zst" && "qlog" + ".bz2" == "qlog.bz2" && "qlog" + ".zst" == "qlog.zst";
    assert "fcamera" + ".hevc" == "fcamera.hevc" && "fcamera" + ".hevc~" == "fcamera.hevc~";
    assert "ecamera" + ".hevc" == "ecamera.hevc" && "ecamera" + ".hevc~" == "ecamera.hevc~";
    assert "dcamera" + ".hevc" == "dcamera.hevc" && "dcamera" + ".hevc~" == "dcamera.hevc~";
    assert "rlog" in ["rlog", "qlog"] && "qlog" in ["rlog", "qlog"];
    assert "fcamera" in ["fcamera", "ecamera", "dcamera"] && "ecamera" in ["fcamera", "ecamera", "dcamera"];
    assert "dcamera" in ["fcamera", "ecamera", "dcamera"];
  }

  lemma RlogNames(file: string)
    requires file in {"rlog", "rlog.bz2", "rlog.zst"}
    ensures Stem(file) == "rlog"
  {
    StemOf("rlog", "bz2");
    assert "rlog" + "." + "bz2" == "rlog.bz2";
    StemOf("rlog", "zst");
    assert "rlog" + "." + "zst" == "rlog.zst";
  }

  lemma RlogFlag(file: string)
    requires file in {"rlog", "rlog.bz2", "rlog.zst"}
    ensures FilenameToFlag(file) == Some(Rlog)
  {}

  lemma QlogNames(file: string)
    requires file in {"qlog", "qlog.bz2", "qlog.zst"}
    ensures Stem(file) == "qlog"
  {
    StemOf("qlog", "bz2");
    assert "qlog" + "." + "bz2" == "qlog.bz2";
    StemOf("qlog", "zst");
    assert "qlog" + "." + "zst" == "qlog.zst";
  }

  lemma QlogFlag(file: string)
    requires file in {"qlog", "qlog.bz2", "qlog.zst"}
    ensures FilenameToFlag(file) == Some(Qlog)
  {}

  lemma FcameraNames(file: string)
    requires file in {"fcamera.hevc", "fcamera.hevc~"}
    ensures Stem(file) == "fcamera"
  {
    if file == "fcamera.hevc" {
      StemOf("fcamera", "hevc");
      assert "fcamera" + "." + "hevc" == "fcamera.hevc";
    } else {
      StemOf("fcamera", "hevc~");
      assert "fcamera" + "." + "hevc~" == "fcamera.hevc~";
    }
  }

  lemma FcameraFlag(file: string)
    requires file in {"fcamera.hevc", "fcamera.hevc~"}
    ensures FilenameToFlag(file) == Some(Fcamera)
  {}

  lemma EcameraNames(file: string)
    requires file in {"ecamera.hevc", "ecamera.hevc~"}
    ensures Stem(file) == "ecamera"
  {
    if file == "ecamera.hevc" {
      StemOf("ecamera", "hevc");
      assert "ecamera" + "." + "hevc" == "ecamera.hevc";
    } else {
      StemOf("ecamera", "hevc~");
      assert "ecamera" + "." + "hevc~" == "ecamera.hevc~";
    }
  }

  lemma EcameraFlag(file: string)
    requires file in {"ecamera.hevc", "ecamera.hevc~"}
    ensures FilenameToFlag(file) == Some(Ecamera)
  {}

  lemma DcameraNames(file: string)
    requires file in {"dcamera.hevc", "dcamera.hevc~"}
    ensures Stem(file) == "dcamera"
  {
    if file == "dcamera.hevc" {
      StemOf("dcamera", "hevc");
      assert "dcamera" + "." + "hevc" == "dcamera.hevc";
    } else {
      StemOf("dcamera", "hevc~");
      assert "dcamera" + "." + "hevc~" == "dcamera.hevc~";
    }
  }

  lemma DcameraFlag(file: string)
    requires file in {"dcamera.hevc", "dcamera.hevc~"}
    ensures FilenameToFlag(file) == Some(Dcamera)
  {}

  lemma QcameraNames(file: string)
    requires file in {"qcamera.ts"}
    ensures Stem(file) == "qcamera"
  {
    StemOf("qcamera", "ts");
    assert "qcamera" + "." + "ts" == "qcamera.ts";
  }

  lemma QcameraFlag(file: string)
    requires file in {"qcamera.ts"}
    ensures FilenameToFlag(file) == Some(Qcamera)
  {}

  /** The file sets the column of its own name. */
  predicate OwnColumn(file: string) { FilenameToFlag(file).Some? && Column(FilenameToFlag(file).value) == Stem(file) }

  lemma LogColumn(file: string)
    requires file in {"rlog", "rlog.bz2", "rlog.zst"} || file in {"qlog", "qlog.bz2", "qlog.zst"}
    ensures OwnColumn(file)
  {
    if file in {"rlog", "rlog.bz2", "rlog.zst"} {
      RlogNames(file);
      RlogFlag(file);
    } else {
      QlogNames(file);
      QlogFlag(file);
    }
  }

  lemma CameraColumn(file: string)
    requires file in {"fcamera.hevc", "fcamera.hevc~"} || file in {"ecamera.hevc", "ecamera.hevc~"}
             || file in {"dcamera.hevc", "dcamera.hevc~"} || file in {"qcamera.ts"}
    ensures OwnColumn(file)
  {
    if file in {"fcamera.hevc", "fcamera.hevc~"} {
      FcameraNames(file);
      FcameraFlag(file);
    } else if file in {"ecamera.hevc", "ecamera.hevc~"} {
      EcameraNames(file);
      EcameraFlag(file);
    } else if file in {"dcamera.hevc", "dcamera.hevc~"} {
      DcameraNames(file);
      DcameraFlag(file);
    } else {
      QcameraNames(file);
      QcameraFlag(file);
    }
  }

  /** Every accepted file does. */
  lemma StemColumn(file: string)
    requires file in VALID_FILENAMES
    ensures OwnColumn(file)
  {
    if file in {"rlog", "rlog.bz2", "rlog.zst"} || file in {"qlog", "qlog.bz2", "qlog.zst"} {
      LogColumn(file);
    } else {
      CameraColumn(file);
    }
  }

  lemma ColumnsDiffer(a: Flag, b: Flag)
    ensures Column(a) == Column(b) <==> a == b
  {}

  /** So two accepted files set the same flag exactly when their names agree up to the first dot. */
  lemma SameFlagIff(a: string, b: string)
    requires a in VALID_FILENAMES && b in VALID_FILENAMES
    ensures FilenameToFlag(a) == FilenameToFlag(b) <==> Stem(a) == Stem(b)
  {
    StemColumn(a);
    StemColumn(b);
    ColumnsDiffer(FilenameToFlag(a).value, FilenameToFlag(b).value);
  }

  /** What each kind of request asks for. */
  lemma RequestedFiles(kind: string)
    ensures FilesForKind(kind) ==
            if kind == "full_video" then Some(["fcamera.hevc", "ecamera.hevc", "dcamera.hevc"])
            else if kind == "full_logs" then Some(["rlog.zst"])
            else if kind == "all" then Some(["fcamera.hevc", "ecamera.hevc", "dcamera.hevc", "rlog.zst"])
            else None
  {
    assert FULL_VIDEO_FILES + FULL_LOGS_FILES == ["fcamera.hevc", "ecamera.hevc", "dcamera.hevc", "rlog.zst"];
  }

  // ---------------------------------------------------------------- statements

  function ListSegmentsByRoute(t: Segments, id: int): Segments {
    OrderBy(Where(t, (s: Segment) => s.routeId == id), (a: Segment, b: Segment) => a.number < b.number)
  }

  predicate HasSegment(t: Segments, id: int, n: int) {
    exists i :: 0 <= i < |t| && t[i].routeId == id && t[i].number == n
  }

  function CreateSegmentIfNotExists(t: Segments, id: int, n: int): Segments {
    if HasSegment(t, id, n) then t else t + [Segment(id, n, {})]
  }

  function Flagged(s: Segment, id: int, n: int, flag: Flag): Segment {
    if s.routeId == id && s.number == n then s.(uploaded := s.uploaded + {flag}) else s
  }

  function UpdateSegmentUpload(t: Segments, id: int, n: int, flag: Flag): Segments {
    Map(t, (s: Segment) => Flagged(s, id, n, flag))
  }

  function TrackFlag(t: Segments, id: int, n: int, flag: Option<Flag>): Segments {
    var created := CreateSegmentIfNotExists(t, id, n);
    if flag.Some? then UpdateSegmentUpload(created, id, n, flag.value) else created
  }

  /** The routes and segments tables; nextId is the id sequence of routes. */
  datatype Db = Db(routes: map<(string, string), int>, nextId: int, segments: Segments)

  function GetOrCreateRoute(db: Db, dongle: string, route: string): Db {
    if (dongle, route) in db.routes then db
    else db.(routes := db.routes[(dongle, route) := db.nextId], nextId := db.nextId + 1)
  }

  /** trackUpload once the segment number is parsed. */
  function TrackNumber(db: Db, dongle: string, route: string, n: int, flag: Option<Flag>): (r: Db)
    ensures forall k :: k in db.routes ==> k in r.routes && r.routes[k] == db.routes[k]
  {
    var found := GetOrCreateRoute(db, dongle, route);
    found.(segments := TrackFlag(found.segments, found.routes[(dongle, route)], Int32(n), flag))
  }

  /** The tables after a file has been stored for a PUT. Known routes keep their ids. */
  function TrackPut(db: Db, dongle: string, put: Put): (r: Db)
    ensures forall k :: k in db.routes ==> k in r.routes && r.routes[k] == db.routes[k]
  {
    match put
    case SegmentFile(t) =>
      var n := Atoi(t.segment);
      if n.None? then db else TrackNumber(db, dongle, t.route, n.value, FilenameToFlag(t.filename))
    case _ => db
  }

  function AfterPut(db: Db, dongle: string, filePath: string): (r: Db)
    ensures forall k :: k in db.routes ==> k in r.routes && r.routes[k] == db.routes[k]
  { TrackPut(db, dongle, RoutePut(filePath)) }

  // ---------------------------------------------------------------- items

  /** The files of one segment still to be uploaded. */
  function MissingOf(seg: Segment, wanted: seq<string>): seq<(int, string)> {
    if wanted == [] then []
    else
      var file := wanted[|wanted| - 1];
      MissingOf(seg, wanted[..|wanted| - 1]) + if SegmentHasFile(seg, file) then [] else [(seg.number, file)]
  }

  function Missing(segments: Segments, wanted: seq<string>): seq<(int, string)> {
    if segments == [] then []
    else Missing(segments[..|segments| - 1], wanted) + MissingOf(segments[|segments| - 1], wanted)
  }

  function UploadedOf(seg: Segment, wanted: seq<string>): nat {
    if wanted == [] then 0
    else UploadedOf(seg, wanted[..|wanted| - 1]) + if SegmentHasFile(seg, wanted[|wanted| - 1]) then 1 else 0
  }

  function Uploaded(segments: Segments, wanted: seq<string>): nat {
    if segments == [] then 0
    else Uploaded(segments[..|segments| - 1], wanted) + UploadedOf(segments[|segments| - 1], wanted)
  }

  /** What the device is sent: where to PUT a file, and its name on the device. */
  datatype Item = Item(put: string, path: string)

  function Mint(route: string, missing: (int, string)): Item {
    var (n, file) := missing;
    Item(SegmentPath(route, Itoa(n), file), DevicePath(route, Itoa(n), file))
  }

  function MintAll(route: string, missing: seq<(int, string)>): seq<Item> {
    if missing == [] then [] else MintAll(route, missing[..|missing| - 1]) + [Mint(route, missing[|missing| - 1])]
  }

  lemma {:induction false} MintAllCount(route: string, missing: seq<(int, string)>)
    ensures |MintAll(route, missing)| == |missing|
  {
    if missing != [] { MintAllCount(route, missing[..|missing| - 1]); }
  }

  /** Each item is a PUT to the file's own address and the device's own name of the file. */
  lemma {:induction false} MintedAre(route: string, missing: seq<(int, string)>)
    ensures var items := MintAll(route, missing);
            |items| == |missing| && forall i :: 0 <= i < |items| ==>
              var (n, file) := missing[i];
              items[i].put == route + "/" + Itoa(n) + "/" + file && items[i].path == route + "--" + Itoa(n) + "/" + file
  {
    if missing != [] { MintedAre(route, missing[..|missing| - 1]); }
  }

  lemma MintMore(route: string, missing: seq<(int, string)>, m: (int, string))
    ensures MintAll(route, missing + [m]) == MintAll(route, missing) + [Mint(route, m)]
  {
    assert (missing + [m])[..|missing|] == missing;
  }

  /** One item for each missing file, segment by segment. */
  method BuildUploadItems(route: string, segments: Segments, wanted: seq<string>) returns (items: seq<Item>)
    ensures items == MintAll(route, Missing(segments, wanted))
    ensures |items| == |Missing(segments, wanted)| && forall i :: 0 <= i < |items| ==>
              var (n, file) := Missing(segments, wanted)[i];
              items[i].put == route + "/" + Itoa(n) + "/" + file && items[i].path == route + "--" + Itoa(n) + "/" + file
  {
    items := [];
    ghost var missing: seq<(int, string)> := [];
    for i := 0 to |segments|
      invariant missing == Missing(segments[..i], wanted) && items == MintAll(route, missing)
    {
      ghost var before := missing;
      var seg := segments[i];
      for j := 0 to |wanted|
        invariant missing == before + MissingOf(seg, wanted[..j]) && items == MintAll(route, missing)
      {
        assert wanted[..j + 1][..j] == wanted[..j];
        if !SegmentHasFile(seg, wanted[j]) {
          MintMore(route, missing, (seg.number, wanted[j]));
          missing := missing + [(seg.number, wanted[j])];
          items := items + [Mint(route, (seg.number, wanted[j]))];
        }
      }
      assert wanted[..|wanted|] == wanted;
      assert segments[..i + 1][..i] == segments[..i];
    }
    assert segments[..|segments|] == segments;
    MintedAre(route, Missing(segments, wanted));
  }

  /** Counts the uploaded ones, and none for an unknown kind. */
  method CountUploadedForKind(segments: Segments, kind: string) returns (n: nat)
    ensures n == if FilesForKind(kind).None? then 0 else Uploaded(segments, FilesForKind(kind).value)
  {
    if FilesForKind(kind).None? { return 0; }
    var wanted := FilesForKind(kind).value;
    n := 0;
    for i := 0 to |segments|
      invariant n == Uploaded(segments[..i], wanted)
    {
      assert segments[..i + 1][..i] == segments[..i];
      for j := 0 to |wanted|
        invariant n == Uploaded(segments[..i], wanted) + UploadedOf(segments[i], wanted[..j])
      {
        assert wanted[..j + 1][..j] == wanted[..j];
        if SegmentHasFile(segments[i], wanted[j]) { n := n + 1; }
      }
      assert wanted[..|wanted|] == wanted;
    }
    assert segments[..|segments|] == segments;
  }

  lemma {:induction false} CountsOf(seg: Segment, wanted: seq<string>)
    ensures |MissingOf(seg, wanted)| + UploadedOf(seg, wanted) == |wanted|
    decreases |wanted|
  {
    if wanted != [] { CountsOf(seg, wanted[..|wanted| - 1]); }
  }

  /** Minted and uploaded add up to the segments times the wanted files. */
  lemma {:induction false} CountsConserved(segments: Segments, wanted: seq<string>)
    ensures |Missing(segments, wanted)| + Uploaded(segments, wanted) == |segments| * |wanted|
    decreases |segments|
  {
    if segments != [] {
      CountsConserved(segments[..|segments| - 1], wanted);
      CountsOf(segments[|segments| - 1], wanted);
      assert |segments| * |wanted| == (|segments| - 1) * |wanted| + |wanted|;
    }
  }

  // ---------------------------------------------------------------- one upload

  lemma {:induction false} MissingOfHas(seg: Segment, wanted: seq<string>, m: (int, string))
    ensures m in MissingOf(seg, wanted) <==> m.0 == seg.number && m.1 in wanted && !SegmentHasFile(seg, m.1)
    decreases |wanted|
  {
    if wanted != [] {
      MissingOfHas(seg, wanted[..|wanted| - 1], m);
      assert wanted == wanted[..|wanted| - 1] + [wanted[|wanted| - 1]];
    }
  }

  lemma {:induction false} MissingHas(segments: Segments, wanted: seq<string>, m: (int, string))
    ensures m in Missing(segments, wanted) <==>
            exists s :: s in segments && s.number == m.0 && m.1 in wanted && !SegmentHasFile(s, m.1)
    decreases |segments|
  {
    if segments != [] {
      var last := segments[|segments| - 1];
      MissingHas(segments[..|segments| - 1], wanted, m);
      MissingOfHas(last, wanted, m);
      assert segments == segments[..|segments| - 1] + [last];
    }
  }

  /** Segment t is segment s with these files as well if it is segment n, and otherwise the same. */
  ghost predicate Gains(s: Segment, t: Segment, n: int, files: set<string>, wanted: seq<string>) {
    && t.number == s.number
    && forall i :: 0 <= i < |wanted| ==>
         (SegmentHasFile(t, wanted[i]) <==> SegmentHasFile(s, wanted[i]) || (s.number == n && wanted[i] in files))
  }

  /** The wanted files that an upload of this file makes present: those tested by the flag it sets. */
  function SameFlag(file: string, wanted: seq<string>): set<string> {
    set w | w in wanted && FilenameToFlag(w) == FilenameToFlag(file)
  }

  /** Setting the flag of a file is gaining the wanted files with that flag and no other. */
  lemma FlagGains(seg: Segment, id: int, n: int, file: string, wanted: seq<string>)
    requires seg.routeId == id && Trackable(wanted) && FilenameToFlag(file).Some?
    ensures Gains(seg, Flagged(seg, id, n, FilenameToFlag(file).value), n, SameFlag(file, wanted), wanted)
  {
    var flag := FilenameToFlag(file).value;
    var t := Flagged(seg, id, n, flag);
    forall i | 0 <= i < |wanted|
      ensures SegmentHasFile(t, wanted[i]) <==>
              SegmentHasFile(seg, wanted[i]) || (seg.number == n && wanted[i] in SameFlag(file, wanted))
    {
      assert TestedByOwnFlag(wanted[i]);
      var own := FilenameToFlag(wanted[i]).value;
      assert wanted[i] in SameFlag(file, wanted) <==> own == flag;
      assert own in t.uploaded <==> own in seg.uploaded || (seg.number == n && own == flag);
    }
  }

  lemma {:induction false} MissingOfAfter(s: Segment, t: Segment, wanted: seq<string>, n: int, files: set<string>)
    requires Gains(s, t, n, files, wanted)
    ensures MissingOf(t, wanted) == Where(MissingOf(s, wanted), (o: (int, string)) => !(o.0 == n && o.1 in files))
    decreases |wanted|
  {
    if wanted != [] {
      var last, rest := wanted[|wanted| - 1], wanted[..|wanted| - 1];
      var others := (o: (int, string)) => !(o.0 == n && o.1 in files);
      assert forall i :: 0 <= i < |rest| ==> rest[i] == wanted[i];
      MissingOfAfter(s, t, rest, n, files);
      WhereConcat(MissingOf(s, rest), if SegmentHasFile(s, last) then [] else [(s.number, last)], others);
      WhereCons((s.number, last), [], others);
    }
  }

  lemma {:induction false} MissingAfter(segments: Segments, after: Segments, wanted: seq<string>, n: int, files: set<string>)
    requires |after| == |segments| && forall i :: 0 <= i < |segments| ==> Gains(segments[i], after[i], n, files, wanted)
    ensures Missing(after, wanted) == Where(Missing(segments, wanted), (o: (int, string)) => !(o.0 == n && o.1 in files))
    decreases |segments|
  {
    if segments != [] {
      var k := |segments| - 1;
      MissingAfter(segments[..k], after[..k], wanted, n, files);
      MissingOfAfter(segments[k], after[k], wanted, n, files);
      WhereConcat(Missing(segments[..k], wanted), MissingOf(segments[k], wanted),
                  (o: (int, string)) => !(o.0 == n && o.1 in files));
    }
  }

  lemma ListingIs(t: Segments, id: int)
    ensures forall s :: s in ListSegmentsByRoute(t, id) <==> s in t && s.routeId == id
  {
    var own := (s: Segment) => s.routeId == id;
    forall s ensures s in ListSegmentsByRoute(t, id) <==> s in t && s.routeId == id {
      SameRows(ListSegmentsByRoute(t, id), Where(t, own), s);
      WhereHas(t, own, s);
    }
  }

  lemma ListingAfter(t: Segments, id: int, n: int, flag: Flag)
    ensures ListSegmentsByRoute(UpdateSegmentUpload(t, id, n, flag), id) ==
            Map(ListSegmentsByRoute(t, id), (s: Segment) => Flagged(s, id, n, flag))
  {
    var f := (s: Segment) => Flagged(s, id, n, flag);
    MapWhere(t, (s: Segment) => s.routeId == id, f);
    MapOrderBy(Where(t, (s: Segment) => s.routeId == id), (a: Segment, b: Segment) => a.number < b.number, f);
  }

  // ---------------------------------------------------------------- the closed loop

  /** A route whose items parse back: known, with a plain name and int32 segment numbers from 0. */
  ghost predicate PlainRoute(db: Db, dongle: string, route: string) {
    && (dongle, route) in db.routes
    && route != "" && '/' !in route && route != "boot"
    && forall s :: s in db.segments && s.routeId == db.routes[(dongle, route)] ==> 0 <= s.number < 0x8000_0000
  }

  function MissingIn(db: Db, dongle: string, route: string, wanted: seq<string>): seq<(int, string)>
    requires (dongle, route) in db.routes
  {
    Missing(ListSegmentsByRoute(db.segments, db.routes[(dongle, route)]), wanted)
  }

  /** The upload makes this missing file present: same segment, and the same name up to its first dot. */
  predicate Covers(put: (int, string), missing: (int, string)) { put.0 == missing.0 && Stem(put.1) == Stem(missing.1) }

  lemma AcceptedFilesHaveFlags(file: string)
    requires file in VALID_FILENAMES
    ensures file != "" && FilenameToFlag(file).Some?
  {}

  /** A PUT of any accepted file to a segment the route has leaves to mint exactly the items it does
      not make present, whether it has a requested name or another name of the same file. */
  lemma PutRemovesCovered(db: Db, dongle: string, route: string, wanted: seq<string>, m: (int, string))
    requires PlainRoute(db, dongle, route) && Trackable(wanted) && m.1 in VALID_FILENAMES
    requires HasSegment(db.segments, db.routes[(dongle, route)], m.0)
    ensures var after := AfterPut(db, dongle, Mint(route, m).put);
            && PlainRoute(after, dongle, route) && after.routes == db.routes
            && (forall n :: HasSegment(after.segments, db.routes[(dongle, route)], n) <==>
                            HasSegment(db.segments, db.routes[(dongle, route)], n))
            && |ListSegmentsByRoute(after.segments, db.routes[(dongle, route)])|
               == |ListSegmentsByRoute(db.segments, db.routes[(dongle, route)])|
            && MissingIn(after, dongle, route, wanted) == Where(MissingIn(db, dongle, route, wanted), o => !Covers(m, o))
  {
    var id, n, file := db.routes[(dongle, route)], m.0, m.1;
    AcceptedFilesHaveFlags(file);
    var flag := FilenameToFlag(file).value;
    var segments := ListSegmentsByRoute(db.segments, id);
    var after := Map(segments, (s: Segment) => Flagged(s, id, n, flag));
    PutTracks(db, dongle, route, n, file);
    KeepsSegments(db.segments, id, n, flag);
    ListingAfter(db.segments, id, n, flag);
    ListingIs(db.segments, id);
    forall i | 0 <= i < |segments| ensures Gains(segments[i], after[i], n, SameFlag(file, wanted), wanted) {
      assert segments[i] in segments;
      FlagGains(segments[i], id, n, file, wanted);
    }
    MissingAfter(segments, after, wanted, n, SameFlag(file, wanted));
    forall o | o in Missing(segments, wanted)
      ensures !(o.0 == n && o.1 in SameFlag(file, wanted)) <==> !Covers(m, o)
    {
      MissingHas(segments, wanted, o);
      assert TestedByOwnFlag(o.1);
      SameFlagIff(file, o.1);
    }
    WhereSame(Missing(segments, wanted), (o: (int, string)) => !(o.0 == n && o.1 in SameFlag(file, wanted)), o => !Covers(m, o));
  }

  /** A PUT to a minted address sets exactly the flag the minting tests: afterwards the very same
      items are minted except this one. */
  lemma PutRemovesItsItem(db: Db, dongle: string, route: string, wanted: seq<string>, m: (int, string))
    requires PlainRoute(db, dongle, route) && Trackable(wanted) && m in MissingIn(db, dongle, route, wanted)
    ensures var after := AfterPut(db, dongle, Mint(route, m).put);
            after.routes == db.routes
            && MissingIn(after, dongle, route, wanted) == Where(MissingIn(db, dongle, route, wanted), o => o != m)
  {
    MissingIsListed(db, dongle, route, wanted);
    assert TestedByOwnFlag(m.1);
    PutRemovesCovered(db, dongle, route, wanted, m);
    forall o | o in MissingIn(db, dongle, route, wanted) ensures !Covers(m, o) <==> o != m {
      DistinctFlags(wanted, m.1, o.1);
    }
    WhereSame(MissingIn(db, dongle, route, wanted), o => !Covers(m, o), o => o != m);
  }

  lemma DistinctFlags(wanted: seq<string>, a: string, b: string)
    requires Trackable(wanted) && a in wanted && b in wanted
    ensures FilenameToFlag(a) == FilenameToFlag(b) || Stem(a) == Stem(b) ==> a == b
  {
    assert TestedByOwnFlag(a) && TestedByOwnFlag(b);
    SameFlagIff(a, b);
    var i :| 0 <= i < |wanted| && wanted[i] == a;
    var j :| 0 <= j < |wanted| && wanted[j] == b;
    if i < j { assert FilenameToFlag(wanted[i]) != FilenameToFlag(wanted[j]); }
    if j < i { assert FilenameToFlag(wanted[j]) != FilenameToFlag(wanted[i]); }
  }

  lemma PutTracks(db: Db, dongle: string, route: string, n: int, file: string)
    requires PlainRoute(db, dongle, route) && file in VALID_FILENAMES && FilenameToFlag(file).Some? && file != ""
    requires HasSegment(db.segments, db.routes[(dongle, route)], n)
    ensures AfterPut(db, dongle, Mint(route, (n, file)).put) ==
            db.(segments := UpdateSegmentUpload(db.segments, db.routes[(dongle, route)], n, FilenameToFlag(file).value))
  {
    PutReachesSegmentIff(route, n, file);
    PutParses(db, dongle, route, n, file);
    TrackKnown(db, dongle, route, n, FilenameToFlag(file).value);
  }

  lemma PutParses(db: Db, dongle: string, route: string, n: int, file: string)
    requires 0 <= n <= MAX_INT64
    ensures TrackPut(db, dongle, SegmentFile(Target(route, Itoa(n), file))) ==
            TrackNumber(db, dongle, route, n, FilenameToFlag(file))
  {
    AtoiItoa(n);
  }

  lemma TrackKnown(db: Db, dongle: string, route: string, n: int, flag: Flag)
    requires (dongle, route) in db.routes && 0 <= n < 0x8000_0000
    requires HasSegment(db.segments, db.routes[(dongle, route)], n)
    ensures TrackNumber(db, dongle, route, n, Some(flag)) ==
            db.(segments := UpdateSegmentUpload(db.segments, db.routes[(dongle, route)], n, flag))
  {}

  lemma KeepsSegments(t: Segments, id: int, n: int, flag: Flag)
    ensures var after := UpdateSegmentUpload(t, id, n, flag);
            && (forall k, o :: HasSegment(after, k, o) <==> HasSegment(t, k, o))
            && (forall s :: s in after ==> HasSegment(t, s.routeId, s.number))
  {
    var after := UpdateSegmentUpload(t, id, n, flag);
    assert forall i :: 0 <= i < |t| ==> after[i].routeId == t[i].routeId && after[i].number == t[i].number;
  }

  function AfterPuts(db: Db, dongle: string, route: string, puts: seq<(int, string)>): (r: Db)
    ensures forall k :: k in db.routes ==> k in r.routes && r.routes[k] == db.routes[k]
    decreases puts
  {
    if puts == [] then db else AfterPuts(AfterPut(db, dongle, Mint(route, puts[0]).put), dongle, route, puts[1..])
  }

  lemma {:induction false} AfterPutsMore(db: Db, dongle: string, route: string, puts: seq<(int, string)>, i: nat)
    requires i < |puts|
    ensures AfterPuts(db, dongle, route, puts[..i + 1]) ==
            AfterPut(AfterPuts(db, dongle, route, puts[..i]), dongle, Mint(route, puts[i]).put)
    decreases i
  {
    if i > 0 {
      AfterPutsMore(AfterPut(db, dongle, Mint(route, puts[0]).put), dongle, route, puts[1..], i - 1);
      assert puts[1..][..i] == puts[..i + 1][1..] && puts[1..][..i - 1] == puts[..i][1..];
    } else {
      assert puts[..1][1..] == [] == puts[..0];
    }
  }

  /** Some upload makes this missing file present. */
  predicate CoveredBy(puts: seq<(int, string)>, missing: (int, string)) {
    exists i :: 0 <= i < |puts| && Covers(puts[i], missing)
  }

  /** PUTs of accepted files to segments the route has. */
  ghost predicate LegalPuts(db: Db, dongle: string, route: string, puts: seq<(int, string)>)
    requires (dongle, route) in db.routes
  {
    forall i :: 0 <= i < |puts| ==>
      puts[i].1 in VALID_FILENAMES && HasSegment(db.segments, db.routes[(dongle, route)], puts[i].0)
  }

  /** Any uploads of accepted files to the route's segments, wanted or not, under whatever names, in
      any order and however often, leave exactly the items none of them makes present. */
  lemma {:induction false} PutsLeaveOthers(db: Db, dongle: string, route: string, wanted: seq<string>, puts: seq<(int, string)>)
    requires PlainRoute(db, dongle, route) && Trackable(wanted) && LegalPuts(db, dongle, route, puts)
    ensures var after := AfterPuts(db, dongle, route, puts);
            && after.routes == db.routes
            && |ListSegmentsByRoute(after.segments, db.routes[(dongle, route)])|
               == |ListSegmentsByRoute(db.segments, db.routes[(dongle, route)])|
            && MissingIn(after, dongle, route, wanted) == Where(MissingIn(db, dongle, route, wanted), o => !CoveredBy(puts, o))
    decreases puts
  {
    var before := MissingIn(db, dongle, route, wanted);
    if puts == [] {
      WhereAll(before, o => !CoveredBy(puts, o));
    } else {
      var next := AfterPut(db, dongle, Mint(route, puts[0]).put);
      PutRemovesCovered(db, dongle, route, wanted, puts[0]);
      assert LegalPuts(next, dongle, route, puts[1..]);
      PutsLeaveOthers(next, dongle, route, wanted, puts[1..]);
      forall o ensures !CoveredBy(puts, o) <==> !Covers(puts[0], o) && !CoveredBy(puts[1..], o) {
        CoveredByFirst(puts, o);
      }
      WhereTwice(before, o => !Covers(puts[0], o), o => !CoveredBy(puts[1..], o), o => !CoveredBy(puts, o));
    }
  }

  lemma CoveredByFirst(puts: seq<(int, string)>, o: (int, string))
    requires puts != []
    ensures CoveredBy(puts, o) <==> Covers(puts[0], o) || CoveredBy(puts[1..], o)
  {
    if CoveredBy(puts[1..], o) {
      var i :| 0 <= i < |puts| - 1 && Covers(puts[1..][i], o);
      assert Covers(puts[i + 1], o);
    }
    if i :| 0 < i < |puts| && Covers(puts[i], o) {
      assert Covers(puts[1..][i - 1], o);
    }
  }

  lemma MissingIsListed(db: Db, dongle: string, route: string, wanted: seq<string>)
    requires (dongle, route) in db.routes
    ensures forall m :: m in MissingIn(db, dongle, route, wanted) ==>
              m.1 in wanted && HasSegment(db.segments, db.routes[(dongle, route)], m.0)
  {
    var id := db.routes[(dongle, route)];
    ListingIs(db.segments, id);
    forall m | m in MissingIn(db, dongle, route, wanted)
      ensures m.1 in wanted && HasSegment(db.segments, id, m.0)
    {
      MissingHas(ListSegmentsByRoute(db.segments, id), wanted, m);
      var s :| s in ListSegmentsByRoute(db.segments, id) && s.number == m.0;
      assert s in db.segments;
    }
  }

  /** Uploading everything that was minted leaves nothing to mint. */
  lemma AllPutsLeaveNone(db: Db, dongle: string, route: string, kind: string)
    requires PlainRoute(db, dongle, route) && FilesForKind(kind).Some?
    ensures var wanted := FilesForKind(kind).value;
            MissingIn(AfterPuts(db, dongle, route, MissingIn(db, dongle, route, wanted)), dongle, route, wanted) == []
  {
    var wanted := FilesForKind(kind).value;
    var all := MissingIn(db, dongle, route, wanted);
    KindsAreTrackable(kind);
    MissingIsListed(db, dongle, route, wanted);
    forall i | 0 <= i < |all| ensures all[i].1 in VALID_FILENAMES && HasSegment(db.segments, db.routes[(dongle, route)], all[i].0) {
      assert all[i] in all && TestedByOwnFlag(all[i].1);
    }
    PutsLeaveOthers(db, dongle, route, wanted, all);
    forall o | o in all ensures CoveredBy(all, o) {
      var i :| 0 <= i < |all| && all[i] == o;
      assert Covers(all[i], o);
    }
    WhereNone(all, o => !CoveredBy(all, o));
  }

  // ---------------------------------------------------------------- wide segment numbers

  predicate FlagSet(t: Segments, id: int, n: int, flag: Flag) {
    exists i :: 0 <= i < |t| && t[i].routeId == id && t[i].number == n && flag in t[i].uploaded
  }

  lemma TrackSetsFlag(t: Segments, id: int, n: int, flag: Flag)
    ensures var after := TrackFlag(t, id, n, Some(flag));
            && FlagSet(after, id, n, flag)
            && forall s :: s in after && !(s.routeId == id && s.number == n) <==> s in t && !(s.routeId == id && s.number == n)
  {
    var created := CreateSegmentIfNotExists(t, id, n);
    var after := TrackFlag(t, id, n, Some(flag));
    assert HasSegment(created, id, n) by {
      if !HasSegment(t, id, n) { assert created[|t|] == Segment(id, n, {}); }
    }
    var i :| 0 <= i < |created| && created[i].routeId == id && created[i].number == n;
    assert after[i] == Flagged(created[i], id, n, flag);
    forall s: Segment | s.routeId != id || s.number != n ensures s in after <==> s in t {
      if s in t {
        var j :| 0 <= j < |t| && t[j] == s;
        assert after[j] == s;
      }
      if s in after {
        var j :| 0 <= j < |after| && after[j] == s;
        assert created[j] == s;
      }
    }
  }

  lemma TrackFlagSets(t: Segments, id: int, n: int, flag: Option<Flag>, k: int, m: int, g: Flag)
    ensures FlagSet(TrackFlag(t, id, n, flag), k, m, g) <==>
            FlagSet(t, k, m, g) || (flag == Some(g) && k == id && m == n)
  {
    var created := CreateSegmentIfNotExists(t, id, n);
    var after := TrackFlag(t, id, n, flag);
    assert forall i :: 0 <= i < |t| ==> created[i] == t[i];
    assert forall i :: 0 <= i < |created| ==>
      after[i] == if flag.Some? then Flagged(created[i], id, n, flag.value) else created[i];
    if i :| 0 <= i < |t| && t[i].routeId == k && t[i].number == m && g in t[i].uploaded {
      assert after[i].routeId == k && after[i].number == m && g in after[i].uploaded;
    }
    if flag == Some(g) && k == id && m == n { TrackSetsFlag(t, id, n, g); }
  }

  /** Below 2^31 the row whose flag is set is the one named; from there on it is another. */
  lemma WideFlag(t: Segments, id: int, n: int, flag: Flag)
    requires 0 <= n && forall s :: s in t && s.routeId == id ==> 0 <= s.number < 0x8000_0000
    ensures FlagSet(TrackFlag(t, id, Int32(n), Some(flag)), id, n, flag) <==> n < 0x8000_0000
  {
    TrackFlagSets(t, id, Int32(n), Some(flag), id, n, flag);
    assert forall i :: 0 <= i < |t| ==> t[i] in t;
  }

  /** The rows a PUT of an accepted file to a known route leaves. */
  lemma PutSegments(db: Db, dongle: string, route: string, n: int, file: string)
    requires PlainRoute(db, dongle, route) && 0 <= n <= MAX_INT64 && file in VALID_FILENAMES
    ensures FilenameToFlag(file).Some?
    ensures AfterPut(db, dongle, SegmentPath(route, Itoa(n), file)).segments ==
            TrackFlag(db.segments, db.routes[(dongle, route)], Int32(n), Some(FilenameToFlag(file).value))
  {
    AcceptedFilesHaveFlags(file);
    PutReachesSegmentIff(route, n, file);
    PutParses(db, dongle, route, n, file);
  }

  /** The segment number in a path is parsed as 64 bits wide and stored in 32. The PUT of a file sets
      its flag on the segment that the low 32 bits name and touches no other; that is the segment in
      the path if and only if the number is below 2^31. */
  lemma PutTracksOwnSegmentIff(db: Db, dongle: string, route: string, n: int, file: string)
    requires PlainRoute(db, dongle, route) && 0 <= n <= MAX_INT64 && file in VALID_FILENAMES
    ensures FilenameToFlag(file).Some?
    ensures var (id, flag) := (db.routes[(dongle, route)], FilenameToFlag(file).value);
            var after := AfterPut(db, dongle, SegmentPath(route, Itoa(n), file)).segments;
            && FlagSet(after, id, Int32(n), flag)
            && (forall s :: s in after && !(s.routeId == id && s.number == Int32(n)) <==>
                            s in db.segments && !(s.routeId == id && s.number == Int32(n)))
            && (FlagSet(after, id, n, flag) <==> n < 0x8000_0000)
  {
    PutSegments(db, dongle, route, n, file);
    TrackSetsFlag(db.segments, db.routes[(dongle, route)], Int32(n), FilenameToFlag(file).value);
    WideFlag(db.segments, db.routes[(dongle, route)], n, FilenameToFlag(file).value);
  }

  /** A PUT for segment 2^32 marks the file of segment 0 as uploaded. */
  lemma WidePutMarksSegmentZero(db: Db, dongle: string, route: string, file: string)
    requires route != "" && '/' !in route && route != "boot" && file in VALID_FILENAMES
    ensures AfterPut(db, dongle, SegmentPath(route, Itoa(0x1_0000_0000), file)) ==
            AfterPut(db, dongle, SegmentPath(route, Itoa(0), file))
  {
    AcceptedFilesHaveFlags(file);
    PutReachesSegmentIff(route, 0x1_0000_0000, file);
    PutParses(db, dongle, route, 0x1_0000_0000, file);
    PutReachesSegmentIff(route, 0, file);
    PutParses(db, dongle, route, 0, file);
    assert Int32(0x1_0000_0000) == Int32(0) == 0;
  }
}
