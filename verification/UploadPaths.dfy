/**
  Upload paths and their signatures (internal/api/upload.go: parsePath, parseBootPath, parseUploadPath,
  UploadFile, BuildSegmentUploadURLAt; internal/api/upload_signature.go).
*/
module UploadPaths {
  import opened Common
  import opened Decimal

  // ---------------------------------------------------------------- strings

  /** strings.IndexByte, with the length for "absent". */
  function IndexOf(s: string, c: char): (i: nat)
    ensures i <= |s| && (i < |s| ==> s[i] == c) && (forall j :: 0 <= j < i ==> s[j] != c)
  {
    if s == "" || s[0] == c then 0 else 1 + IndexOf(s[1..], c)
  }

  /** strings.SplitN(s, "/", n) */
  function SplitN(s: string, n: nat): seq<string>
    decreases n
  {
    if n == 0 then []
    else if n == 1 || IndexOf(s, '/') == |s| then [s]
    else [s[..IndexOf(s, '/')]] + SplitN(s[IndexOf(s, '/') + 1..], n - 1)
  }

  /** strings.LastIndex(s, "--") */
  function LastDashes(s: string): (r: Option<nat>)
    ensures r.Some? ==> r.value + 2 <= |s|
  {
    if |s| < 2 then None
    else if s[|s| - 2..] == "--" then Some(|s| - 2)
    else LastDashes(s[..|s| - 1])
  }

  predicate HasPrefix(s: string, p: string) { |p| <= |s| && s[..|p|] == p }

  predicate HasSuffix(s: string, p: string) { |p| <= |s| && s[|s| - |p|..] == p }

  predicate Contains(s: string, p: string) { exists i :: 0 <= i <= |s| && HasPrefix(s[i..], p) }

  lemma {:induction false} IndexOfFirst(a: string, c: char, b: string)
    requires c !in a
    ensures IndexOf(a + [c] + b, c) == |a|
  {
    if a == "" {
      assert (a + [c] + b)[0] == c;
    } else {
      assert (a + [c] + b)[1..] == a[1..] + [c] + b;
      IndexOfFirst(a[1..], c, b);
    }
  }

  lemma SplitFirst(a: string, b: string, n: nat)
    requires '/' !in a && n >= 2
    ensures SplitN(a + "/" + b, n) == [a] + SplitN(b, n - 1)
  {
    IndexOfFirst(a, '/', b);
    assert (a + "/" + b)[..|a|] == a && (a + "/" + b)[|a| + 1..] == b;
  }

  // ---------------------------------------------------------------- parsers

  datatype Target = Target(route: string, segment: string, filename: string)

  function ParseUploadPath(path: string): Option<Target> {
    var parts := SplitN(path, 3);
    if |parts| != 3 then None
    else if parts[0] == "" || parts[1] == "" || parts[2] == "" then None
    else if Atoi(parts[1]).None? || Atoi(parts[1]).value < 0 then None
    else Some(Target(parts[0], parts[1], parts[2]))
  }

  /** Cut a route and segment apart at the last "--". */
  function CutDeviceName(name: string, filename: string): Option<Target> {
    match LastDashes(name)
    case None => None
    case Some(i) => if i == |name| - 2 || i == 0 then None else Some(Target(name[..i], name[i + 2..], filename))
  }

  function ParsePath(path: string): Option<Target> {
    var parts := SplitN(path, 2);
    if |parts| != 2 || parts[0] == "" || parts[1] == "" then None else CutDeviceName(parts[0], parts[1])
  }

  function ParseBootPath(path: string): Option<string> {
    if !HasPrefix(path, "boot/") then None
    else
      var rest := path[5..];
      if !HasSuffix(rest, ".zst") then None
      else
        var id := rest[..|rest| - 4];
        if id == "" || '/' in id || '\\' in id || Contains(id, "..") then None else Some(id)
  }

  const VALID_FILENAMES: set<string> :=
    {"rlog", "qlog", "fcamera.hevc", "ecamera.hevc", "dcamera.hevc", "qcamera.ts", "rlog.bz2", "qlog.bz2",
     "rlog.zst", "qlog.zst", "fcamera.hevc~", "ecamera.hevc~", "dcamera.hevc~"}

  /** What a PUT is for. */
  datatype Put = Refused | BootLog(id: string) | SegmentFile(target: Target)

  function SegmentPut(parsed: Option<Target>): Put {
    if parsed.Some? && parsed.value.filename in VALID_FILENAMES then SegmentFile(parsed.value) else Refused
  }

  function BootPut(parsed: Option<string>): Put {
    if parsed.Some? then BootLog(parsed.value) else Refused
  }

  /** UploadFile's reading of the path after the dongle. */
  function RoutePut(filePath: string): Put {
    if HasPrefix(filePath, "boot/") then BootPut(ParseBootPath(filePath)) else SegmentPut(ParseUploadPath(filePath))
  }

  // ---------------------------------------------------------------- builders

  /** The part of BuildSegmentUploadURLAt's path after the dongle. */
  function SegmentPath(route: string, segment: string, filename: string): string {
    route + "/" + segment + "/" + filename
  }

  /** The path of the upload endpoint for a device. */
  function UploadPath(dongle: string, filePath: string): string { "/upload/" + dongle + "/" + filePath }

  /** The name the device knows the file by. */
  function DevicePath(route: string, segment: string, filename: string): string {
    route + "--" + segment + "/" + filename
  }

  // ---------------------------------------------------------------- round trips

  lemma ItoaPlain(n: int)
    ensures '/' !in Itoa(n) && '\n' !in Itoa(n)
  {
    var s := Itoa(n);
    if n < 0 { assert s == [s[0]] + s[1..]; }
  }

  lemma SplitSegmentPath(route: string, n: int, filename: string)
    requires '/' !in route
    ensures SplitN(SegmentPath(route, Itoa(n), filename), 3) == [route, Itoa(n), filename]
  {
    var rest := Itoa(n) + "/" + filename;
    assert SegmentPath(route, Itoa(n), filename) == route + "/" + rest;
    ItoaPlain(n);
    SplitFirst(route, rest, 3);
    SplitFirst(Itoa(n), filename, 2);
  }

  lemma FirstPart(path: string, n: nat)
    requires n >= 1 && SplitN(path, n) != []
    ensures n >= 2 ==> '/' !in SplitN(path, n)[0]
  {
    if n >= 2 {
      var i := IndexOf(path, '/');
      assert forall j :: 0 <= j < i ==> path[j] != '/';
    }
  }

  /** A minted path parses back to its own route, segment and file exactly when the route is named,
      holds no slash and the segment is not negative. */
  lemma UploadPathRoundTrip(route: string, n: int, filename: string)
    requires -MAX_INT64 - 1 <= n <= MAX_INT64 && filename != ""
    ensures ParseUploadPath(SegmentPath(route, Itoa(n), filename)) == Some(Target(route, Itoa(n), filename))
            <==> route != "" && '/' !in route && n >= 0
  {
    AtoiItoa(n);
    var path := SegmentPath(route, Itoa(n), filename);
    if '/' !in route {
      SplitSegmentPath(route, n, filename);
    } else {
      FirstPart(path, 3);
    }
  }

  lemma BootPrefixIff(route: string, rest: string)
    requires '/' !in route
    ensures HasPrefix(route + "/" + rest, "boot/") <==> route == "boot"
  {
    var path := route + "/" + rest;
    if HasPrefix(path, "boot/") {
      assert path == path[..5] + path[5..] == "boot" + "/" + path[5..];
      IndexOfFirst("boot", '/', path[5..]);
      IndexOfFirst(route, '/', rest);
      assert route == path[..4] == path[..5][..4] == "boot";
    }
    if route == "boot" {
      assert path[..5] == "boot/";
    }
  }

  lemma FilenamesPlain(filename: string)
    requires filename in VALID_FILENAMES
    ensures '/' !in filename
  {}

  /** A path with a slash behind the boot prefix names no boot log. */
  lemma BootIdPlain(path: string, at: nat)
    requires 5 <= at < |path| && path[at] == '/'
    ensures ParseBootPath(path).None?
  {
    if HasPrefix(path, "boot/") && HasSuffix(path[5..], ".zst") {
      var rest := path[5..];
      forall i | |rest| - 4 <= i < |rest| ensures rest[i] != '/' {
        assert rest[i] == rest[|rest| - 4..][i - (|rest| - 4)];
      }
      assert rest[at - 5] == '/';
      assert rest[..|rest| - 4][at - 5] == '/';
    }
  }

  /** The third part of a path with three slashes has a slash in it. */
  lemma ThirdPartSlashed(path: string, first: nat, second: nat, third: nat)
    requires first < second < third < |path| && path[first] == path[second] == path[third] == '/'
    ensures |SplitN(path, 3)| == 3 && '/' in SplitN(path, 3)[2]
  {
    var i := IndexOf(path, '/');
    var rest := path[i + 1..];
    assert rest[second - i - 1] == '/' && rest[third - i - 1] == '/';
    var j := IndexOf(rest, '/');
    assert rest[j + 1..][third - i - j - 2] == '/';
  }

  /** A PUT of a minted path whose route is called "boot" or has a slash in it is refused. */
  lemma MisroutedPutRefused(route: string, n: int, filename: string)
    requires route == "boot" || '/' in route
    ensures RoutePut(SegmentPath(route, Itoa(n), filename)) == Refused
  {
    var path := SegmentPath(route, Itoa(n), filename);
    var last := |route| + 1 + |Itoa(n)|;
    assert path[|route|] == '/' && path[last] == '/';
    assert route == "boot" ==> path[..5] == "boot/";
    if HasPrefix(path, "boot/") {
      forall i | 0 <= i < 4 ensures path[i] != '/' { assert path[i] == path[..5][i]; }
      BootIdPlain(path, last);
    } else {
      var i :| 0 <= i < |route| && route[i] == '/';
      assert path[i] == '/';
      ThirdPartSlashed(path, i, |route|, last);
      var parts := SplitN(path, 3);
      if parts[2] in VALID_FILENAMES { FilenamesPlain(parts[2]); }
    }
  }

  /** A slash-free route other than "boot" leads to the parser of segment paths. */
  lemma PlainRouteSegmentPut(route: string, segment: string, filename: string)
    requires '/' !in route && route != "boot"
    ensures RoutePut(SegmentPath(route, segment, filename)) == SegmentPut(ParseUploadPath(SegmentPath(route, segment, filename)))
  {
    BootPrefixIff(route, segment + "/" + filename);
    assert SegmentPath(route, segment, filename) == route + "/" + (segment + "/" + filename);
  }

  /** The PUT of a minted path reaches its own segment file exactly when, besides, the route is not
      called "boot" and the file type is one of those accepted. */
  lemma PutReachesSegmentIff(route: string, n: int, filename: string)
    requires -MAX_INT64 - 1 <= n <= MAX_INT64 && filename != ""
    ensures RoutePut(SegmentPath(route, Itoa(n), filename)) == SegmentFile(Target(route, Itoa(n), filename))
            <==> route != "" && '/' !in route && n >= 0 && route != "boot" && filename in VALID_FILENAMES
  {
    if route == "boot" || '/' in route {
      MisroutedPutRefused(route, n, filename);
    } else {
      PlainRouteSegmentPut(route, Itoa(n), filename);
      UploadPathRoundTrip(route, n, filename);
    }
  }

  lemma {:induction false} LastDashesBefore(a: string, digits: string)
    requires AllDigits(digits)
    ensures LastDashes(a + "--" + digits) == Some(|a|)
    decreases |digits|
  {
    var s := a + "--" + digits;
    if digits == "" {
      assert s[|s| - 2..] == "--";
    } else {
      assert s[|s| - 2..][1] == digits[|digits| - 1];
      assert s[..|s| - 1] == a + "--" + digits[..|digits| - 1];
      LastDashesBefore(a, digits[..|digits| - 1]);
    }
  }

  lemma ParseDeviceName(name: string, filename: string)
    requires '/' !in name && name != "" && filename != ""
    ensures ParsePath(name + "/" + filename) == CutDeviceName(name, filename)
  {
    SplitFirst(name, filename, 2);
  }

  /** The device's name for a file parses back exactly when the route is named and slash-free and
      the segment is not negative; dashes at the end of the route do no harm. */
  lemma DevicePathRoundTrip(route: string, n: int, filename: string)
    requires filename != ""
    ensures ParsePath(DevicePath(route, Itoa(n), filename)) == Some(Target(route, Itoa(n), filename))
            <==> route != "" && '/' !in route && n >= 0
  {
    var name := route + "--" + Itoa(n);
    assert DevicePath(route, Itoa(n), filename) == name + "/" + filename;
    ItoaPlain(n);
    if '/' in route {
      FirstPart(name + "/" + filename, 2);
    } else if n >= 0 {
      LastDashesBefore(route, Itoa(n));
      ParseDeviceName(name, filename);
      assert name[..|route|] == route && name[|route| + 2..] == Itoa(n);
    } else {
      assert name == (route + "-") + "--" + Itoa(n)[1..];
      LastDashesBefore(route + "-", Itoa(n)[1..]);
      ParseDeviceName(name, filename);
      assert |name[..|route| + 1]| != |route|;
    }
  }

  /** Two dots in a row. */
  predicate DotDotAt(s: string, i: int) { 0 <= i < |s| - 1 && s[i] == '.' && s[i + 1] == '.' }

  lemma ContainsDotDot(s: string)
    ensures Contains(s, "..") <==> exists i :: DotDotAt(s, i)
  {
    forall i | DotDotAt(s, i)
      ensures HasPrefix(s[i..], "..")
    {
      assert s[i..][..2] == "..";
    }
    forall i | 0 <= i <= |s| && HasPrefix(s[i..], "..")
      ensures DotDotAt(s, i)
    {
      assert s[i..][0] == ".."[0] && s[i..][1] == ".."[1];
    }
  }

  /** A boot log's path parses back exactly when its id is plain. */
  lemma BootPathRoundTrip(id: string)
    ensures ParseBootPath("boot/" + id + ".zst") == Some(id)
            <==> id != "" && '/' !in id && '\\' !in id && forall i :: !DotDotAt(id, i)
  {
    ContainsDotDot(id);
    var path := "boot/" + id + ".zst";
    assert path[..5] == "boot/" && path[5..] == id + ".zst";
    var rest := path[5..];
    assert rest[|rest| - 4..] == ".zst" && rest[..|rest| - 4] == id;
  }

  // ---------------------------------------------------------------- signatures

  /** The message that is signed: fmt.Sprintf("PUT\n%s\n%d", urlPath, exp.Unix()). */
  function Payload(path: string, exp: int): string { "PUT\n" + path + "\n" + Itoa(exp) }

  lemma {:induction false} LastLine(a: string, b: string, x: string, y: string)
    requires '\n' !in x && '\n' !in y && a + "\n" + x == b + "\n" + y
    ensures a == b && x == y
  {
    var s := a + "\n" + x;
    assert s[|a|] == '\n' && s[|b|] == '\n';
    assert forall i :: |a| < i < |s| ==> s[i] == x[i - |a| - 1];
    assert forall i :: |b| < i < |s| ==> s[i] == y[i - |b| - 1];
    assert a == s[..|a|] && b == s[..|b|];
    assert x == s[|a| + 1..] && y == s[|b| + 1..];
  }

  /** The signed message determines the path and the expiry, whatever characters the path holds. */
  lemma PayloadInjective(p: string, e: int, q: string, f: int)
    requires -MAX_INT64 - 1 <= e <= MAX_INT64 && -MAX_INT64 - 1 <= f <= MAX_INT64
    ensures Payload(p, e) == Payload(q, f) ==> p == q && e == f
  {
    if Payload(p, e) == Payload(q, f) {
      ItoaPlain(e);
      ItoaPlain(f);
      LastLine("PUT\n" + p, "PUT\n" + q, Itoa(e), Itoa(f));
      assert p == ("PUT\n" + p)[4..] && q == ("PUT\n" + q)[4..];
      AtoiItoa(e);
      AtoiItoa(f);
    }
  }

  /** HMAC-SHA-256 (section 2 of RFC 2104) and unpadded base64url (section 5 of RFC 4648). A MAC is
      never empty, decoding undoes encoding, and only the empty string encodes to nothing. */
  datatype Crypto = Crypto(mac: (Bytes, string) -> Bytes, encode: Bytes -> string, decode: string -> Option<Bytes>) {
    ghost predicate Sane() {
      && (forall secret, message :: mac(secret, message) != [])
      && (forall b :: decode(encode(b)) == Some(b) && (b != [] ==> encode(b) != ""))
    }
  }

  function SignUploadPath(k: Crypto, secret: Bytes, path: string, exp: int): string {
    k.encode(k.mac(secret, Payload(path, exp)))
  }

  /** now is in nanoseconds. */
  predicate VerifyUploadSignatureAt(k: Crypto, secret: Bytes, path: string, expParam: string, sigParam: string, now: int) {
    if |secret| == 0 || expParam == "" || sigParam == "" then false
    else
      match Atoi(expParam)
      case None => false
      case Some(exp) =>
        if now > exp * SECOND then false
        else
          var expected := k.decode(SignUploadPath(k, secret, path, exp));
          var got := k.decode(sigParam);
          expected.Some? && got.Some? && expected.value == got.value
  }

  /** Two different messages with one MAC under the secret. */
  ghost predicate Collision(k: Crypto, secret: Bytes, p: string, q: string) {
    p != q && k.mac(secret, p) == k.mac(secret, q)
  }

  /** A signature issued for a path and an expiry opens that path with every parameter that reads as
      that expiry, until it. If it opens anything else, a second message has been found that shares
      the MAC of the one that was signed. */
  lemma SignatureBindsPathAndExpiry(k: Crypto, secret: Bytes, path: string, exp: int, asked: string, expParam: string, now: int)
    requires k.Sane() && |secret| > 0 && -MAX_INT64 - 1 <= exp <= MAX_INT64
    ensures var sig := SignUploadPath(k, secret, path, exp);
            var own := asked == path && Atoi(expParam) == Some(exp) && now <= exp * SECOND;
            && (own ==> VerifyUploadSignatureAt(k, secret, asked, expParam, sig, now))
            && (VerifyUploadSignatureAt(k, secret, asked, expParam, sig, now) ==>
                  own || (Atoi(expParam).Some? && Collision(k, secret, Payload(asked, Atoi(expParam).value), Payload(path, exp))))
  {
    assert k.decode(SignUploadPath(k, secret, path, exp)) == Some(k.mac(secret, Payload(path, exp)));
    if Atoi(expParam).Some? {
      var e := Atoi(expParam).value;
      assert -MAX_INT64 - 1 <= e <= MAX_INT64;
      PayloadInjective(asked, e, path, exp);
      assert k.decode(SignUploadPath(k, secret, asked, e)) == Some(k.mac(secret, Payload(asked, e)));
    }
  }

  /** The parameter AppendUploadSignature writes is the one that opens it. */
  lemma SignedUrlVerifies(k: Crypto, secret: Bytes, path: string, exp: int, now: int)
    requires k.Sane() && |secret| > 0 && -MAX_INT64 - 1 <= exp <= MAX_INT64
    ensures VerifyUploadSignatureAt(k, secret, path, Itoa(exp), SignUploadPath(k, secret, path, exp), now)
            <==> now <= exp * SECOND
  {
    AtoiItoa(exp);
    assert k.decode(SignUploadPath(k, secret, path, exp)).Some?;
  }

  lemma UploadPathInjective(dongle: string, filePath: string, other: string, otherPath: string)
    requires '/' !in dongle && '/' !in other && UploadPath(dongle, filePath) == UploadPath(other, otherPath)
    ensures dongle == other && filePath == otherPath
  {
    var (a, b) := (dongle + "/" + filePath, other + "/" + otherPath);
    assert a == UploadPath(dongle, filePath)[8..] && b == UploadPath(other, otherPath)[8..];
    IndexOfFirst(dongle, '/', filePath);
    IndexOfFirst(other, '/', otherPath);
    assert dongle == a[..|dongle|] && filePath == a[|dongle| + 1..];
    assert other == b[..|other|] && otherPath == b[|other| + 1..];
  }

  /** A signed link minted for a segment file admits, short of a MAC collision, no PUT but that of
      this very file by this very device, and only until it expires. */
  lemma SignedLinkAdmitsOwnPut(k: Crypto, secret: Bytes, dongle: string, route: string, n: nat, filename: string, exp: int,
                               asked: string, filePath: string, expParam: string, now: int)
    requires k.Sane() && |secret| > 0 && -MAX_INT64 - 1 <= exp <= MAX_INT64 && n <= MAX_INT64
    requires '/' !in dongle && '/' !in asked
    requires route != "" && '/' !in route && route != "boot" && filename in VALID_FILENAMES && filename != ""
    requires var minted := UploadPath(dongle, SegmentPath(route, Itoa(n), filename));
             VerifyUploadSignatureAt(k, secret, UploadPath(asked, filePath), expParam, SignUploadPath(k, secret, minted, exp), now)
    ensures (asked == dongle && RoutePut(filePath) == SegmentFile(Target(route, Itoa(n), filename)) && now <= exp * SECOND)
            || (Atoi(expParam).Some?
                && Collision(k, secret, Payload(UploadPath(asked, filePath), Atoi(expParam).value),
                             Payload(UploadPath(dongle, SegmentPath(route, Itoa(n), filename)), exp)))
  {
    var minted := UploadPath(dongle, SegmentPath(route, Itoa(n), filename));
    SignatureBindsPathAndExpiry(k, secret, minted, exp, UploadPath(asked, filePath), expParam, now);
    if UploadPath(asked, filePath) == minted {
      UploadPathInjective(asked, filePath, dongle, SegmentPath(route, Itoa(n), filename));
      PutReachesSegmentIff(route, n, filename);
    }
  }
}
