/**
  The sliding-window login limiter (internal/api/session.go: allowAttempt, recordAttempt, Login).
  A slice is an array with a length; pruning overwrites the array it reads from.
*/
module LoginLimiter {
  const RATE_MAX := 5
  const RATE_WINDOW := 900  // fifteen minutes in seconds; no result depends on the unit of the instants

  datatype Slice = Slice(buf: array<int>, len: nat)

  /** The entries strictly after the cutoff, in order. */
  function Recent(h: seq<int>, cutoff: int): (r: seq<int>)
    ensures |r| <= |h|
  {
    if h == [] then []
    else
      var init := Recent(h[..|h| - 1], cutoff);
      if h[|h| - 1] > cutoff then init + [h[|h| - 1]] else init
  }

  ghost predicate Ascending(h: seq<int>) {
    forall i, j :: 0 <= i < j < |h| ==> h[i] <= h[j]
  }

  /** The first and last of any six or more consecutive failures are at least a window apart. */
  ghost predicate RateLimited(h: seq<int>) {
    forall i, j :: 0 <= i < j < |h| && i + RATE_MAX <= j ==> h[j] - h[i] >= RATE_WINDOW
  }

  predicate Allowed(h: seq<int>, now: int) { |Recent(h, now - RATE_WINDOW)| < RATE_MAX }

  // ---------------------------------------------------------------- the filter

  /** Filtering what an earlier, lower cutoff left over is filtering the whole history. */
  lemma {:induction false} RecentOfRecent(h: seq<int>, earlier: int, later: int)
    requires earlier <= later
    ensures Recent(Recent(h, earlier), later) == Recent(h, later)
  {
    if h != [] {
      RecentOfRecent(h[..|h| - 1], earlier, later);
      var init := Recent(h[..|h| - 1], earlier);
      if h[|h| - 1] > earlier {
        assert (init + [h[|h| - 1]])[..|init|] == init;
      }
    }
  }

  lemma {:induction false} RecentFrom(h: seq<int>, cutoff: int, k: nat)
    requires k <= |h|
    requires (forall i :: 0 <= i < k ==> h[i] <= cutoff) && (forall i :: k <= i < |h| ==> h[i] > cutoff)
    ensures Recent(h, cutoff) == h[k..]
  {
    if h != [] {
      var before := h[..|h| - 1];
      if k < |h| {
        RecentFrom(before, cutoff, k);
        assert h[k..] == before[k..] + [h[|h| - 1]];
      } else {
        RecentFrom(before, cutoff, k - 1);
      }
    }
  }

  /** On an ascending history the filter drops a prefix and nothing else. */
  lemma RecentIsSuffix(h: seq<int>, cutoff: int)
    requires Ascending(h)
    ensures var k := |h| - |Recent(h, cutoff)|;
            && Recent(h, cutoff) == h[k..]
            && (forall i :: 0 <= i < k ==> h[i] <= cutoff)
            && (forall i :: k <= i < |h| ==> h[i] > cutoff)
  {
    var k := 0;
    while k < |h| && h[k] <= cutoff
      invariant k <= |h| && forall i :: 0 <= i < k ==> h[i] <= cutoff
    {
      k := k + 1;
    }
    forall i | k <= i < |h| ensures h[i] > cutoff { assert h[k] <= h[i]; }
    RecentFrom(h, cutoff, k);
    assert |h[k..]| == |h| - k;
  }

  /** Recording a failure keeps the rate exactly when an attempt was still allowed at that time. */
  lemma RecordKeepsRate(h: seq<int>, now: int)
    requires Ascending(h + [now]) && RateLimited(h)
    ensures RateLimited(h + [now]) <==> Allowed(h, now)
  {
    var after := h + [now];
    assert forall i :: 0 <= i < |h| ==> after[i] == h[i];
    RecentIsSuffix(h, now - RATE_WINDOW);
    var k := |h| - |Recent(h, now - RATE_WINDOW)|;
    if Allowed(h, now) {
      forall i, j | 0 <= i < j < |after| && i + RATE_MAX <= j ensures after[j] - after[i] >= RATE_WINDOW {
        if j == |h| { assert i < k; }
      }
    } else {
      assert after[|h|] - after[|h| - RATE_MAX] < RATE_WINDOW;
    }
  }

  /** A rate-limited history has at most five failures after any instant and up to one window later. */
  lemma WindowHoldsFive(h: seq<int>, from: int, upTo: nat)
    requires Ascending(h) && RateLimited(h) && upTo <= |h|
    requires forall i :: 0 <= i < upTo ==> h[i] <= from + RATE_WINDOW
    ensures |Recent(h[..upTo], from)| <= RATE_MAX
  {
    var k := upTo - |Recent(h[..upTo], from)|;
    assert k + RATE_MAX < upTo ==> h[k + RATE_MAX] - h[k] >= RATE_WINDOW;
    RecentIsSuffix(h[..upTo], from);
  }

  /** No six failures, counted from any one on, lie within less than fifteen minutes. */
  ghost predicate SixApart(h: seq<int>) { forall i :: 0 <= i < |h| - 5 ==> h[i + 5] >= h[i] + 900 }

  lemma LimitedIsSixApart(h: seq<int>)
    requires Ascending(h)
    ensures RateLimited(h) <==> SixApart(h)
  {
    if SixApart(h) {
      forall i, j | 0 <= i < j < |h| && i + RATE_MAX <= j ensures h[j] - h[i] >= RATE_WINDOW {
        assert h[i + 5] >= h[i] + 900;
        if i + 5 < j { assert h[i + 5] <= h[j]; }
      }
    }
  }

  /** An attempt is refused exactly when the fifth failure from the end is less than fifteen minutes old. */
  lemma RefusedIff(h: seq<int>, now: int)
    requires Ascending(h)
    ensures !Allowed(h, now) <==> |h| >= 5 && h[|h| - 5] > now - 900
  {
    RecentIsSuffix(h, now - RATE_WINDOW);
  }

  /** Two logins that both pass the check before either records its failure can make six. */
  lemma ConcurrentLoginsExceed()
    ensures var h := [1, 1, 1, 1];
            Ascending(h + [1, 1]) && RateLimited(h) && Allowed(h, 1) && !RateLimited(h + [1, 1])
  {
    var h := [1, 1, 1, 1];
    assert (h + [1, 1])[5] - (h + [1, 1])[0] == 0;
    RecentIsSuffix(h, 1 - RATE_WINDOW);
    assert |Recent(h, 1 - RATE_WINDOW)| <= 4;
  }

  // ---------------------------------------------------------------- the handler

  /** A stored list stands for a history when, from this instant on, every window over the one
      shows the same failures as over the other. */
  ghost predicate Tracks(list: seq<int>, h: seq<int>, clock: int) {
    forall cutoff :: clock - RATE_WINDOW <= cutoff ==> Recent(list, cutoff) == Recent(h, cutoff)
  }

  lemma TracksAfterPrune(list: seq<int>, h: seq<int>, clock: int, now: int)
    requires Tracks(list, h, clock) && clock <= now
    ensures Recent(list, now - RATE_WINDOW) == Recent(h, now - RATE_WINDOW)
    ensures Tracks(Recent(h, now - RATE_WINDOW), h, now)
  {
    forall cutoff | now - RATE_WINDOW <= cutoff
      ensures Recent(Recent(h, now - RATE_WINDOW), cutoff) == Recent(h, cutoff)
    {
      RecentOfRecent(h, now - RATE_WINDOW, cutoff);
    }
  }

  lemma TracksAfterRecord(list: seq<int>, h: seq<int>, now: int, later: int)
    requires Tracks(list, h, now) && now <= later
    ensures Tracks(list + [later], h + [later], later)
  {
    assert (list + [later])[..|list|] == list && (h + [later])[..|h|] == h;
  }

  datatype LoginResponse = TooManyRequests | BadRequest | Unauthorized | LookupError | LoggedIn

  /** How a request goes on once the limiter lets it through. */
  datatype Outcome = MalformedBody | MissingField | UnknownUser | DatabaseError | WrongPassword | Correct

  function ListIn(lists: map<string, seq<int>>, ip: string): seq<int> {
    if ip in lists then lists[ip] else []
  }

  /** What has happened so far: every failure ever recorded, and the latest clock reading. */
  datatype Log = Log(history: map<string, seq<int>>, clock: int)

  function Failures(log: Log, ip: string): seq<int> { ListIn(log.history, ip) }

  function LogFailure(log: Log, ip: string, at: int): Log {
    Log(log.history[ip := Failures(log, ip) + [at]], at)
  }

  /** Every address's list stands for its history. */
  ghost predicate TracksAll(lists: map<string, seq<int>>, log: Log) {
    forall ip :: Tracks(ListIn(lists, ip), Failures(log, ip), log.clock)
  }

  /** The failures of every address are in order, not in the future, and rate limited. */
  ghost predicate Limited(log: Log) {
    forall ip :: var h := Failures(log, ip);
      Ascending(h) && (|h| > 0 ==> h[|h| - 1] <= log.clock) && RateLimited(h)
  }

  lemma LimitedLog(log: Log)
    requires Limited(log)
    ensures forall ip :: ip in log.history ==> SixApart(log.history[ip])
  {
    forall ip | ip in log.history ensures SixApart(log.history[ip]) {
      assert Failures(log, ip) == log.history[ip];
      LimitedIsSixApart(Failures(log, ip));
    }
  }

  /** One login in the log: refused exactly when the fifth failure of the address from the end is less
      than fifteen minutes old, and otherwise recorded unless it succeeds. */
  ghost predicate Logged(log: Log, after: Log, ip: string, now: int, latest: int, r: LoginResponse) {
    var h := if ip in log.history then log.history[ip] else [];
    && (r.TooManyRequests? <==> |h| >= 5 && h[|h| - 5] > now - 900)
    && after.history == if r.TooManyRequests? || r.LoggedIn? then log.history else log.history[ip := h + [latest]]
  }

  lemma LoginIsLogged(log: Log, ip: string, now: int, latest: int, r: LoginResponse)
    requires Limited(log)
    requires r.TooManyRequests? <==> !Allowed(Failures(log, ip), now)
    ensures Logged(log, if r.TooManyRequests? || r.LoggedIn? then log.(clock := now) else LogFailure(log, ip, latest),
                   ip, now, latest, r)
  {
    RefusedIff(Failures(log, ip), now);
  }

  lemma PrunesAlike(lists: map<string, seq<int>>, log: Log, ip: string, now: int)
    requires TracksAll(lists, log) && log.clock <= now
    ensures Recent(ListIn(lists, ip), now - RATE_WINDOW) == Recent(Failures(log, ip), now - RATE_WINDOW)
  {
    assert Tracks(ListIn(lists, ip), Failures(log, ip), log.clock);
  }

  lemma PruneKeepsTracks(lists: map<string, seq<int>>, log: Log, ip: string, now: int)
    requires TracksAll(lists, log) && log.clock <= now
    ensures TracksAll(lists[ip := Recent(Failures(log, ip), now - RATE_WINDOW)], log.(clock := now))
  {
    var pruned := lists[ip := Recent(Failures(log, ip), now - RATE_WINDOW)];
    TracksAfterPrune(ListIn(lists, ip), Failures(log, ip), log.clock, now);
    forall other ensures Tracks(ListIn(pruned, other), Failures(log, other), now) {
      assert Tracks(ListIn(lists, other), Failures(log, other), log.clock);
    }
  }

  lemma RecordKeepsTracks(lists: map<string, seq<int>>, log: Log, ip: string, now: int, later: int)
    requires TracksAll(lists, log) && log.clock <= now <= later
    ensures TracksAll(lists[ip := Recent(Failures(log, ip), now - RATE_WINDOW) + [later]], LogFailure(log, ip, later))
  {
    var pruned := Recent(Failures(log, ip), now - RATE_WINDOW);
    TracksAfterPrune(ListIn(lists, ip), Failures(log, ip), log.clock, now);
    TracksAfterRecord(pruned, Failures(log, ip), now, later);
    var longer := lists[ip := pruned + [later]];
    forall other ensures Tracks(ListIn(longer, other), Failures(LogFailure(log, ip, later), other), later) {
      assert Tracks(ListIn(lists, other), Failures(log, other), log.clock);
    }
  }

  /** The handler's map of lists: one array per address, none shared. */
  class SessionHandler {
    var attempts: map<string, Slice>
    ghost var lists: map<string, seq<int>>     // what each slice holds
    ghost var owner: map<array<int>, string>   // whose list an array holds

    ghost predicate Valid()
      reads this, owner.Keys
    { attempts.Keys == lists.Keys && forall ip :: ip in attempts ==> Sound(ip) }

    /** The address's slice lies in an array of its own and holds the address's list. */
    ghost predicate Sound(ip: string)
      requires ip in attempts && ip in lists
      reads this, owner.Keys
    {
      var s := attempts[ip];
      && s.buf in owner && owner[s.buf] == ip
      && s.len <= s.buf.Length && s.buf[..s.len] == lists[ip]
    }

    constructor ()
      ensures Valid() && lists == map[] && fresh(owner.Keys)
    { attempts, lists, owner := map[], map[], map[]; }

    /** The in-place filter: kept := attempts[:0], then append what is recent. */
    static method Prune(s: Slice, cutoff: int) returns (kept: Slice)
      requires s.len <= s.buf.Length
      modifies s.buf
      ensures kept.buf == s.buf && kept.len <= s.len
      ensures kept.buf[..kept.len] == Recent(old(s.buf[..s.len]), cutoff)
    {
      var k := 0;
      ghost var was := s.buf[..s.len];
      for i := 0 to s.len
        invariant k <= i
        invariant s.buf[..k] == Recent(was[..i], cutoff)
        invariant forall j :: i <= j < s.len ==> s.buf[j] == was[j]
      {
        ghost var before := s.buf[..k];
        var t := s.buf[i];
        assert was[..i + 1][..i] == was[..i] && was[..i + 1][i] == t;
        if t > cutoff {
          s.buf[k] := t;
          k := k + 1;
          assert s.buf[..k] == before + [t];
        }
      }
      assert was[..s.len] == was;
      return Slice(s.buf, k);
    }

    /** append(s, x): in place while the array has room, otherwise into a larger copy. */
    static method Append(s: Slice, x: int) returns (r: Slice)
      requires s.len <= s.buf.Length
      modifies s.buf
      ensures r.len == s.len + 1 <= r.buf.Length && (r.buf == s.buf || fresh(r.buf))
      ensures r.buf[..r.len] == old(s.buf[..s.len]) + [x]
    {
      if s.len < s.buf.Length {
        s.buf[s.len] := x;
        return Slice(s.buf, s.len + 1);
      }
      var bigger := new int[2 * s.len + 1](i requires 0 <= i reads s.buf => if i < s.buf.Length then s.buf[i] else 0);
      bigger[s.len] := x;
      assert bigger[..s.len] == s.buf[..s.len];
      return Slice(bigger, s.len + 1);
    }

    /** attempts[ip] = s */
    method Put(ip: string, s: Slice)
      requires attempts.Keys == lists.Keys && forall other :: other in attempts && other != ip ==> Sound(other)
      requires s.len <= s.buf.Length && (s.buf in owner ==> owner[s.buf] == ip)
      modifies this
      ensures Valid() && lists == old(lists)[ip := s.buf[..s.len]] && owner == old(owner)[s.buf := ip]
    {
      attempts, lists, owner := attempts[ip := s], lists[ip := s.buf[..s.len]], owner[s.buf := ip];
    }

    /** attempts[ip], which is the empty slice for an address not seen before. */
    method Slot(ip: string) returns (s: Slice)
      requires Valid()
      ensures s.len <= s.buf.Length && s.buf[..s.len] == ListIn(lists, ip)
      ensures if s.buf in owner then owner[s.buf] == ip else fresh(s.buf)
    {
      if ip in attempts { return attempts[ip]; }
      var none := new int[0];
      return Slice(none, 0);
    }

    /** Replaces the address's list by its recent part; every other list stays what it was. */
    method Filter(ip: string, cutoff: int) returns (count: nat)
      requires Valid()
      modifies this, owner.Keys
      ensures Valid() && fresh(owner.Keys - old(owner.Keys))
      ensures lists == old(lists)[ip := Recent(ListIn(old(lists), ip), cutoff)] && count == |lists[ip]|
    {
      var slice := Slot(ip);
      var kept := Prune(slice, cutoff);
      Put(ip, kept);
      return kept.len;
    }

    /** The same, with one more entry at the end. */
    method FilterAndPush(ip: string, cutoff: int, t: int)
      requires Valid()
      modifies this, owner.Keys
      ensures Valid() && fresh(owner.Keys - old(owner.Keys))
      ensures lists == old(lists)[ip := Recent(ListIn(old(lists), ip), cutoff) + [t]]
    {
      var slice := Slot(ip);
      var kept := Prune(slice, cutoff);
      var longer := Append(kept, t);
      Put(ip, longer);
    }

    /** Prunes the address's list to exactly the failures of the last window, however often and
        whenever it was pruned before, and allows an attempt when fewer than five remain. */
    method AllowAttempt(ip: string, now: int, ghost log: Log) returns (ok: bool)
      requires Valid() && TracksAll(lists, log) && log.clock <= now
      modifies this, owner.Keys
      ensures Valid() && TracksAll(lists, log.(clock := now)) && fresh(owner.Keys - old(owner.Keys))
      ensures lists == old(lists)[ip := Recent(Failures(log, ip), now - RATE_WINDOW)]
      ensures ok <==> Allowed(Failures(log, ip), now)
    {
      PrunesAlike(lists, log, ip, now);
      PruneKeepsTracks(lists, log, ip, now);
      var count := Filter(ip, now - RATE_WINDOW);
      return count < RATE_MAX;
    }

    /** Prunes the same way and appends the failure. The clock is read twice. */
    method RecordAttempt(ip: string, now: int, later: int, ghost log: Log)
      requires Valid() && TracksAll(lists, log) && log.clock <= now <= later
      modifies this, owner.Keys
      ensures Valid() && TracksAll(lists, LogFailure(log, ip, later)) && fresh(owner.Keys - old(owner.Keys))
      ensures lists == old(lists)[ip := Recent(Failures(log, ip), now - RATE_WINDOW) + [later]]
    {
      PrunesAlike(lists, log, ip, now);
      RecordKeepsTracks(lists, log, ip, now, later);
      FilterAndPush(ip, now - RATE_WINDOW, later);
    }

    /** One login from first to last step. It is refused exactly when five failures of the address
        lie in the last window, it records a failure exactly when it was let through and did not
        succeed, and the failures of every address stay rate limited. */
    method Login(ip: string, outcome: Outcome, now: int, later: int, latest: int, ghost log: Log)
      returns (r: LoginResponse, ghost after: Log)
      requires Valid() && TracksAll(lists, log) && log.clock <= now <= later <= latest
      requires Limited(log)
      modifies this, owner.Keys
      ensures Valid() && TracksAll(lists, after) && fresh(owner.Keys - old(owner.Keys))
      ensures Limited(after)
      ensures r.TooManyRequests? <==> !Allowed(Failures(log, ip), now)
      ensures r.LoggedIn? <==> Allowed(Failures(log, ip), now) && outcome.Correct?
      ensures after == if r.TooManyRequests? || r.LoggedIn? then log.(clock := now)
                       else LogFailure(log, ip, latest)
      ensures Logged(log, after, ip, now, latest, r)
      ensures !r.TooManyRequests? ==>
                && (r.LoggedIn? <==> outcome.Correct?) && (r.BadRequest? <==> outcome.MalformedBody?)
                && (r.LookupError? <==> outcome.DatabaseError?)
    {
      var ok := AllowAttempt(ip, now, log);
      after := log.(clock := now);
      assert forall other :: Failures(after, other) == Failures(log, other);
      if !ok {
        LoginIsLogged(log, ip, now, latest, TooManyRequests);
        return TooManyRequests, after;
      }
      if outcome.Correct? {
        LoginIsLogged(log, ip, now, latest, LoggedIn);
        return LoggedIn, after;
      }
      RecordAttempt(ip, later, latest, after);
      LoginKeepsLimit(log, ip, now, latest);
      after := LogFailure(log, ip, latest);
      match outcome {
        case MalformedBody => r := BadRequest;
        case DatabaseError => r := LookupError;
        case _ => r := Unauthorized;
      }
      LoginIsLogged(log, ip, now, latest, r);
    }
  }

  /** A login request with its three clock readings. */
  datatype Request = Request(ip: string, outcome: Outcome, now: int, later: int, latest: int)

  /** One login at a time under a clock that does not run backwards. */
  predicate InOrder(requests: seq<Request>, clock: int)
    decreases requests
  {
    requests != [] ==>
      var r := requests[0];
      clock <= r.now <= r.later <= r.latest && InOrder(requests[1..], r.latest)
  }

  function EndClock(requests: seq<Request>, clock: int): int {
    if requests == [] then clock else requests[|requests| - 1].latest
  }

  lemma {:induction false} InOrderAt(requests: seq<Request>, clock: int, i: nat)
    requires InOrder(requests, clock) && i < |requests|
    ensures EndClock(requests[..i], clock) <= requests[i].now <= requests[i].later <= requests[i].latest
    ensures EndClock(requests[..i + 1], clock) == requests[i].latest
    decreases requests
  {
    if i > 0 {
      InOrderAt(requests[1..], requests[0].latest, i - 1);
      assert requests[1..][..i - 1] == requests[1..i];
      assert i > 1 ==> requests[1..i][i - 2] == requests[..i][i - 1];
    }
  }

  /** Over any sequence of logins from a fresh start, no six failures of an address ever lie in less
      than a window, and the stored lists still stand for the whole history. */
  method ServeAll(requests: seq<Request>, ghost clock: int) returns (handler: SessionHandler, ghost log: Log)
    requires InOrder(requests, clock)
    ensures handler.Valid() && TracksAll(handler.lists, log) && Limited(log)
    ensures forall ip :: ip in log.history ==> SixApart(log.history[ip])
  {
    handler := new SessionHandler();
    log := Log(map[], clock);
    for i := 0 to |requests|
      invariant fresh(handler) && fresh(handler.owner.Keys) && handler.Valid()
      invariant TracksAll(handler.lists, log) && Limited(log)
      invariant log.clock <= EndClock(requests[..i], clock)
    {
      InOrderAt(requests, clock, i);
      var r := requests[i];
      var response;
      response, log := handler.Login(r.ip, r.outcome, r.now, r.later, r.latest, log);
    }
    LimitedLog(log);
  }

  /** A failure recorded by a login that was let through keeps every address limited. */
  lemma LoginKeepsLimit(log: Log, ip: string, now: int, latest: int)
    requires Limited(log) && log.clock <= now <= latest && Allowed(Failures(log, ip), now)
    ensures Limited(LogFailure(log, ip, latest))
  {
    var after := LogFailure(log, ip, latest);
    var h := Failures(log, ip);
    StillAllowed(h, now, latest);
    assert Ascending(h + [latest]);
    RecordKeepsRate(h, latest);
    forall other ensures var g := Failures(after, other);
      Ascending(g) && (|g| > 0 ==> g[|g| - 1] <= latest) && RateLimited(g)
    {
      if other != ip { assert Failures(after, other) == Failures(log, other); }
    }
  }

  /** An attempt allowed now is allowed later if nothing is recorded in between. */
  lemma StillAllowed(h: seq<int>, now: int, later: int)
    requires now <= later && Allowed(h, now)
    ensures Allowed(h, later)
  {
    RecentOfRecent(h, now - RATE_WINDOW, later - RATE_WINDOW);
  }
}
