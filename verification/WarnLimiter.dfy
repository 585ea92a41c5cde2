/**
  The lock-free warning limiter of the engine client (internal/alpr/client.go: warnUnreachable)
  as interleaved steps of any number of goroutines. Each atomic operation is one step.
*/
module WarnLimiter {
  import opened Common

  type Thread = nat

  /** Where a goroutine stands between two of its atomic operations. */
  datatype Phase =
    | Idle
    | Counted                          // after warnCounter.Add(1)
    | Clocked(now: int)                // after time.Now()
    | Passed(now: int, last: int)      // after lastWarnNs.Load() and the window test
    | Won(now: int)                    // after a successful CompareAndSwap

  /** The two atomics and the goroutines, with the log of what happened so far: how many errors
      were counted, the counts that were logged, and the stamps that were swapped in. */
  datatype State = State(
    lastWarn: int, counter: nat, phases: map<Thread, Phase>,
    errors: nat, reports: seq<nat>, stamps: seq<int>)

  datatype Action =
    | Add(t: Thread) | ReadClock(t: Thread, now: int) | Load(t: Thread) | CompareAndSwap(t: Thread) | Swap(t: Thread)

  const INITIAL := State(0, 0, map[], 0, [], [])

  function PhaseOf(s: State, t: Thread): Phase { if t in s.phases then s.phases[t] else Idle }

  /** The next operation of a goroutine; a clock reading in Unix nanoseconds is positive. */
  predicate Enabled(s: State, a: Action) {
    match a
    case Add(t) => PhaseOf(s, t).Idle?
    case ReadClock(t, now) => PhaseOf(s, t).Counted? && now > 0
    case Load(t) => PhaseOf(s, t).Clocked?
    case CompareAndSwap(t) => PhaseOf(s, t).Passed?
    case Swap(t) => PhaseOf(s, t).Won?
  }

  function Apply(s: State, a: Action, window: int): State
    requires Enabled(s, a)
  {
    match a
    case Add(t) => s.(counter := s.counter + 1, errors := s.errors + 1, phases := s.phases[t := Counted])
    case ReadClock(t, now) => s.(phases := s.phases[t := Clocked(now)])
    case Load(t) =>
      var now := PhaseOf(s, t).now;
      var last := s.lastWarn;
      s.(phases := s.phases[t := if last != 0 && now - last < window then Idle else Passed(now, last)])
    case CompareAndSwap(t) =>
      var p := PhaseOf(s, t);
      if s.lastWarn == p.last
      then s.(lastWarn := p.now, stamps := s.stamps + [p.now], phases := s.phases[t := Won(p.now)])
      else s.(phases := s.phases[t := Idle])
    case Swap(t) => s.(counter := 0, reports := s.reports + [s.counter], phases := s.phases[t := Idle])
  }

  function Sum(s: seq<nat>): nat {
    if s == [] then 0 else Sum(s[..|s| - 1]) + s[|s| - 1]
  }

  function Winners(s: State): set<Thread> {
    set t | t in s.phases && s.phases[t].Won?
  }

  ghost predicate Spaced(stamps: seq<int>, window: int) {
    forall i :: 0 <= i < |stamps| - 1 ==> stamps[i + 1] - stamps[i] >= window
  }

  ghost predicate Invariant(s: State, window: int) {
    && s.errors == Sum(s.reports) + s.counter
    && Spaced(s.stamps, window)
    && (forall i :: 0 <= i < |s.stamps| ==> s.stamps[i] > 0)
    && s.lastWarn == (if s.stamps == [] then 0 else s.stamps[|s.stamps| - 1])
    && (forall t :: t in s.phases && s.phases[t].Clocked? ==> s.phases[t].now > 0)
    && (forall t :: t in s.phases && s.phases[t].Passed? ==>
          s.phases[t].now > 0 && (s.phases[t].last == 0 || s.phases[t].now - s.phases[t].last >= window))
    && |s.stamps| == |s.reports| + |Winners(s)|
  }

  lemma WinnersStep(s: State, t: Thread, p: Phase)
    ensures |Winners(s.(phases := s.phases[t := p]))| ==
            |Winners(s)| + (if p.Won? then 1 else 0) - (if PhaseOf(s, t).Won? then 1 else 0)
  {
    var (was, now) := (Winners(s), Winners(s.(phases := s.phases[t := p])));
    assert now - {t} == was - {t};
    assert t in was <==> PhaseOf(s, t).Won?;
    assert t in now <==> p.Won?;
    assert |now| == |now - {t}| + (if t in now then 1 else 0);
    assert |was| == |was - {t}| + (if t in was then 1 else 0);
  }

  lemma StepKeepsInvariant(s: State, a: Action, window: int)
    requires Invariant(s, window) && Enabled(s, a)
    ensures Invariant(Apply(s, a, window), window)
  {
    var after := Apply(s, a, window);
    WinnersStep(s, a.t, after.phases[a.t]);
    assert Winners(after) == Winners(s.(phases := s.phases[a.t := after.phases[a.t]]));
    if a.Swap? {
      assert after.reports[..|after.reports| - 1] == s.reports;
    }
  }

  // ---------------------------------------------------------------- every interleaving

  ghost predicate Possible(s: State, run: seq<Action>, window: int)
    decreases run
  { run != [] ==> Enabled(s, run[0]) && Possible(Apply(s, run[0], window), run[1..], window) }

  ghost function After(s: State, run: seq<Action>, window: int): State
    requires Possible(s, run, window)
    decreases run
  { if run == [] then s else After(Apply(s, run[0], window), run[1..], window) }

  lemma {:induction false} RunKeepsInvariant(s: State, run: seq<Action>, window: int)
    requires Invariant(s, window) && Possible(s, run, window)
    ensures Invariant(After(s, run, window), window)
    decreases run
  {
    if run != [] {
      StepKeepsInvariant(s, run[0], window);
      RunKeepsInvariant(Apply(s, run[0], window), run[1..], window);
    }
  }

  lemma {:induction false} SpacedApart(stamps: seq<int>, window: int, i: nat, j: nat)
    requires Spaced(stamps, window) && i <= j < |stamps|
    ensures stamps[j] - stamps[i] >= (j - i) * window
    decreases j - i
  {
    if i < j {
      SpacedApart(stamps, window, i, j - 1);
      assert stamps[j - 1 + 1] - stamps[j - 1] >= window;
      assert (j - i) * window == (j - 1 - i) * window + window;
    }
  }

  /** Under every interleaving, and whatever the clock readings: each counted error is in exactly
      one logged count or still in the counter; n further warnings take at least n windows; and
      there is one log line per stamp, except for the goroutines about to write theirs. */
  lemma EveryInterleaving(run: seq<Action>, window: int, i: nat, j: nat)
    requires Possible(INITIAL, run, window)
    ensures var s := After(INITIAL, run, window);
            && s.errors == Sum(s.reports) + s.counter
            && (i <= j < |s.stamps| ==> s.stamps[j] - s.stamps[i] >= (j - i) * window)
            && |s.stamps| == |s.reports| + |Winners(s)|
            && ((forall t :: PhaseOf(s, t).Idle?) ==> |s.stamps| == |s.reports|)
  {
    assert Winners(INITIAL) == {};
    RunKeepsInvariant(INITIAL, run, window);
    var s := After(INITIAL, run, window);
    if i <= j < |s.stamps| {
      SpacedApart(s.stamps, window, i, j);
    }
    if forall t :: PhaseOf(s, t).Idle? {
      forall t ensures t !in Winners(s) { assert PhaseOf(s, t).Idle?; }
      assert Winners(s) == {};
    }
  }

  // ---------------------------------------------------------------- one call on its own

  class Client {
    var lastWarnNs: int
    var warnCounter: nat
    const warnEvery: int

    constructor (warnEvery: int)
      ensures lastWarnNs == 0 && warnCounter == 0 && this.warnEvery == warnEvery
    { lastWarnNs, warnCounter, this.warnEvery := 0, 0, warnEvery; }

    /** A call that no other goroutine interrupts: it logs exactly when the window is over, and
        then reports every error since the last log line, its own included. */
    method WarnUnreachable(now: int) returns (logged: Option<nat>)
      requires now > 0
      modifies this
      ensures logged.Some? <==> old(lastWarnNs) == 0 || now - old(lastWarnNs) >= warnEvery
      ensures logged.Some? ==> logged.value == old(warnCounter) + 1 && warnCounter == 0 && lastWarnNs == now
      ensures logged.None? ==> warnCounter == old(warnCounter) + 1 && lastWarnNs == old(lastWarnNs)
    {
      warnCounter := warnCounter + 1;
      var last := lastWarnNs;
      if last != 0 && now - last < warnEvery { return None; }
      if lastWarnNs != last { return None; }
      lastWarnNs := now;
      var suppressed := warnCounter;
      warnCounter := 0;
      return Some(suppressed);
    }
  }

  lemma RunOfOne(s: State, a: Action, rest: seq<Action>, window: int)
    requires Enabled(s, a) && Possible(Apply(s, a, window), rest, window)
    ensures Possible(s, [a] + rest, window)
    ensures After(s, [a] + rest, window) == After(Apply(s, a, window), rest, window)
  {
    assert ([a] + rest)[1..] == rest;
  }

  /** What t still does once it has passed the window test and nobody interferes. */
  lemma SoloTail(s: State, t: Thread, now: int, window: int)
    requires PhaseOf(s, t) == Passed(now, s.lastWarn)
    ensures var run := [CompareAndSwap(t)] + ([Swap(t)] + []);
            && Possible(s, run, window)
            && var after := After(s, run, window);
               PhaseOf(after, t).Idle? && after.lastWarn == now && after.counter == 0
               && after.reports == s.reports + [s.counter]
  {
    var won := Apply(s, CompareAndSwap(t), window);
    RunOfOne(won, Swap(t), [], window);
    RunOfOne(s, CompareAndSwap(t), [Swap(t)] + [], window);
  }

  function SoloRun(t: Thread, now: int, logs: bool): seq<Action> {
    [Add(t)] + ([ReadClock(t, now)] + ([Load(t)] + if logs then [CompareAndSwap(t)] + ([Swap(t)] + []) else []))
  }

  /** The uninterrupted call is one of the interleavings: goroutine t taking its steps in a row. */
  lemma SoloCall(s: State, t: Thread, now: int, window: int)
    requires PhaseOf(s, t).Idle? && now > 0
    ensures var logs := s.lastWarn == 0 || now - s.lastWarn >= window;
            var run := SoloRun(t, now, logs);
            && Possible(s, run, window)
            && var after := After(s, run, window);
               && PhaseOf(after, t).Idle?
               && after.lastWarn == (if logs then now else s.lastWarn)
               && after.counter == (if logs then 0 else s.counter + 1)
               && after.reports == (if logs then s.reports + [s.counter + 1] else s.reports)
  {
    var counted := Apply(s, Add(t), window);
    var clocked := Apply(counted, ReadClock(t, now), window);
    var loaded := Apply(clocked, Load(t), window);
    var rest := [];
    if s.lastWarn == 0 || now - s.lastWarn >= window {
      SoloTail(loaded, t, now, window);
      rest := [CompareAndSwap(t)] + ([Swap(t)] + []);
    }
    RunOfOne(clocked, Load(t), rest, window);
    RunOfOne(counted, ReadClock(t, now), [Load(t)] + rest, window);
    RunOfOne(s, Add(t), [ReadClock(t, now)] + ([Load(t)] + rest), window);
  }
}
