/**
  The watchlist state machine: the heuristic's upserts (internal/alpr/heuristic/worker.go),
  the operator's acknowledge, note and whitelist requests (internal/api/alpr_watchlist.go) and
  the watchlist part of a merge, over the statements of internal/db/alpr_watchlist.sql.go.
*/
module WatchlistRuns {
  import opened Common
  import opened WatchlistMerge
  import opened PlateTables
  import opened PlateMerge

  datatype Op =
    | Evaluate(h: Hash, score: int, now: int)
    | Ack(h: Hash, at: int)
    | Unack(h: Hash)
    | SetNotes(h: Hash, notes: string)
    | AddWhitelist(h: Hash, labelCipher: Option<Bytes>)
    | RemoveEntry(h: Hash)
    | MergeInto(from: Hash, to: Hash)

  function SeverityOf(r: Option<WatchRow>): int {
    if r.Some? && r.value.fields.severity.Some? then r.value.fields.severity.value else 0
  }

  predicate IsWhitelisted(r: Option<WatchRow>) { r.Some? && r.value.kind.Whitelist? }

  /** Score overrides every severity of a whitelisted plate with 0. */
  function Computed(r: Option<WatchRow>, score: int): int {
    if IsWhitelisted(r) then 0 else score
  }

  predicate Upgrades(r: Option<WatchRow>, score: int) {
    Computed(r, score) >= 2 && Computed(r, score) > SeverityOf(r)
  }

  function NotesCell(notes: string): Option<string> { if notes == "" then None else Some(notes) }

  // ---------------------------------------------------------------- one step

  function UpsertAlerted(w: Watchlist, h: Hash, severity: Option<int>, at: Option<int>): Watchlist {
    UpsertWatch(w, h, AlertedRow(None, severity, None, at), (r: WatchRow) => Realert(r, None, severity, None, at))
  }

  function UpsertAlertedPreserveAck(w: Watchlist, h: Hash, severity: Option<int>, at: Option<int>): Watchlist {
    UpsertWatch(w, h, AlertedRow(None, severity, None, at), (r: WatchRow) => Reconfirm(r, None, severity, None, at))
  }

  function UpsertWhitelist(w: Watchlist, h: Hash, labelCipher: Option<Bytes>): Watchlist {
    UpsertWatch(w, h, WatchRow(None, labelCipher, Whitelist, NO_FIELDS), (r: WatchRow) => Whitelisted(r, labelCipher, None))
  }

  function SetAck(w: Watchlist, h: Hash, at: Option<int>): Watchlist {
    w.(rows := UpdateWatch(w.rows, h, (r: WatchRow) => r.(fields := r.fields.(acked := at))))
  }

  function SetNotesCell(w: Watchlist, h: Hash, notes: Option<string>): Watchlist {
    w.(rows := UpdateWatch(w.rows, h, (r: WatchRow) => r.(fields := r.fields.(notes := notes))))
  }

  ghost function Step(w: Watchlist, op: Op): Watchlist {
    match op
    case Evaluate(h, score, now) =>
      var row := RowOf(w.rows, h);
      if Computed(row, score) < 2 then w
      else if Computed(row, score) > SeverityOf(row) then UpsertAlerted(w, h, Some(score), Some(now))
      else UpsertAlertedPreserveAck(w, h, Some(score), Some(now))
    case Ack(h, at) => SetAck(w, h, Some(at))
    case Unack(h) => SetAck(w, h, None)
    case SetNotes(h, notes) => SetNotesCell(w, h, NotesCell(notes))
    case AddWhitelist(h, labelCipher) => UpsertWhitelist(w, h, labelCipher)
    case RemoveEntry(h) => if IsWhitelisted(RowOf(w.rows, h)) then w.(rows := RemoveWatch(w.rows, h)) else w
    case MergeInto(from, to) => MergeWatch(w, from, to)
  }

  /** The heuristic's severities stop at 5 and a merge names two plates. */
  predicate Legal(op: Op) {
    (op.Evaluate? ==> op.score <= 5) && (op.MergeInto? ==> op.from != op.to)
  }

  /** The row of plate g after a step, as a function of the rows before it. */
  ghost function NextRow(w: Watchlist, op: Op, g: Hash): Option<WatchRow> {
    var row := RowOf(w.rows, g);
    match op
    case Evaluate(h, score, now) =>
      if g != h || Computed(row, score) < 2 then row
      else if row.None? then Some(AlertedRow(None, Some(score), None, Some(now)).(hash := Some(h)))
      else if score > SeverityOf(row) then Some(Realert(row.value, None, Some(score), None, Some(now)))
      else Some(Reconfirm(row.value, None, Some(score), None, Some(now)))
    case Ack(h, at) => if g != h || row.None? then row else Some(row.value.(fields := row.value.fields.(acked := Some(at))))
    case Unack(h) => if g != h || row.None? then row else Some(row.value.(fields := row.value.fields.(acked := None)))
    case SetNotes(h, notes) =>
      if g != h || row.None? then row else Some(row.value.(fields := row.value.fields.(notes := NotesCell(notes))))
    case AddWhitelist(h, labelCipher) =>
      if g != h then row
      else if row.None? then Some(WatchRow(Some(h), labelCipher, Whitelist, NO_FIELDS))
      else Some(Whitelisted(row.value, labelCipher, None))
    case RemoveEntry(h) => if g == h && IsWhitelisted(row) then None else row
    case MergeInto(from, to) =>
      var (f, t) := (RowOf(w.rows, from), RowOf(w.rows, to));
      if g == from then None
      else if g != to || f.None? then row
      else if t.None? then Some(f.value.(hash := Some(to)))
      else Some(t.value.(fields := MergeFields(f.value.fields, t.value.fields)))
  }

  lemma EvaluateRow(w: Watchlist, h: Hash, score: int, now: int, g: Hash)
    requires WatchlistValid(w) && Legal(Evaluate(h, score, now))
    ensures WatchlistValid(Step(w, Evaluate(h, score, now)))
    ensures RowOf(Step(w, Evaluate(h, score, now)).rows, g) == NextRow(w, Evaluate(h, score, now), g)
  {
    var at := Some(now);
    UpsertWatchRow(w, h, AlertedRow(None, Some(score), None, at), (r: WatchRow) => Realert(r, None, Some(score), None, at), g);
    UpsertWatchRow(w, h, AlertedRow(None, Some(score), None, at), (r: WatchRow) => Reconfirm(r, None, Some(score), None, at), g);
  }

  lemma ColumnRow(w: Watchlist, op: Op, g: Hash)
    requires WatchlistValid(w) && (op.Ack? || op.Unack? || op.SetNotes?)
    ensures WatchlistValid(Step(w, op))
    ensures RowOf(Step(w, op).rows, g) == NextRow(w, op, g)
  {
    match op
    case Ack(h, at) => UpdateWatchRow(w.rows, h, (r: WatchRow) => r.(fields := r.fields.(acked := Some(at))), g);
    case Unack(h) => UpdateWatchRow(w.rows, h, (r: WatchRow) => r.(fields := r.fields.(acked := None)), g);
    case SetNotes(h, notes) =>
      UpdateWatchRow(w.rows, h, (r: WatchRow) => r.(fields := r.fields.(notes := NotesCell(notes))), g);
  }

  /** The table keeps its constraints, and the SQL acts on each plate's row as NextRow says. */
  lemma StepRow(w: Watchlist, op: Op, g: Hash)
    requires WatchlistValid(w) && Legal(op)
    ensures WatchlistValid(Step(w, op))
    ensures RowOf(Step(w, op).rows, g) == NextRow(w, op, g)
  {
    RowOfNone(w.rows, g);
    match op
    case Evaluate(h, score, now) => EvaluateRow(w, h, score, now, g);
    case AddWhitelist(h, labelCipher) =>
      UpsertWatchRow(w, h, WatchRow(None, labelCipher, Whitelist, NO_FIELDS), (r: WatchRow) => Whitelisted(r, labelCipher, None), g);
    case RemoveEntry(h) => RemoveWatchRow(w.rows, h, g);
    case MergeInto(from, to) => MergeWatchRow(w, from, to, g);
    case _ => ColumnRow(w, op, g);
  }

  // ---------------------------------------------------------------- what one step keeps

  /** The later row is no milder and remembers no later a first alert. */
  predicate NotWeaker(a: WatchRow, b: WatchRow) {
    && (a.fields.severity.Some? ==> b.fields.severity.Some? && a.fields.severity.value <= b.fields.severity.value)
    && (a.fields.firstAlert.Some? ==>
          b.fields.firstAlert.Some? && b.fields.firstAlert.value <= a.fields.firstAlert.value)
  }

  /** The clearing upsert overwrites the severity: by itself it keeps the row from weakening
      exactly when the new severity is not below the old one. */
  lemma ClearingUpsertNeedsCallRule(r: WatchRow, severity: int, now: int)
    ensures NotWeaker(r, Realert(r, None, Some(severity), None, Some(now))) <==>
            r.fields.severity.None? || severity >= r.fields.severity.value
  {}

  /** Where a step sends plate g. */
  function Follow(op: Op, g: Hash): Hash {
    if op.MergeInto? && g == op.from then op.to else g
  }

  predicate Forgets(op: Op, g: Hash) {
    (op.AddWhitelist? || op.RemoveEntry?) && op.h == g
  }

  ghost function MergePartner(w: Watchlist, op: Op, g: Hash): Option<WatchRow>
    requires op.MergeInto?
  { if g == op.from then RowOf(w.rows, op.to) else if g == op.to then RowOf(w.rows, op.from) else None }

  /** A strict upgrade, an unack, or a merge with a row that is not acknowledged. */
  ghost predicate LosesAck(w: Watchlist, op: Op, g: Hash) {
    || op == Unack(g)
    || (op.Evaluate? && op.h == g && Upgrades(RowOf(w.rows, g), op.score))
    || (op.MergeInto? && MergePartner(w, op, g).Some? && MergePartner(w, op, g).value.fields.acked.None?)
  }

  /** Except for whitelisting and removal, a step keeps a plate on the list, no milder and first
      alerted no later, and it drops an acknowledgement exactly in the three ways named. */
  lemma StepKeepsAlert(w: Watchlist, op: Op, g: Hash)
    requires WatchlistValid(w) && Legal(op) && !Forgets(op, g)
    requires RowOf(w.rows, g).Some?
    ensures var (was, now) := (RowOf(w.rows, g), RowOf(Step(w, op).rows, Follow(op, g)));
            && now.Some?
            && NotWeaker(was.value, now.value)
            && (was.value.fields.acked.Some? ==> (now.value.fields.acked.None? <==> LosesAck(w, op, g)))
  {
    StepRow(w, op, Follow(op, g));
    RowSeverity(w, g);
    if op.MergeInto? {
      RowSeverity(w, op.from);
      RowSeverity(w, op.to);
      MergeKeepsAlert(w, op, g);
    } else if op.Evaluate? && op.h == g {
      EvaluateKeepsAlert(w, op, g);
    }
  }

  lemma RowSeverity(w: Watchlist, h: Hash)
    requires WatchlistValid(w)
    ensures RowOf(w.rows, h).Some? ==> SeverityAllowed(RowOf(w.rows, h).value.fields.severity)
  {}

  lemma MergeKeepsAlert(w: Watchlist, op: Op, g: Hash)
    requires op.MergeInto? && op.from != op.to && RowOf(w.rows, g).Some?
    requires forall h :: RowOf(w.rows, h).Some? && (h == op.from || h == op.to) ==>
               SeverityAllowed(RowOf(w.rows, h).value.fields.severity)
    ensures var (was, now) := (RowOf(w.rows, g), NextRow(w, op, Follow(op, g)));
            && now.Some? && NotWeaker(was.value, now.value)
            && (was.value.fields.acked.Some? ==>
                  (now.value.fields.acked.None? <==>
                     MergePartner(w, op, g).Some? && MergePartner(w, op, g).value.fields.acked.None?))
  {}

  lemma EvaluateKeepsAlert(w: Watchlist, op: Op, g: Hash)
    requires op.Evaluate? && op.h == g && RowOf(w.rows, g).Some?
    requires SeverityAllowed(RowOf(w.rows, g).value.fields.severity)
    ensures var (was, now) := (RowOf(w.rows, g), NextRow(w, op, g));
            && now.Some? && NotWeaker(was.value, now.value)
            && (was.value.fields.acked.Some? ==> (now.value.fields.acked.None? <==> Upgrades(was, op.score)))
  {}

  // ---------------------------------------------------------------- alert times

  predicate TimesOrdered(r: WatchRow, clock: int) {
    && (r.fields.firstAlert.Some? <==> r.fields.lastAlert.Some?)
    && (r.fields.firstAlert.Some? ==> r.fields.firstAlert.value <= r.fields.lastAlert.value <= clock)
  }

  ghost predicate AllTimesOrdered(w: Watchlist, clock: int) {
    forall h :: RowOf(w.rows, h).Some? ==> TimesOrdered(RowOf(w.rows, h).value, clock)
  }

  function ClockAfter(op: Op, clock: int): int { if op.Evaluate? then op.now else clock }

  lemma NextTimes(w: Watchlist, op: Op, clock: int, g: Hash)
    requires Legal(op) && AllTimesOrdered(w, clock) && (op.Evaluate? ==> op.now >= clock)
    ensures NextRow(w, op, g).Some? ==> TimesOrdered(NextRow(w, op, g).value, ClockAfter(op, clock))
  {
    assert RowOf(w.rows, g).Some? ==> TimesOrdered(RowOf(w.rows, g).value, clock);
    if op.MergeInto? {
      assert RowOf(w.rows, op.from).Some? ==> TimesOrdered(RowOf(w.rows, op.from).value, clock);
    }
  }

  lemma StepKeepsTimes(w: Watchlist, op: Op, clock: int)
    requires WatchlistValid(w) && Legal(op) && AllTimesOrdered(w, clock)
    requires op.Evaluate? ==> op.now >= clock
    ensures AllTimesOrdered(Step(w, op), ClockAfter(op, clock))
  {
    forall h | RowOf(Step(w, op).rows, h).Some?
      ensures TimesOrdered(RowOf(Step(w, op).rows, h).value, ClockAfter(op, clock))
    {
      StepRow(w, op, h);
      NextTimes(w, op, clock, h);
    }
  }

  // ---------------------------------------------------------------- whitelist rows

  /** Whitelisting cleared every alert column of the row. */
  predicate Clean(r: WatchRow) {
    r.kind.Whitelist? ==> r.fields.severity.None? && r.fields.firstAlert.None? && r.fields.lastAlert.None?
  }

  ghost predicate AllClean(w: Watchlist) {
    forall h :: RowOf(w.rows, h).Some? ==> Clean(RowOf(w.rows, h).value)
  }

  predicate HasAlertColumns(f: Fields) { f.severity.Some? || f.firstAlert.Some? || f.lastAlert.Some? }

  /** A merge of a row with alert columns into a whitelisted plate. */
  ghost predicate Soils(w: Watchlist, op: Op) {
    op.MergeInto? && IsWhitelisted(RowOf(w.rows, op.to))
    && RowOf(w.rows, op.from).Some? && HasAlertColumns(RowOf(w.rows, op.from).value.fields)
  }

  /** Only such a merge puts alert columns on a whitelist row, because the destination keeps its kind. */
  lemma StepKeepsClean(w: Watchlist, op: Op)
    requires WatchlistValid(w) && Legal(op) && AllClean(w)
    ensures AllClean(Step(w, op)) <==> !Soils(w, op)
  {
    if Soils(w, op) {
      StepRow(w, op, op.to);
      assert !Clean(RowOf(Step(w, op).rows, op.to).value);
    } else {
      forall h | RowOf(Step(w, op).rows, h).Some? ensures Clean(RowOf(Step(w, op).rows, h).value) {
        StepRow(w, op, h);
        assert RowOf(w.rows, h).Some? ==> Clean(RowOf(w.rows, h).value);
        if op.MergeInto? {
          assert RowOf(w.rows, op.from).Some? ==> Clean(RowOf(w.rows, op.from).value);
        }
      }
    }
  }

  // ---------------------------------------------------------------- whole runs

  ghost function Run(w: Watchlist, ops: seq<Op>): Watchlist
    decreases ops
  { if ops == [] then w else Run(Step(w, ops[0]), ops[1..]) }

  /** Whitelisting a plate and then merging an alerted one into it leaves a whitelist row with a
      severity and alert times. */
  lemma WhitelistGainsSeverity(a: Hash, b: Hash, now: int)
    requires a != b
    ensures RowOf(Run(Watchlist(map[], 1), [AddWhitelist(b, None), Evaluate(a, 3, now), MergeInto(a, b)]).rows, b)
            == Some(WatchRow(Some(b), None, Whitelist, Fields(Some(3), Some(now), Some(now), None, None)))
  {
    var w0 := Watchlist(map[], 1);
    var (op0, op1, op2) := (AddWhitelist(b, None), Evaluate(a, 3, now), MergeInto(a, b));
    var w1 := Step(w0, op0);
    var w2 := Step(w1, op1);
    forall h | h == a || h == b
      ensures WatchlistValid(w2) && RowOf(w1.rows, h) == NextRow(w0, op0, h) && RowOf(w2.rows, h) == NextRow(w1, op1, h)
    {
      StepRow(w0, op0, h);
      StepRow(w1, op1, h);
    }
    StepRow(w2, op2, b);
    RunThree(w0, op0, op1, op2);
  }

  lemma RunThree(w: Watchlist, a: Op, b: Op, c: Op)
    ensures Run(w, [a, b, c]) == Step(Step(Step(w, a), b), c)
  {
    assert [a, b, c][1..] == [b, c] && [b, c][1..] == [c] && [c][1..] == [];
    assert Run(Step(w, a), [b, c]) == Run(Step(Step(w, a), b), [c]);
  }

  ghost predicate SeveritiesWithin(w: Watchlist) {
    forall h :: RowOf(w.rows, h).Some? && RowOf(w.rows, h).value.fields.severity.Some? ==>
      2 <= RowOf(w.rows, h).value.fields.severity.value <= 5
  }

  /** Over any run from an empty list every severity of a plate lies from 2 to 5. */
  lemma {:induction false} RunSeverities(w: Watchlist, ops: seq<Op>, clock: int)
    requires WatchlistValid(w) && LegalRun(ops, clock) && SeveritiesWithin(w)
    ensures SeveritiesWithin(Run(w, ops))
    decreases ops
  {
    if ops != [] {
      StepSeverities(w, ops[0]);
      StepKeepsValid(w, ops[0]);
      RunSeverities(Step(w, ops[0]), ops[1..], ClockAfter(ops[0], clock));
    }
  }

  lemma StepSeverities(w: Watchlist, op: Op)
    requires WatchlistValid(w) && Legal(op) && SeveritiesWithin(w)
    ensures SeveritiesWithin(Step(w, op))
  {
    forall h | RowOf(Step(w, op).rows, h).Some? && RowOf(Step(w, op).rows, h).value.fields.severity.Some?
      ensures 2 <= RowOf(Step(w, op).rows, h).value.fields.severity.value <= 5
    {
      StepRow(w, op, h);
    }
  }

  function FollowAll(ops: seq<Op>, g: Hash): Hash
    decreases ops
  { if ops == [] then g else FollowAll(ops[1..], Follow(ops[0], g)) }

  /** No step of the run whitelists or removes the plate, under the name it has by then. */
  predicate NeverForgotten(ops: seq<Op>, g: Hash)
    decreases ops
  { ops != [] ==> !Forgets(ops[0], g) && NeverForgotten(ops[1..], Follow(ops[0], g)) }

  /** Every step is legal and alert times never go backwards. */
  predicate LegalRun(ops: seq<Op>, clock: int)
    decreases ops
  {
    ops != [] ==>
      Legal(ops[0]) && (ops[0].Evaluate? ==> ops[0].now >= clock) && LegalRun(ops[1..], ClockAfter(ops[0], clock))
  }

  function FinalClock(ops: seq<Op>, clock: int): int
    decreases ops
  { if ops == [] then clock else FinalClock(ops[1..], ClockAfter(ops[0], clock)) }

  /** Over any run, in any order and through any merges: the table keeps its constraints, first
      alerts stay at or before last alerts, and a plate that is never whitelisted or removed is
      still listed at the end, no milder and with no later a first alert than at the start. */
  lemma {:induction false} RunKeepsAlert(w: Watchlist, ops: seq<Op>, clock: int, g: Hash)
    requires WatchlistValid(w) && AllTimesOrdered(w, clock) && LegalRun(ops, clock)
    ensures WatchlistValid(Run(w, ops)) && AllTimesOrdered(Run(w, ops), FinalClock(ops, clock))
    ensures RowOf(w.rows, g).Some? && NeverForgotten(ops, g) ==>
              var end := RowOf(Run(w, ops).rows, FollowAll(ops, g));
              end.Some? && NotWeaker(RowOf(w.rows, g).value, end.value)
    decreases ops
  {
    if ops != [] {
      var op := ops[0];
      StepRow(w, op, g);
      StepKeepsTimes(w, op, clock);
      RunKeepsAlert(Step(w, op), ops[1..], ClockAfter(op, clock), Follow(op, g));
      if RowOf(w.rows, g).Some? && NeverForgotten(ops, g) {
        StepKeepsAlert(w, op, g);
      }
    }
  }

  /** The plate is listed and acknowledged at every point of the run, under the name it has by then. */
  ghost predicate AckedThroughout(w: Watchlist, ops: seq<Op>, g: Hash)
    decreases ops
  {
    && RowOf(w.rows, g).Some? && RowOf(w.rows, g).value.fields.acked.Some?
    && (ops != [] ==> AckedThroughout(Step(w, ops[0]), ops[1..], Follow(ops[0], g)))
  }

  ghost predicate NeverLosesAck(w: Watchlist, ops: seq<Op>, g: Hash)
    decreases ops
  { ops != [] ==> !LosesAck(w, ops[0], g) && NeverLosesAck(Step(w, ops[0]), ops[1..], Follow(ops[0], g)) }

  /** An acknowledgement lasts through a run if and only if no step of the run is a strict upgrade of
      the plate, an unack, or a merge with a row that is not acknowledged. */
  lemma {:induction false} RunKeepsAckIff(w: Watchlist, ops: seq<Op>, clock: int, g: Hash)
    requires WatchlistValid(w) && LegalRun(ops, clock) && NeverForgotten(ops, g)
    requires RowOf(w.rows, g).Some? && RowOf(w.rows, g).value.fields.acked.Some?
    ensures AckedThroughout(w, ops, g) <==> NeverLosesAck(w, ops, g)
    decreases ops
  {
    if ops != [] {
      var op := ops[0];
      StepRow(w, op, g);
      StepKeepsAlert(w, op, g);
      if !LosesAck(w, op, g) { RunKeepsAckIff(Step(w, op), ops[1..], ClockAfter(op, clock), Follow(op, g)); }
    }
  }

  ghost predicate CleanThroughout(w: Watchlist, ops: seq<Op>)
    decreases ops
  { AllClean(w) && (ops != [] ==> CleanThroughout(Step(w, ops[0]), ops[1..])) }

  ghost predicate NeverSoils(w: Watchlist, ops: seq<Op>)
    decreases ops
  { ops != [] ==> !Soils(w, ops[0]) && NeverSoils(Step(w, ops[0]), ops[1..]) }

  /** Whitelist rows stay free of alert columns through a run if and only if no step of the run merges
      a row that has some into a whitelisted plate. */
  lemma {:induction false} RunKeepsCleanIff(w: Watchlist, ops: seq<Op>, clock: int)
    requires WatchlistValid(w) && LegalRun(ops, clock) && AllClean(w)
    ensures CleanThroughout(w, ops) <==> NeverSoils(w, ops)
    decreases ops
  {
    if ops != [] {
      StepKeepsClean(w, ops[0]);
      StepKeepsValid(w, ops[0]);
      if !Soils(w, ops[0]) { RunKeepsCleanIff(Step(w, ops[0]), ops[1..], ClockAfter(ops[0], clock)); }
    }
  }

  lemma StepKeepsValid(w: Watchlist, op: Op)
    requires WatchlistValid(w) && Legal(op)
    ensures WatchlistValid(Step(w, op))
  {
    StepRow(w, op, []);
  }

  // ---------------------------------------------------------------- the requests

  datatype RemoveResponse = Removed | NoSuchRow | NotAWhitelistRow

  /** No row but that of plate h has changed. */
  ghost predicate OthersKept(was: Watchlist, now: Watchlist, h: Hash) {
    forall g :: g != h ==> RowOf(now.rows, g) == RowOf(was.rows, g)
  }

  /** What an evaluation does to the row of its plate. A whitelisted plate and a score below 2 leave it
      alone. Otherwise the plate is alerted with the time of this alert as its last one; a score above
      the old severity replaces it, clears the acknowledgement and goes out, and any other score keeps
      both; it goes out for a plate without a row as well. */
  predicate Evaluated(was: Option<WatchRow>, row: Option<WatchRow>, h: Hash, score: int, now: int, emitted: bool) {
    if (was.Some? && was.value.kind.Whitelist?) || score < 2 then row == was && !emitted
    else if was.None? then emitted && row == Some(WatchRow(Some(h), None, Alerted, Fields(Some(score), Some(now), Some(now), None, None)))
    else
      && row.Some? && row.value.hash == Some(h) && row.value.kind.Alerted? && row.value.labelCipher == was.value.labelCipher
      && var (f, g) := (was.value.fields, row.value.fields);
         && g.lastAlert == Some(now) && g.firstAlert == (if f.firstAlert.Some? then f.firstAlert else Some(now)) && g.notes == f.notes
         && if f.severity.None? || score > f.severity.value then emitted && g.severity == Some(score) && g.acked.None?
            else !emitted && g.severity == f.severity && g.acked == f.acked
  }

  lemma EvaluatedNext(w: Watchlist, h: Hash, score: int, now: int)
    requires WatchlistValid(w)
    ensures Evaluated(RowOf(w.rows, h), NextRow(w, Evaluate(h, score, now), h), h, score, now, Upgrades(RowOf(w.rows, h), score))
  {
    RowSeverity(w, h);
    RowOfNone(w.rows, h);
  }

  lemma StepOthers(w: Watchlist, op: Op, h: Hash)
    requires WatchlistValid(w) && Legal(op) && !op.MergeInto? && op.h == h
    ensures OthersKept(w, Step(w, op), h)
  {
    forall g | g != h ensures RowOf(Step(w, op).rows, g) == RowOf(w.rows, g) { StepRow(w, op, g); }
  }

  class Desk {
    var table: Watchlist

    ghost predicate Valid()
      reads this
    { WatchlistValid(table) }

    method Lookup(h: Hash) returns (row: Option<WatchRow>)
      requires Valid()
      ensures row == RowOf(table.rows, h)
    {
      if !HasHash(table.rows, h) { return None; }
      var id :| id in table.rows && table.rows[id].hash == Some(h);
      RowOfIs(table.rows, id, h);
      return Some(table.rows[id]);
    }

    /** The tail of EvaluatePlate: an alert goes out exactly for a new row or a strict upgrade. */
    method EvaluatePlate(h: Hash, score: int, now: int) returns (emitted: bool)
      requires Valid() && score <= 5
      modifies this
      ensures Valid() && table == Step(old(table), Evaluate(h, score, now))
      ensures emitted <==> Upgrades(RowOf(old(table).rows, h), score)
      ensures OthersKept(old(table), table, h)
      ensures Evaluated(RowOf(old(table).rows, h), RowOf(table.rows, h), h, score, now, emitted)
    {
      StepRow(table, Evaluate(h, score, now), h);
      StepOthers(table, Evaluate(h, score, now), h);
      RowSeverity(table, h);
      EvaluatedNext(table, h, score, now);
      var existing := Lookup(h);
      var severity := if IsWhitelisted(existing) then 0 else score;
      if severity < 2 { return false; }
      var existingSeverity := SeverityOf(existing);
      var increased := severity > existingSeverity;
      if increased {
        table := UpsertAlerted(table, h, Some(severity), Some(now));
      } else {
        table := UpsertAlertedPreserveAck(table, h, Some(severity), Some(now));
      }
      return existing.None? || increased;
    }

    method AckAlert(h: Hash, now: int) returns (found: bool)
      requires Valid()
      modifies this
      ensures Valid() && table == Step(old(table), Ack(h, now))
      ensures found <==> RowOf(old(table).rows, h).Some?
      ensures OthersKept(old(table), table, h)
      ensures found ==> var was := RowOf(old(table).rows, h).value;
                RowOf(table.rows, h) == Some(was.(fields := was.fields.(acked := Some(now))))
    {
      StepRow(table, Ack(h, now), h);
      StepOthers(table, Ack(h, now), h);
      RowOfNone(table.rows, h);
      found := HasHash(table.rows, h);
      table := SetAck(table, h, Some(now));
    }

    method UnackAlert(h: Hash) returns (found: bool)
      requires Valid()
      modifies this
      ensures Valid() && table == Step(old(table), Unack(h))
      ensures found <==> RowOf(old(table).rows, h).Some?
      ensures OthersKept(old(table), table, h)
      ensures found ==> var was := RowOf(old(table).rows, h).value;
                RowOf(table.rows, h) == Some(was.(fields := was.fields.(acked := None)))
    {
      StepRow(table, Unack(h), h);
      StepOthers(table, Unack(h), h);
      RowOfNone(table.rows, h);
      found := HasHash(table.rows, h);
      table := SetAck(table, h, None);
    }

    method AlertNote(h: Hash, notes: string) returns (found: bool)
      requires Valid()
      modifies this
      ensures Valid() && table == Step(old(table), SetNotes(h, notes))
      ensures found <==> RowOf(old(table).rows, h).Some?
      ensures OthersKept(old(table), table, h)
      ensures found ==> var was := RowOf(old(table).rows, h).value;
                RowOf(table.rows, h) == Some(was.(fields := was.fields.(notes := if notes == "" then None else Some(notes))))
    {
      StepRow(table, SetNotes(h, notes), h);
      StepOthers(table, SetNotes(h, notes), h);
      RowOfNone(table.rows, h);
      found := HasHash(table.rows, h);
      table := SetNotesCell(table, h, if notes != "" then Some(notes) else None);
    }

    /** Reports the severity of the alert it silenced, if there was one. */
    method AddToWhitelist(h: Hash, labelCipher: Option<Bytes>) returns (suppressed: Option<int>)
      requires Valid()
      modifies this
      ensures Valid() && table == Step(old(table), AddWhitelist(h, labelCipher))
      ensures suppressed.Some? <==> RowOf(old(table).rows, h).Some? && RowOf(old(table).rows, h).value.kind.Alerted?
      ensures suppressed.Some? ==> suppressed.value == SeverityOf(RowOf(old(table).rows, h))
      ensures suppressed.Some? ==>
                suppressed.value == (if RowOf(old(table).rows, h).value.fields.severity.Some?
                                     then RowOf(old(table).rows, h).value.fields.severity.value else 0)
      ensures OthersKept(old(table), table, h)
      ensures var was := RowOf(old(table).rows, h);
              RowOf(table.rows, h) ==
              Some(WatchRow(Some(h), if labelCipher.Some? || was.None? then labelCipher else was.value.labelCipher, Whitelist,
                            Fields(None, None, None, None, if was.Some? then was.value.fields.notes else None)))
    {
      StepRow(table, AddWhitelist(h, labelCipher), h);
      StepOthers(table, AddWhitelist(h, labelCipher), h);
      var existing := Lookup(h);
      table := UpsertWhitelist(table, h, labelCipher);
      return if existing.Some? && existing.value.kind.Alerted? then Some(SeverityOf(existing)) else None;
    }

    /** Refuses to remove an alert through the whitelist endpoint. */
    method RemoveWhitelistEntry(h: Hash) returns (r: RemoveResponse)
      requires Valid()
      modifies this
      ensures Valid() && table == Step(old(table), RemoveEntry(h))
      ensures r.NoSuchRow? <==> RowOf(old(table).rows, h).None?
      ensures r.Removed? <==> RowOf(old(table).rows, h).Some? && RowOf(old(table).rows, h).value.kind.Whitelist?
      ensures OthersKept(old(table), table, h)
      ensures RowOf(table.rows, h) == if r.Removed? then None else RowOf(old(table).rows, h)
    {
      StepRow(table, RemoveEntry(h), h);
      StepOthers(table, RemoveEntry(h), h);
      var prior := Lookup(h);
      if prior.None? { return NoSuchRow; }
      if !prior.value.kind.Whitelist? { return NotAWhitelistRow; }
      table := table.(rows := RemoveWatch(table.rows, h));
      return Removed;
    }
  }
}
