/**
  The column algebra of a watchlist merge (internal/api/alpr_corrections.go:
  mergeWatchlistFields, earliestTs, latestTs). Timestamps are integers, NULL is None.
*/
module WatchlistMerge {
  import opened Common

  /** The five columns that a merge of two watchlist rows recomputes. */
  datatype Fields = Fields(
    severity: Option<int>,
    firstAlert: Option<int>,
    lastAlert: Option<int>,
    acked: Option<int>,
    notes: Option<string>)

  const SEPARATOR: string := " | "

  function EarliestTs(a: Option<int>, b: Option<int>): Option<int> {
    match (a, b)
    case (Some(x), Some(y)) => if x < y then a else b
    case (Some(_), None) => a
    case (None, Some(_)) => b
    case (None, None) => None
  }

  function LatestTs(a: Option<int>, b: Option<int>): Option<int> {
    match (a, b)
    case (Some(x), Some(y)) => if x > y then a else b
    case (Some(_), None) => a
    case (None, Some(_)) => b
    case (None, None) => None
  }

  /** NULL counts as 0 in the comparison, but two NULLs stay NULL. */
  function MergeSeverity(from: Option<int>, to: Option<int>): Option<int> {
    var fromSev := if from.Some? then from.value else 0;
    var toSev := if to.Some? then to.value else 0;
    var maxSev := if toSev > fromSev then toSev else fromSev;
    if maxSev > 0 || from.Some? || to.Some? then Some(maxSev) else None
  }

  function MergeNotes(from: Option<string>, to: Option<string>): Option<string> {
    match (from, to)
    case (Some(f), Some(t)) => Some(t + SEPARATOR + f)
    case (Some(_), None) => from
    case (None, Some(_)) => to
    case (None, None) => None
  }

  function MergeFields(from: Fields, to: Fields): Fields {
    Fields(
      MergeSeverity(from.severity, to.severity),
      EarliestTs(from.firstAlert, to.firstAlert),
      LatestTs(from.lastAlert, to.lastAlert),
      if from.acked.Some? && to.acked.Some? then LatestTs(from.acked, to.acked) else None,
      MergeNotes(from.notes, to.notes))
  }

  /** Folding three rows gives the same five columns whichever pair is folded first. */
  lemma MergeAssociative(a: Fields, b: Fields, c: Fields)
    ensures MergeFields(a, MergeFields(b, c)) == MergeFields(MergeFields(a, b), c)
  {
    if a.notes.Some? && b.notes.Some? && c.notes.Some? {
      var (x, y, z) := (a.notes.value, b.notes.value, c.notes.value);
      assert (z + SEPARATOR + y) + SEPARATOR + x == z + SEPARATOR + (y + SEPARATOR + x);
    }
  }

  /** The direction of a merge shows in the notes only, and there exactly when the two
      concatenation orders read differently. */
  lemma MergeCommutative(a: Fields, b: Fields)
    ensures MergeFields(a, b).(notes := None) == MergeFields(b, a).(notes := None)
    ensures MergeFields(a, b) == MergeFields(b, a)
            <==> !(a.notes.Some? && b.notes.Some?)
                 || b.notes.value + SEPARATOR + a.notes.value == a.notes.value + SEPARATOR + b.notes.value
  {}

  /** Any order of pairwise merges over a list of rows, as a binary tree. */
  datatype Grouping = Row(fields: Fields) | Pair(from: Grouping, to: Grouping)

  function Rows(g: Grouping): (rows: seq<Fields>)
    ensures |rows| > 0
  {
    match g
    case Row(f) => [f]
    case Pair(l, r) => Rows(l) + Rows(r)
  }

  function MergeTree(g: Grouping): Fields {
    match g
    case Row(f) => f
    case Pair(l, r) => MergeFields(MergeTree(l), MergeTree(r))
  }

  /** v is the largest value among the non-NULL cells, NULL when there is none. */
  ghost predicate IsMaximum(cells: seq<Option<int>>, v: Option<int>) {
    && (v.None? <==> forall i :: 0 <= i < |cells| ==> cells[i].None?)
    && (v.Some? ==> v in cells)
    && (forall i :: 0 <= i < |cells| && cells[i].Some? && v.Some? ==> cells[i].value <= v.value)
  }

  ghost predicate IsMinimum(cells: seq<Option<int>>, v: Option<int>) {
    && (v.None? <==> forall i :: 0 <= i < |cells| ==> cells[i].None?)
    && (v.Some? ==> v in cells)
    && (forall i :: 0 <= i < |cells| && cells[i].Some? && v.Some? ==> v.value <= cells[i].value)
  }

  function Severities(rows: seq<Fields>): (s: seq<Option<int>>)
    ensures |s| == |rows| && forall i :: 0 <= i < |s| ==> s[i] == rows[i].severity
  { seq(|rows|, i requires 0 <= i < |rows| => rows[i].severity) }

  function FirstAlerts(rows: seq<Fields>): (s: seq<Option<int>>)
    ensures |s| == |rows| && forall i :: 0 <= i < |s| ==> s[i] == rows[i].firstAlert
  { seq(|rows|, i requires 0 <= i < |rows| => rows[i].firstAlert) }

  function LastAlerts(rows: seq<Fields>): (s: seq<Option<int>>)
    ensures |s| == |rows| && forall i :: 0 <= i < |s| ==> s[i] == rows[i].lastAlert
  { seq(|rows|, i requires 0 <= i < |rows| => rows[i].lastAlert) }

  function Acks(rows: seq<Fields>): (s: seq<Option<int>>)
    ensures |s| == |rows| && forall i :: 0 <= i < |s| ==> s[i] == rows[i].acked
  { seq(|rows|, i requires 0 <= i < |rows| => rows[i].acked) }

  ghost predicate NonNegativeSeverities(rows: seq<Fields>) {
    forall i :: 0 <= i < |rows| && rows[i].severity.Some? ==> rows[i].severity.value >= 0
  }

  ghost predicate AllAcked(rows: seq<Fields>) {
    forall i :: 0 <= i < |rows| ==> rows[i].acked.Some?
  }

  lemma MaximumOfTwo(l: seq<Option<int>>, r: seq<Option<int>>, x: Option<int>, y: Option<int>)
    requires IsMaximum(l, x) && IsMaximum(r, y)
    ensures IsMaximum(l + r, LatestTs(x, y))
  {
    var both := l + r;
    assert forall i :: 0 <= i < |l| ==> both[i] == l[i];
    assert forall i :: 0 <= i < |r| ==> both[|l| + i] == r[i];
  }

  lemma MinimumOfTwo(l: seq<Option<int>>, r: seq<Option<int>>, x: Option<int>, y: Option<int>)
    requires IsMinimum(l, x) && IsMinimum(r, y)
    ensures IsMinimum(l + r, EarliestTs(x, y))
  {
    var both := l + r;
    assert forall i :: 0 <= i < |l| ==> both[i] == l[i];
    assert forall i :: 0 <= i < |r| ==> both[|l| + i] == r[i];
  }

  /** What f must be to stand for all of rows. */
  ghost predicate Summarises(f: Fields, rows: seq<Fields>) {
    && IsMaximum(Severities(rows), f.severity)
    && IsMinimum(FirstAlerts(rows), f.firstAlert)
    && IsMaximum(LastAlerts(rows), f.lastAlert)
    && (f.acked.Some? <==> AllAcked(rows))
    && (f.acked.Some? ==> IsMaximum(Acks(rows), f.acked))
  }

  lemma AckOfTwo(a: seq<Fields>, b: seq<Fields>, x: Fields, y: Fields)
    requires Summarises(x, a) && Summarises(y, b)
    ensures var acked := MergeFields(x, y).acked;
            (acked.Some? <==> AllAcked(a + b)) && (acked.Some? ==> IsMaximum(Acks(a + b), acked))
  {
    assert AllAcked(a + b) <==> AllAcked(a) && AllAcked(b) by {
      assert forall i :: 0 <= i < |a| ==> (a + b)[i] == a[i];
      assert forall i :: 0 <= i < |b| ==> (a + b)[|a| + i] == b[i];
    }
    if x.acked.Some? && y.acked.Some? {
      assert Acks(a + b) == Acks(a) + Acks(b);
      MaximumOfTwo(Acks(a), Acks(b), x.acked, y.acked);
    }
  }

  lemma SeverityOfTwo(a: seq<Fields>, b: seq<Fields>, x: Fields, y: Fields)
    requires NonNegativeSeverities(a) && NonNegativeSeverities(b)
    requires Summarises(x, a) && Summarises(y, b)
    ensures IsMaximum(Severities(a + b), MergeFields(x, y).severity)
  {
    assert Severities(a + b) == Severities(a) + Severities(b);
    MaximumOfTwo(Severities(a), Severities(b), x.severity, y.severity);
    assert x.severity.Some? ==> x.severity.value >= 0;
    assert y.severity.Some? ==> y.severity.value >= 0;
    assert MergeSeverity(x.severity, y.severity) == LatestTs(x.severity, y.severity);
  }

  lemma SummaryOfTwo(a: seq<Fields>, b: seq<Fields>, x: Fields, y: Fields)
    requires NonNegativeSeverities(a) && NonNegativeSeverities(b)
    requires Summarises(x, a) && Summarises(y, b)
    ensures Summarises(MergeFields(x, y), a + b)
  {
    SeverityOfTwo(a, b, x, y);
    AckOfTwo(a, b, x, y);
    assert FirstAlerts(a + b) == FirstAlerts(a) + FirstAlerts(b);
    MinimumOfTwo(FirstAlerts(a), FirstAlerts(b), x.firstAlert, y.firstAlert);
    assert LastAlerts(a + b) == LastAlerts(a) + LastAlerts(b);
    MaximumOfTwo(LastAlerts(a), LastAlerts(b), x.lastAlert, y.lastAlert);
  }

  lemma SummaryOfOne(f: Fields)
    ensures Summarises(f, [f])
  {
    var rows := [f];
    assert rows[0] == f;
    assert Severities(rows) == [f.severity] && FirstAlerts(rows) == [f.firstAlert];
    assert LastAlerts(rows) == [f.lastAlert] && Acks(rows) == [f.acked];
    assert [f.severity][0] == f.severity && [f.firstAlert][0] == f.firstAlert;
    assert [f.lastAlert][0] == f.lastAlert && [f.acked][0] == f.acked;
  }

  /** Whatever the grouping, the merged row carries the highest severity, the earliest first
      alert and the latest last alert of all rows, and it is acknowledged exactly when every
      row was, at the latest of their acknowledgement times. */
  lemma {:induction false} MergeTreeSummary(g: Grouping)
    requires NonNegativeSeverities(Rows(g))
    ensures Summarises(MergeTree(g), Rows(g))
  {
    match g
    case Row(f) =>
      SummaryOfOne(f);
    case Pair(l, r) =>
      var (a, b) := (Rows(l), Rows(r));
      assert forall i :: 0 <= i < |a| ==> Rows(g)[i] == a[i];
      assert forall i :: 0 <= i < |b| ==> Rows(g)[|a| + i] == b[i];
      MergeTreeSummary(l);
      MergeTreeSummary(r);
      SummaryOfTwo(a, b, MergeTree(l), MergeTree(r));
  }

  /** Left-to-right merge of a non-empty list, the canonical grouping. */
  function MergeChain(rows: seq<Fields>): Fields
    requires |rows| > 0
  {
    if |rows| == 1 then rows[0]
    else MergeFields(MergeChain(rows[..|rows| - 1]), rows[|rows| - 1])
  }

  lemma {:induction false} MergeChainConcat(a: seq<Fields>, b: seq<Fields>)
    requires |a| > 0 && |b| > 0
    ensures MergeChain(a + b) == MergeFields(MergeChain(a), MergeChain(b))
    decreases |b|
  {
    assert (a + b)[..|a + b| - 1] == a + b[..|b| - 1];
    if |b| == 1 {
      assert a + b[..0] == a;
    } else {
      MergeChainConcat(a, b[..|b| - 1]);
      MergeAssociative(MergeChain(a), MergeChain(b[..|b| - 1]), b[|b| - 1]);
    }
  }

  /** All five columns, notes included, depend on the order of the rows but not on the grouping. */
  lemma {:induction false} GroupingIrrelevant(g: Grouping)
    ensures MergeTree(g) == MergeChain(Rows(g))
  {
    match g
    case Row(f) =>
    case Pair(l, r) =>
      GroupingIrrelevant(l);
      GroupingIrrelevant(r);
      MergeChainConcat(Rows(l), Rows(r));
  }
}
