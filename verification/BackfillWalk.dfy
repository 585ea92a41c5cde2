/**
  The backfill's walk over the routes: the keyset queries of internal/db/alpr_backfill_jobs.sql.go and the
  worker loop of internal/worker/alpr_backfill.go (processJob, fetchRouteBatch, processRoute).
*/
module BackfillWalk {
  import opened Common
  import opened Ordering
  import BackfillJobs

  type Filters = BackfillJobs.Filters

  /** A row of routes, with the numbers of its segments that have a camera file on disk. */
  datatype Route = Route(id: nat, dongle: string, name: string, startTime: Option<int>, segments: seq<nat>)

  /** The arguments of a query; None is NULL. */
  datatype Params = Params(fromDate: Option<int>, toDate: Option<int>, dongle: Option<string>, after: Option<string>)

  /** The collation of route names: any strict total order. */
  type Collation = (string, string) -> bool

  ghost predicate TotalOrder(lt: Collation) {
    StrictOrder(lt) && forall a, b :: a != b ==> lt(a, b) || lt(b, a)
  }

  // ---------------------------------------------------------------- parameters

  /** unicode.IsSpace */
  predicate IsSpace(c: char) {
    var u := c as int;
    9 <= u <= 13 || u == 0x20 || u == 0x85 || u == 0xA0 || u == 0x1680 || 0x2000 <= u <= 0x200A
    || u == 0x2028 || u == 0x2029 || u == 0x202F || u == 0x205F || u == 0x3000
  }

  /** strings.TrimSpace(s) == "" */
  predicate Blank(s: string) { forall i :: 0 <= i < |s| ==> IsSpace(s[i]) }

  /** The white space that is trimmed: six ASCII characters, and those that Unicode adds. */
  lemma BlankIff(s: string)
    ensures Blank(s) <==> forall c :: c in s ==>
              || c == ' ' || c == '\t' || c == '\n' || c == '\r' || c as int == 11 || c as int == 12
              || c as int in {0x85, 0xA0, 0x1680, 0x2028, 0x2029, 0x202F, 0x205F, 0x3000} || 0x2000 <= c as int < 0x200B
  {
    assert forall i :: 0 <= i < |s| ==> s[i] in s;
  }

  function NonEmpty(s: string): Option<string> { if s != "" then Some(s) else None }

  /** buildCountParams, the handler's reading of the filters. */
  function CountParams(f: Filters, after: string): Params {
    Params(f.fromDate, f.toDate, if Blank(f.dongle) then None else Some(f.dongle), NonEmpty(after))
  }

  /** applyFilters, the worker's reading of the same filters. */
  function ListParams(f: Filters, after: string): Params {
    Params(f.fromDate, f.toDate, NonEmpty(f.dongle), NonEmpty(after))
  }

  /** Handler and worker read the filters alike exactly when the dongle is empty or not blank. */
  lemma ReadersAgreeIff(f: Filters)
    ensures (forall after :: CountParams(f, after) == ListParams(f, after)) <==> f.dongle == "" || !Blank(f.dongle)
  {
    assert CountParams(f, "") == ListParams(f, "") <==> f.dongle == "" || !Blank(f.dongle);
  }

  // ---------------------------------------------------------------- queries

  predicate Selected(r: Route, p: Params) {
    && (p.fromDate.None? || (r.startTime.Some? && r.startTime.value >= p.fromDate.value))
    && (p.toDate.None? || (r.startTime.Some? && r.startTime.value < p.toDate.value))
    && (p.dongle.None? || r.dongle == p.dongle.value)
  }

  predicate Beyond(name: string, token: Option<string>, lt: Collation, newestFirst: bool) {
    token.None? || if newestFirst then lt(name, token.value) else lt(token.value, name)
  }

  /** ORDER BY route_name, id in either direction. */
  predicate Before(a: Route, b: Route, lt: Collation, newestFirst: bool) {
    var (x, y) := if newestFirst then (b, a) else (a, b);
    lt(x.name, y.name) || (x.name == y.name && x.id < y.id)
  }

  function Remaining(table: seq<Route>, p: Params, lt: Collation, newestFirst: bool): seq<Route> {
    OrderBy(Where(table, (r: Route) => Selected(r, p) && Beyond(r.name, p.after, lt, newestFirst)),
            (a: Route, b: Route) => Before(a, b, lt, newestFirst))
  }

  function Limited<T>(s: seq<T>, limit: nat): seq<T> { if limit < |s| then s[..limit] else s }

  /** ListBackfillRoutesAsc and ListBackfillRoutesDesc. */
  function ListBackfillRoutes(table: seq<Route>, p: Params, lt: Collation, newestFirst: bool, limit: nat): seq<Route> {
    Limited(Remaining(table, p, lt, newestFirst), limit)
  }

  /** CountBackfillRoutes, which looks upward from the token whatever the direction of the job. */
  function CountBackfillRoutes(table: seq<Route>, p: Params, lt: Collation): nat {
    |Where(table, (r: Route) => Selected(r, p) && Beyond(r.name, p.after, lt, false))|
  }

  /** The routes of a job in the order it walks them. */
  function AllRoutes(table: seq<Route>, f: Filters, lt: Collation): seq<Route> {
    Remaining(table, ListParams(f, ""), lt, f.newestFirst)
  }

  /** A filter of one space: the handler counts a route that the worker will not list. */
  lemma BlankDongleMiscounted(r: Route, lt: Collation)
    requires r.dongle != " "
    ensures var f := BackfillJobs.Filters(None, None, " ", 0, false);
            CountBackfillRoutes([r], CountParams(f, ""), lt) == 1 && AllRoutes([r], f, lt) == []
  {
    var f := BackfillJobs.Filters(None, None, " ", 0, false);
    assert CountParams(f, "").dongle.None?;
    WhereAll([r], (r: Route) => Selected(r, CountParams(f, "")) && Beyond(r.name, None, lt, false));
    WhereNone([r], (r: Route) => Selected(r, ListParams(f, "")) && Beyond(r.name, None, lt, false));
  }

  ghost predicate DistinctIds(table: seq<Route>) {
    forall i, j :: 0 <= i < j < |table| ==> table[i].id != table[j].id
  }

  ghost predicate DistinctNames(all: seq<Route>) {
    forall i, j :: 0 <= i < j < |all| ==> all[i].name != all[j].name
  }

  ghost predicate Named(all: seq<Route>) { forall i :: 0 <= i < |all| ==> all[i].name != "" }

  /** last_processed_route once the first k routes are behind, as the worker hands it on. */
  function Token(all: seq<Route>, k: nat): string
    requires k <= |all|
  { if k == 0 then "" else all[k - 1].name }

  lemma RoutesOrdered(table: seq<Route>, lt: Collation, newestFirst: bool)
    requires TotalOrder(lt) && DistinctIds(table)
    ensures var less := (a: Route, b: Route) => Before(a, b, lt, newestFirst);
            StrictOrder(less) && Comparable(table, less)
  {
    var less := (a: Route, b: Route) => Before(a, b, lt, newestFirst);
    forall x, y, z | less(x, y) && less(y, z) ensures less(x, z) {}
    forall i, j | 0 <= i < j < |table| ensures less(table[i], table[j]) || less(table[j], table[i]) {
      assert table[i].id != table[j].id;
    }
  }

  lemma {:induction false} WhereDistinct(table: seq<Route>, keep: Route -> bool)
    requires DistinctIds(table)
    ensures DistinctIds(Where(table, keep))
    decreases |table|
  {
    if table != [] {
      WhereDistinct(table[1..], keep);
      forall r | r in Where(table[1..], keep) ensures r.id != table[0].id {
        WhereHas(table[1..], keep, r);
      }
    }
  }

  /** The walk's routes are those the filters select, in strictly ascending walk order. */
  lemma AllRoutesSorted(table: seq<Route>, f: Filters, lt: Collation)
    requires TotalOrder(lt) && DistinctIds(table)
    ensures Sorted(AllRoutes(table, f, lt), (a: Route, b: Route) => Before(a, b, lt, f.newestFirst))
    ensures forall r :: r in AllRoutes(table, f, lt) <==> r in table && Selected(r, ListParams(f, ""))
  {
    var keep := (r: Route) => Selected(r, ListParams(f, "")) && Beyond(r.name, None, lt, f.newestFirst);
    var less := (a: Route, b: Route) => Before(a, b, lt, f.newestFirst);
    WhereDistinct(table, keep);
    RoutesOrdered(Where(table, keep), lt, f.newestFirst);
    OrderBySorts(Where(table, keep), less);
    forall r ensures r in AllRoutes(table, f, lt) <==> r in table && Selected(r, ListParams(f, "")) {
      SameRows(OrderBy(Where(table, keep), less), Where(table, keep), r);
      WhereHas(table, keep, r);
    }
  }

  /** A route that a job asks for: of the device if one is named, and started in the window, of which
      the lower end is included and the upper is not. A route without a start is in no window. */
  predicate AskedFor(r: Route, dongle: string, fromDate: Option<int>, toDate: Option<int>) {
    && (dongle != "" ==> r.dongle == dongle)
    && (fromDate.Some? ==> r.startTime.Some? && !(r.startTime.value < fromDate.value))
    && (toDate.Some? ==> r.startTime.Some? && r.startTime.value < toDate.value)
  }

  /** A job walks exactly the routes it asks for, by name and then id, upward or downward. */
  lemma JobRoutesAre(table: seq<Route>, f: Filters, lt: Collation)
    requires TotalOrder(lt) && DistinctIds(table)
    ensures var all := AllRoutes(table, f, lt);
            && (forall r :: r in all <==> r in table && AskedFor(r, f.dongle, f.fromDate, f.toDate))
            && (forall i, j :: 0 <= i < j < |all| ==>
                  if f.newestFirst then lt(all[j].name, all[i].name) || (all[j].name == all[i].name && all[j].id < all[i].id)
                  else lt(all[i].name, all[j].name) || (all[i].name == all[j].name && all[i].id < all[j].id))
  {
    AllRoutesSorted(table, f, lt);
    var all := AllRoutes(table, f, lt);
    forall i, j | 0 <= i < j < |all| ensures Before(all[i], all[j], lt, f.newestFirst) {}
  }

  /** A handler's count is the number of routes asked for: those of a blank dongle are of any device. */
  lemma CountIs(table: seq<Route>, f: Filters, lt: Collation)
    ensures CountBackfillRoutes(table, CountParams(f, ""), lt) ==
            |Where(table, (r: Route) => AskedFor(r, if Blank(f.dongle) then "" else f.dongle, f.fromDate, f.toDate))|
  {
    var p := CountParams(f, "");
    WhereSame(table, (r: Route) => Selected(r, p) && Beyond(r.name, p.after, lt, false),
              (r: Route) => AskedFor(r, if Blank(f.dongle) then "" else f.dongle, f.fromDate, f.toDate));
  }

  function Dated(f: Filters, fromDate: int, toDate: int): Filters { f.(fromDate := Some(fromDate), toDate := Some(toDate)) }

  /** The jobs of two windows that meet share no route, and together have those of the whole window;
      their counts add up to its count. */
  lemma WindowsSplit(table: seq<Route>, f: Filters, lt: Collation, a: int, b: int, c: int)
    requires TotalOrder(lt) && DistinctIds(table) && a <= b <= c
    ensures var (first, second) := (AllRoutes(table, Dated(f, a, b), lt), AllRoutes(table, Dated(f, b, c), lt));
            && (forall r :: !(r in first && r in second))
            && (forall r :: r in AllRoutes(table, Dated(f, a, c), lt) <==> r in first || r in second)
    ensures CountBackfillRoutes(table, CountParams(Dated(f, a, b), ""), lt)
            + CountBackfillRoutes(table, CountParams(Dated(f, b, c), ""), lt)
            == CountBackfillRoutes(table, CountParams(Dated(f, a, c), ""), lt)
  {
    JobRoutesAre(table, Dated(f, a, b), lt);
    JobRoutesAre(table, Dated(f, b, c), lt);
    JobRoutesAre(table, Dated(f, a, c), lt);
    CountIs(table, Dated(f, a, b), lt);
    CountIs(table, Dated(f, b, c), lt);
    CountIs(table, Dated(f, a, c), lt);
    var dongle := if Blank(f.dongle) then "" else f.dongle;
    WhereUnion(table, (r: Route) => AskedFor(r, dongle, Some(a), Some(b)), (r: Route) => AskedFor(r, dongle, Some(b), Some(c)),
               (r: Route) => AskedFor(r, dongle, Some(a), Some(c)));
  }

  /** A query with a token filters the walk itself. */
  lemma RemainingFiltersWalk(table: seq<Route>, f: Filters, lt: Collation, token: string)
    requires TotalOrder(lt) && DistinctIds(table)
    ensures Remaining(table, ListParams(f, token), lt, f.newestFirst) ==
            Where(AllRoutes(table, f, lt), (r: Route) => Beyond(r.name, NonEmpty(token), lt, f.newestFirst))
  {
    var all := (r: Route) => Selected(r, ListParams(f, "")) && Beyond(r.name, None, lt, f.newestFirst);
    var past := (r: Route) => Beyond(r.name, NonEmpty(token), lt, f.newestFirst);
    var both := (r: Route) => Selected(r, ListParams(f, token)) && Beyond(r.name, NonEmpty(token), lt, f.newestFirst);
    var less := (a: Route, b: Route) => Before(a, b, lt, f.newestFirst);
    WhereTwice(table, all, past, both);
    WhereDistinct(table, all);
    RoutesOrdered(Where(table, all), lt, f.newestFirst);
    WhereOrderBy(Where(table, all), less, past);
  }

  /** After k routes the token leaves exactly the routes from k on. */
  lemma TokenLeavesRest(table: seq<Route>, f: Filters, lt: Collation, k: nat)
    requires TotalOrder(lt) && DistinctIds(table) && k <= |AllRoutes(table, f, lt)|
    requires DistinctNames(AllRoutes(table, f, lt)) && Named(AllRoutes(table, f, lt))
    ensures var all := AllRoutes(table, f, lt);
            Remaining(table, ListParams(f, Token(all, k)), lt, f.newestFirst) == all[k..]
  {
    var all := AllRoutes(table, f, lt);
    var token := Token(all, k);
    var past := (r: Route) => Beyond(r.name, NonEmpty(token), lt, f.newestFirst);
    RemainingFiltersWalk(table, f, lt, token);
    AllRoutesSorted(table, f, lt);
    forall i | 0 <= i < |all| ensures past(all[i]) <==> k <= i { TokenPasses(all, lt, f.newestFirst, k, i); }
    WhereSplits(all, past, k);
  }

  lemma TokenPasses(all: seq<Route>, lt: Collation, newestFirst: bool, k: nat, i: nat)
    requires TotalOrder(lt) && k <= |all| && i < |all| && DistinctNames(all) && Named(all)
    requires Sorted(all, (a: Route, b: Route) => Before(a, b, lt, newestFirst))
    ensures Beyond(all[i].name, NonEmpty(Token(all, k)), lt, newestFirst) <==> k <= i
  {
    if k > 0 { TokenDivides(all, lt, newestFirst, k - 1, i); }
  }

  lemma TokenDivides(all: seq<Route>, lt: Collation, newestFirst: bool, last: nat, i: nat)
    requires TotalOrder(lt) && last < |all| && i < |all| && DistinctNames(all)
    requires Sorted(all, (a: Route, b: Route) => Before(a, b, lt, newestFirst))
    ensures Beyond(all[i].name, Some(all[last].name), lt, newestFirst) <==> last < i
  {
    if i < last {
      assert Before(all[i], all[last], lt, newestFirst) && all[i].name != all[last].name;
    } else if last < i {
      assert Before(all[last], all[i], lt, newestFirst) && all[i].name != all[last].name;
    }
  }

  /** A resume anywhere finds exactly the rest if and only if the job's route names are distinct
      (and none is empty): two devices with a route of the same name lose one of them. */
  lemma ResumableIff(table: seq<Route>, f: Filters, lt: Collation)
    requires TotalOrder(lt) && DistinctIds(table)
    ensures var all := AllRoutes(table, f, lt);
            (forall k | 0 <= k <= |all| :: Remaining(table, ListParams(f, Token(all, k)), lt, f.newestFirst) == all[k..])
            <==> DistinctNames(all) && Named(all)
  {
    var all := AllRoutes(table, f, lt);
    if DistinctNames(all) && Named(all) {
      forall k | 0 <= k <= |all| ensures Remaining(table, ListParams(f, Token(all, k)), lt, f.newestFirst) == all[k..] {
        TokenLeavesRest(table, f, lt, k);
      }
    } else if !Named(all) {
      var i :| 0 <= i < |all| && all[i].name == "";
      assert Token(all, i + 1) == "";
      assert Remaining(table, ListParams(f, Token(all, i + 1)), lt, f.newestFirst) != all[i + 1..];
    } else {
      var i, j :| 0 <= i < j < |all| && all[i].name == all[j].name;
      var token := Token(all, i + 1);
      RemainingFiltersWalk(table, f, lt, token);
      WhereHas(all, (r: Route) => Beyond(r.name, NonEmpty(token), lt, f.newestFirst), all[j]);
      assert all[i + 1..][j - i - 1] == all[j];
      assert Remaining(table, ListParams(f, token), lt, f.newestFirst) != all[i + 1..];
    }
  }

  lemma NamesakesWalked(name: string, lt: Collation, table: seq<Route>, f: Filters)
    requires TotalOrder(lt) && table == [Route(0, "a", name, None, []), Route(1, "b", name, None, [])]
    requires f == BackfillJobs.Filters(None, None, "", 0, false)
    ensures AllRoutes(table, f, lt) == table
  {
    assert !lt(name, name);
    WhereAll(table, (r: Route) => Selected(r, ListParams(f, "")) && Beyond(r.name, None, lt, false));
    assert table[..1] == [table[0]] && [table[0]][..0] == [];
  }

  /** Two devices with a route of the same name: a job that pauses after the first of the two never
      sees the second. */
  lemma NamesakeLost(name: string, lt: Collation)
    requires TotalOrder(lt) && name != ""
    ensures var table := [Route(0, "a", name, None, []), Route(1, "b", name, None, [])];
            var f := BackfillJobs.Filters(None, None, "", 0, false);
            AllRoutes(table, f, lt) == table && Remaining(table, ListParams(f, Token(table, 1)), lt, false) == []
  {
    var table := [Route(0, "a", name, None, []), Route(1, "b", name, None, [])];
    var f := BackfillJobs.Filters(None, None, "", 0, false);
    NamesakesWalked(name, lt, table, f);
    assert !lt(name, name);
    WhereNone(table, (r: Route) => Selected(r, ListParams(f, name)) && Beyond(r.name, Some(name), lt, false));
  }

  /** The count with a token counts along the walk. */
  lemma CountFiltersWalk(table: seq<Route>, f: Filters, lt: Collation, token: string)
    requires TotalOrder(lt) && DistinctIds(table)
    ensures CountBackfillRoutes(table, ListParams(f, token), lt) ==
            |Where(AllRoutes(table, f, lt), (r: Route) => Beyond(r.name, NonEmpty(token), lt, false))|
  {
    var all := (r: Route) => Selected(r, ListParams(f, "")) && Beyond(r.name, None, lt, f.newestFirst);
    var above := (r: Route) => Beyond(r.name, NonEmpty(token), lt, false);
    var both := (r: Route) => Selected(r, ListParams(f, token)) && Beyond(r.name, NonEmpty(token), lt, false);
    var less := (a: Route, b: Route) => Before(a, b, lt, f.newestFirst);
    WhereTwice(table, all, above, both);
    WhereDistinct(table, all);
    RoutesOrdered(Where(table, all), lt, f.newestFirst);
    WhereOrderBy(Where(table, all), less, above);
  }

  /** What CountBackfillRoutes reports from the token: the routes still to come when the job walks
      upward, but the routes already passed before the last one when it walks downward. */
  lemma CountFromToken(table: seq<Route>, f: Filters, lt: Collation, k: nat)
    requires TotalOrder(lt) && DistinctIds(table) && k <= |AllRoutes(table, f, lt)|
    requires DistinctNames(AllRoutes(table, f, lt)) && Named(AllRoutes(table, f, lt))
    ensures var all := AllRoutes(table, f, lt);
            CountBackfillRoutes(table, ListParams(f, Token(all, k)), lt) ==
            if k == 0 then |all| else if f.newestFirst then k - 1 else |all| - k
  {
    var all := AllRoutes(table, f, lt);
    var above := (r: Route) => Beyond(r.name, NonEmpty(Token(all, k)), lt, false);
    CountFiltersWalk(table, f, lt, Token(all, k));
    if k == 0 {
      WhereAll(all, above);
    } else {
      AllRoutesSorted(table, f, lt);
      if f.newestFirst {
        forall i | 0 <= i < |all| ensures above(all[i]) <==> i < k - 1 {
          TokenDividesBack(all, lt, k - 1, i);
        }
        WhereKeepsFront(all, above, k - 1);
      } else {
        forall i | 0 <= i < |all| ensures above(all[i]) <==> k <= i {
          TokenDivides(all, lt, false, k - 1, i);
        }
        WhereSplits(all, above, k);
      }
    }
  }

  /** A count on resume is the number of routes still to come exactly at the start, in an ascending
      job, or in the very middle of a descending one. */
  lemma CountIsRestIff(table: seq<Route>, f: Filters, lt: Collation, k: nat)
    requires TotalOrder(lt) && DistinctIds(table) && k <= |AllRoutes(table, f, lt)|
    requires DistinctNames(AllRoutes(table, f, lt)) && Named(AllRoutes(table, f, lt))
    ensures var (all, p) := (AllRoutes(table, f, lt), ListParams(f, Token(AllRoutes(table, f, lt), k)));
            CountBackfillRoutes(table, p, lt) == |Remaining(table, p, lt, f.newestFirst)|
            <==> k == 0 || !f.newestFirst || k - 1 == |all| - k
  {
    CountFromToken(table, f, lt, k);
    TokenLeavesRest(table, f, lt, k);
  }

  /** Two routes, newest first, paused between them: one is left and none is counted. */
  lemma NewestFirstMiscounted(table: seq<Route>, f: Filters, lt: Collation)
    requires TotalOrder(lt) && DistinctIds(table) && f.newestFirst && |AllRoutes(table, f, lt)| == 2
    requires DistinctNames(AllRoutes(table, f, lt)) && Named(AllRoutes(table, f, lt))
    ensures var (all, p) := (AllRoutes(table, f, lt), ListParams(f, Token(AllRoutes(table, f, lt), 1)));
            CountBackfillRoutes(table, p, lt) == 0 && Remaining(table, p, lt, true) == [all[1]]
  {
    CountFromToken(table, f, lt, 1);
    TokenLeavesRest(table, f, lt, 1);
  }

  lemma TokenDividesBack(all: seq<Route>, lt: Collation, last: nat, i: nat)
    requires TotalOrder(lt) && last < |all| && i < |all| && DistinctNames(all)
    requires Sorted(all, (a: Route, b: Route) => Before(a, b, lt, true))
    ensures Beyond(all[i].name, Some(all[last].name), lt, false) <==> i < last
  {
    if i < last {
      assert Before(all[i], all[last], lt, true) && all[i].name != all[last].name;
    } else if last < i {
      assert Before(all[last], all[i], lt, true) && all[i].name != all[last].name;
    }
  }
}
