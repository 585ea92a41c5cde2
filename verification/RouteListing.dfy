/** The filtered route list and its count (internal/db/routes_custom.go). */
module RouteListing {
  import opened Common
  import opened Ordering

  datatype Route = Route(id: int, dongle: string, startTime: Option<int>, preserved: bool, starred: bool)

  datatype Trip = Trip(routeId: int, durationSeconds: Option<int>, distanceMeters: Option<real>)

  /** routes, trips, route_tags, and the routes that have events. */
  datatype Db = Db(routes: seq<Route>, trips: seq<Trip>, tags: set<(int, string)>, events: set<int>)

  ghost predicate UniqueIds(routes: seq<Route>) {
    forall i, j :: 0 <= i < j < |routes| ==> routes[i].id != routes[j].id
  }

  /** trips.route_id UNIQUE */
  ghost predicate OneTripPerRoute(trips: seq<Trip>) {
    forall i, j :: 0 <= i < j < |trips| ==> trips[i].routeId != trips[j].routeId
  }

  // ---------------------------------------------------------------- the request

  datatype Filter = Filter(dongle: string, fromTime: Option<int>, toTime: Option<int>, preserved: Option<bool>,
                           minDuration: Option<int>, maxDuration: Option<int>, minDistance: Option<real>,
                           maxDistance: Option<real>, hasEvents: Option<bool>, starred: Option<bool>, tags: seq<string>)

  datatype SortKey = DateDesc | DateAsc | DurationDesc | DistanceDesc

  function ParseSort(k: string): SortKey {
    match k
    case "date_asc" => DateAsc
    case "duration_desc" => DurationDesc
    case "distance_desc" => DistanceDesc
    case _ => DateDesc
  }

  /** A row of the LEFT JOIN. */
  datatype Row = Row(route: Route, trip: Option<Trip>) {
    function Duration(): Option<int> { if trip.Some? then trip.value.durationSeconds else None }
    function Distance(): Option<real> { if trip.Some? then trip.value.distanceMeters else None }
  }

  /** What the caller asks for: a bound that is given excludes the rows without a value. */
  predicate Meets(db: Db, f: Filter, row: Row) {
    var r := row.route;
    && r.dongle == f.dongle
    && (f.fromTime.Some? ==> r.startTime.Some? && f.fromTime.value <= r.startTime.value)
    && (f.toTime.Some? ==> r.startTime.Some? && r.startTime.value < f.toTime.value)
    && (f.preserved.Some? ==> r.preserved == f.preserved.value)
    && (f.minDuration.Some? ==> row.Duration().Some? && f.minDuration.value <= row.Duration().value)
    && (f.maxDuration.Some? ==> row.Duration().Some? && row.Duration().value <= f.maxDuration.value)
    && (f.minDistance.Some? ==> row.Distance().Some? && f.minDistance.value <= row.Distance().value)
    && (f.maxDistance.Some? ==> row.Distance().Some? && row.Distance().value <= f.maxDistance.value)
    && (f.hasEvents.Some? ==> (r.id in db.events) == f.hasEvents.value)
    && (f.starred.Some? ==> r.starred == f.starred.value)
    && (forall i :: 0 <= i < |f.tags| ==> (r.id, f.tags[i]) in db.tags)
  }

  // ---------------------------------------------------------------- the statement

  datatype Arg =
    | Text(text: string)
    | Timestamptz(time: Option<int>)
    | Bool(flag: Option<bool>)
    | Int4(whole: Option<int>)
    | Float8(amount: Option<real>)
    | Number(n: nat)

  /** AND EXISTS (SELECT 1 FROM route_tags rt<alias> WHERE ... AND rt<alias>.tag = $<placeholder>) */
  datatype TagClause = TagClause(alias: nat, placeholder: nat)

  /** The parts the template leaves open. */
  datatype Query = Query(tagClauses: seq<TagClause>, order: SortKey, limitIdx: nat, offsetIdx: nat)

  predicate Bound(args: seq<Arg>, placeholder: nat) { 1 <= placeholder <= |args| }

  /** $<placeholder> */
  function Param(args: seq<Arg>, placeholder: nat): Arg
    requires Bound(args, placeholder)
  { args[placeholder - 1] }

  /** The WHERE of the template over $1 to $10; an argument of the wrong type matches nothing. */
  predicate FixedWhere(db: Db, args: seq<Arg>, row: Row)
    requires |args| >= 10
  {
    var r := row.route;
    && Param(args, 1).Text? && r.dongle == Param(args, 1).text
    && Param(args, 2).Timestamptz?
    && (Param(args, 2).time.None? || (r.startTime.Some? && r.startTime.value >= Param(args, 2).time.value))
    && Param(args, 3).Timestamptz?
    && (Param(args, 3).time.None? || (r.startTime.Some? && r.startTime.value < Param(args, 3).time.value))
    && Param(args, 4).Bool? && (Param(args, 4).flag.None? || r.preserved == Param(args, 4).flag.value)
    && Param(args, 5).Int4?
    && (Param(args, 5).whole.None? || (row.Duration().Some? && row.Duration().value >= Param(args, 5).whole.value))
    && Param(args, 6).Int4?
    && (Param(args, 6).whole.None? || (row.Duration().Some? && row.Duration().value <= Param(args, 6).whole.value))
    && Param(args, 7).Float8?
    && (Param(args, 7).amount.None? || (row.Distance().Some? && row.Distance().value >= Param(args, 7).amount.value))
    && Param(args, 8).Float8?
    && (Param(args, 8).amount.None? || (row.Distance().Some? && row.Distance().value <= Param(args, 8).amount.value))
    && Param(args, 9).Bool?
    && (Param(args, 9).flag.None? || (Param(args, 9).flag.value && r.id in db.events)
        || (!Param(args, 9).flag.value && r.id !in db.events))
    && Param(args, 10).Bool? && (Param(args, 10).flag.None? || r.starred == Param(args, 10).flag.value)
  }

  predicate TagWhere(db: Db, clauses: seq<TagClause>, args: seq<Arg>, row: Row) {
    forall i :: 0 <= i < |clauses| ==>
      && Bound(args, clauses[i].placeholder)
      && Param(args, clauses[i].placeholder).Text?
      && (row.route.id, Param(args, clauses[i].placeholder).text) in db.tags
  }

  function JoinOne(r: Route, trips: seq<Trip>): seq<Row> {
    if trips == [] then [Row(r, None)] else Map(trips, (t: Trip) => Row(r, Some(t)))
  }

  /** routes LEFT JOIN trips ON trips.route_id = routes.id */
  function LeftJoin(routes: seq<Route>, trips: seq<Trip>): seq<Row> {
    if routes == [] then []
    else JoinOne(routes[0], Where(trips, (t: Trip) => t.routeId == routes[0].id)) + LeftJoin(routes[1..], trips)
  }

  function Selected(db: Db, clauses: seq<TagClause>, args: seq<Arg>): seq<Row>
    requires |args| >= 10
  {
    Where(LeftJoin(db.routes, db.trips), (row: Row) => FixedWhere(db, args, row) && TagWhere(db, clauses, args, row))
  }

  /** What the database returns for the list query; None is a statement error. */
  function Execute(db: Db, q: Query, args: seq<Arg>): Option<seq<Row>> {
    if |args| < 10 || !Bound(args, q.limitIdx) || !Bound(args, q.offsetIdx)
       || !Param(args, q.limitIdx).Number? || !Param(args, q.offsetIdx).Number? then None
    else
      Some(Page(OrderBy(Selected(db, q.tagClauses, args), (a: Row, b: Row) => RowBefore(q.order, a, b)),
                Param(args, q.limitIdx).n, Param(args, q.offsetIdx).n))
  }

  function ExecuteCount(db: Db, clauses: seq<TagClause>, args: seq<Arg>): Option<nat> {
    if |args| < 10 then None else Some(|Selected(db, clauses, args)|)
  }

  /** LIMIT and OFFSET */
  function Page<T>(rows: seq<T>, limit: nat, offset: nat): seq<T> {
    var from := if offset < |rows| then offset else |rows|;
    var to := if from + limit < |rows| then from + limit else |rows|;
    rows[from..to]
  }

  // ---------------------------------------------------------------- the orders

  predicate DescNullsLast(x: Option<int>, y: Option<int>) { x.Some? && (y.None? || x.value > y.value) }

  predicate DescNullsLastReal(x: Option<real>, y: Option<real>) { x.Some? && (y.None? || x.value > y.value) }

  predicate AscNullsFirst(x: Option<int>, y: Option<int>) { y.Some? && (x.None? || x.value < y.value) }

  /** orderByClause, with its tiebreak r.id DESC. */
  predicate RowBefore(order: SortKey, a: Row, b: Row) {
    match order
    case DateDesc =>
      DescNullsLast(a.route.startTime, b.route.startTime) || (a.route.startTime == b.route.startTime && a.route.id > b.route.id)
    case DateAsc =>
      AscNullsFirst(a.route.startTime, b.route.startTime) || (a.route.startTime == b.route.startTime && a.route.id > b.route.id)
    case DurationDesc =>
      DescNullsLast(a.Duration(), b.Duration()) || (a.Duration() == b.Duration() && a.route.id > b.route.id)
    case DistanceDesc =>
      DescNullsLastReal(a.Distance(), b.Distance()) || (a.Distance() == b.Distance() && a.route.id > b.route.id)
  }

  /** Every sort key is a strict order over rows with and without values, and total on rows of
      different routes. */
  lemma RowsTotallyOrdered(order: SortKey, a: Row, b: Row, c: Row)
    ensures !RowBefore(order, a, a)
    ensures RowBefore(order, a, b) && RowBefore(order, b, c) ==> RowBefore(order, a, c)
    ensures a.route.id != b.route.id ==> RowBefore(order, a, b) || RowBefore(order, b, a)
  {}

  // ---------------------------------------------------------------- building the statement

  /** One clause and one argument for each tag, counting placeholders up from the base. */
  method BuildTagExistsClauses(tags: seq<string>, baseIdx: nat) returns (clauses: seq<TagClause>, args: seq<Arg>)
    ensures |clauses| == |args| == |tags|
    ensures forall i :: 0 <= i < |tags| ==> clauses[i] == TagClause(i, baseIdx + i) && args[i] == Text(tags[i])
  {
    clauses, args := [], [];
    for i := 0 to |tags|
      invariant |clauses| == |args| == i
      invariant forall j :: 0 <= j < i ==> clauses[j] == TagClause(j, baseIdx + j) && args[j] == Text(tags[j])
    {
      clauses := clauses + [TagClause(i, baseIdx + i)];
      args := args + [Text(tags[i])];
    }
  }

  function FixedArgs(f: Filter): (r: seq<Arg>)
    ensures |r| == 10
  {
    [Text(f.dongle), Timestamptz(f.fromTime), Timestamptz(f.toTime), Bool(f.preserved), Int4(f.minDuration),
     Int4(f.maxDuration), Float8(f.minDistance), Float8(f.maxDistance), Bool(f.hasEvents), Bool(f.starred)]
  }

  /** The rows that meet the filter, in the order asked for. */
  function Matching(db: Db, f: Filter, order: SortKey): seq<Row> {
    OrderBy(Where(LeftJoin(db.routes, db.trips), (row: Row) => Meets(db, f, row)), (a: Row, b: Row) => RowBefore(order, a, b))
  }

  lemma FixedWhereMeets(db: Db, f: Filter, args: seq<Arg>, row: Row)
    requires |args| >= 10 && args[..10] == FixedArgs(f)
    ensures FixedWhere(db, args, row) <==> Meets(db, f.(tags := []), row)
  {
    assert forall i :: 0 <= i < 10 ==> args[i] == FixedArgs(f)[i];
  }

  lemma TagWhereMeets(db: Db, f: Filter, clauses: seq<TagClause>, args: seq<Arg>, row: Row)
    requires |clauses| == |f.tags| && |args| >= 10 + |f.tags|
    requires forall i :: 0 <= i < |f.tags| ==> clauses[i] == TagClause(i, 11 + i) && args[10 + i] == Text(f.tags[i])
    ensures TagWhere(db, clauses, args, row) <==> forall i :: 0 <= i < |f.tags| ==> (row.route.id, f.tags[i]) in db.tags
  {
    assert forall i :: 0 <= i < |f.tags| ==> Bound(args, clauses[i].placeholder) && Param(args, clauses[i].placeholder) == Text(f.tags[i]);
    if TagWhere(db, clauses, args, row) {
      forall i | 0 <= i < |f.tags| ensures (row.route.id, f.tags[i]) in db.tags {
        assert Param(args, clauses[i].placeholder) == Text(f.tags[i]);
      }
    }
  }

  lemma SelectedMeets(db: Db, f: Filter, clauses: seq<TagClause>, args: seq<Arg>)
    requires |clauses| == |f.tags| && |args| >= 10 + |f.tags| && args[..10] == FixedArgs(f)
    requires forall i :: 0 <= i < |f.tags| ==> clauses[i] == TagClause(i, 11 + i) && args[10 + i] == Text(f.tags[i])
    ensures Selected(db, clauses, args) == Where(LeftJoin(db.routes, db.trips), (row: Row) => Meets(db, f, row))
  {
    forall row ensures FixedWhere(db, args, row) && TagWhere(db, clauses, args, row) <==> Meets(db, f, row) {
      FixedWhereMeets(db, f, args, row);
      TagWhereMeets(db, f, clauses, args, row);
    }
    WhereSame(LeftJoin(db.routes, db.trips), (row: Row) => FixedWhere(db, args, row) && TagWhere(db, clauses, args, row),
              (row: Row) => Meets(db, f, row));
  }

  /** The arguments are bound where the text expects them: the answer is the asked-for slice of the
      rows that meet the filter, whatever the filter, the sort key and the number of tags. */
  method ListRoutesByDeviceFiltered(db: Db, f: Filter, sort: string, limit: nat, offset: nat) returns (rows: seq<Row>)
    ensures rows == Page(Matching(db, f, ParseSort(sort)), limit, offset)
  {
    var tagClauses, tagArgs := BuildTagExistsClauses(f.tags, 11);
    var q := Query(tagClauses, ParseSort(sort), 10 + |f.tags| + 1, 10 + |f.tags| + 2);
    var args := FixedArgs(f) + tagArgs + [Number(limit), Number(offset)];
    assert args[..10] == FixedArgs(f);
    SelectedMeets(db, f, tagClauses, args);
    return Execute(db, q, args).value;
  }

  /** The count of the same rows. */
  method CountRoutesByDeviceFilteredCustom(db: Db, f: Filter, order: SortKey) returns (n: nat)
    ensures n == |Matching(db, f, order)|
  {
    var tagClauses, tagArgs := BuildTagExistsClauses(f.tags, 11);
    var args := FixedArgs(f) + tagArgs;
    assert args[..10] == FixedArgs(f);
    SelectedMeets(db, f, tagClauses, args);
    return ExecuteCount(db, tagClauses, args).value;
  }

  // ---------------------------------------------------------------- one row a route

  function TripOf(trips: seq<Trip>, id: int): Option<Trip> {
    var own := Where(trips, (t: Trip) => t.routeId == id);
    if own == [] then None else Some(own[0])
  }

  lemma {:induction false} AtMostOneTrip(trips: seq<Trip>, id: int)
    requires OneTripPerRoute(trips)
    ensures |Where(trips, (t: Trip) => t.routeId == id)| <= 1
    decreases |trips|
  {
    if trips != [] {
      if trips[0].routeId == id {
        WhereNone(trips[1..], (t: Trip) => t.routeId == id);
      } else {
        AtMostOneTrip(trips[1..], id);
      }
    }
  }

  /** With at most one trip a route the join has exactly one row for each route. */
  lemma {:induction false} JoinOneRowPerRoute(routes: seq<Route>, trips: seq<Trip>)
    requires OneTripPerRoute(trips)
    ensures LeftJoin(routes, trips) == Map(routes, (r: Route) => Row(r, TripOf(trips, r.id)))
    decreases |routes|
  {
    if routes != [] {
      AtMostOneTrip(trips, routes[0].id);
      JoinOneRowPerRoute(routes[1..], trips);
      assert JoinOne(routes[0], Where(trips, (t: Trip) => t.routeId == routes[0].id)) == [Row(routes[0], TripOf(trips, routes[0].id))];
    }
  }

  // ---------------------------------------------------------------- pages

  ghost predicate DistinctRoutes(rows: seq<Row>) {
    forall i, j :: 0 <= i < j < |rows| ==> rows[i].route.id != rows[j].route.id
  }

  lemma {:induction false} WhereKeepsDistinct(rows: seq<Row>, keep: Row -> bool)
    requires DistinctRoutes(rows)
    ensures DistinctRoutes(Where(rows, keep))
    decreases |rows|
  {
    if rows != [] {
      var rest := Where(rows[1..], keep);
      WhereKeepsDistinct(rows[1..], keep);
      forall i | 0 <= i < |rest| ensures rest[i].route.id != rows[0].route.id {
        WhereHas(rows[1..], keep, rest[i]);
      }
    }
  }

  lemma OrderIsStrict(order: SortKey)
    ensures StrictOrder((a: Row, b: Row) => RowBefore(order, a, b))
  {
    forall a, b, c ensures !RowBefore(order, a, a) && (RowBefore(order, a, b) && RowBefore(order, b, c) ==> RowBefore(order, a, c)) {
      RowsTotallyOrdered(order, a, b, c);
    }
  }

  lemma DistinctAreComparable(rows: seq<Row>, order: SortKey)
    requires DistinctRoutes(rows)
    ensures Comparable(rows, (a: Row, b: Row) => RowBefore(order, a, b))
  {
    forall i, j | 0 <= i < j < |rows| ensures RowBefore(order, rows[i], rows[j]) || RowBefore(order, rows[j], rows[i]) {
      RowsTotallyOrdered(order, rows[i], rows[j], rows[j]);
    }
  }

  lemma JoinDistinct(db: Db)
    requires UniqueIds(db.routes) && OneTripPerRoute(db.trips)
    ensures DistinctRoutes(LeftJoin(db.routes, db.trips))
    ensures forall row :: row in LeftJoin(db.routes, db.trips) <==> row.route in db.routes && row.trip == TripOf(db.trips, row.route.id)
  {
    var joined := LeftJoin(db.routes, db.trips);
    JoinOneRowPerRoute(db.routes, db.trips);
    forall row: Row | row.route in db.routes && row.trip == TripOf(db.trips, row.route.id) ensures row in joined {
      var i :| 0 <= i < |db.routes| && db.routes[i] == row.route;
      assert joined[i] == row;
    }
  }

  /** The matching rows are strictly sorted, and they are exactly the device's routes that meet the
      filter, each once with its own trip. */
  lemma MatchingIs(db: Db, f: Filter, order: SortKey)
    requires UniqueIds(db.routes) && OneTripPerRoute(db.trips)
    ensures Sorted(Matching(db, f, order), (a: Row, b: Row) => RowBefore(order, a, b))
    ensures forall row :: row in Matching(db, f, order) <==>
                          row.route in db.routes && row.trip == TripOf(db.trips, row.route.id) && Meets(db, f, row)
  {
    var keep := (row: Row) => Meets(db, f, row);
    var joined := LeftJoin(db.routes, db.trips);
    JoinDistinct(db);
    WhereKeepsDistinct(joined, keep);
    OrderIsStrict(order);
    DistinctAreComparable(Where(joined, keep), order);
    OrderBySorts(Where(joined, keep), (a: Row, b: Row) => RowBefore(order, a, b));
    forall row ensures row in Matching(db, f, order) <==> row in joined && keep(row) {
      SameRows(Matching(db, f, order), Where(joined, keep), row);
      WhereHas(joined, keep, row);
    }
  }

  /** How a list reads from top to bottom: newest first with undated routes at the end, or oldest
      first with undated routes at the start, or longest trip first with unmeasured routes at the
      end; and among equals the later id first. */
  predicate Reads(order: SortKey, a: Row, b: Row) {
    match order
    case DateDesc =>
      && (b.route.startTime.Some? ==> a.route.startTime.Some? && a.route.startTime.value >= b.route.startTime.value)
      && (a.route.startTime == b.route.startTime ==> a.route.id > b.route.id)
    case DateAsc =>
      && (a.route.startTime.Some? ==> b.route.startTime.Some? && a.route.startTime.value <= b.route.startTime.value)
      && (a.route.startTime == b.route.startTime ==> a.route.id > b.route.id)
    case DurationDesc =>
      && (b.Duration().Some? ==> a.Duration().Some? && a.Duration().value >= b.Duration().value)
      && (a.Duration() == b.Duration() ==> a.route.id > b.route.id)
    case DistanceDesc =>
      && (b.Distance().Some? ==> a.Distance().Some? && a.Distance().value >= b.Distance().value)
      && (a.Distance() == b.Distance() ==> a.route.id > b.route.id)
  }

  lemma BeforeIffReads(order: SortKey, a: Row, b: Row)
    ensures RowBefore(order, a, b) <==> Reads(order, a, b)
  {}

  lemma MatchingReads(db: Db, f: Filter, order: SortKey, i: nat, j: nat)
    requires UniqueIds(db.routes) && OneTripPerRoute(db.trips)
    requires i < j < |Matching(db, f, order)|
    ensures Reads(order, Matching(db, f, order)[i], Matching(db, f, order)[j])
  {
    MatchingIs(db, f, order);
    BeforeIffReads(order, Matching(db, f, order)[i], Matching(db, f, order)[j]);
  }

  /** The route is one the filter asks for, column by column. The window of start times includes its
      lower end and not its upper; the bounds on duration and distance include both ends, and a route
      without a trip or a value is outside every bound; every tag asked for is on the route. */
  ghost predicate AskedFor(db: Db, f: Filter, r: Route, trip: Option<Trip>) {
    var duration := if trip.Some? then trip.value.durationSeconds else None;
    var distance := if trip.Some? then trip.value.distanceMeters else None;
    && f.dongle == r.dongle
    && !(f.fromTime.Some? && (r.startTime.None? || r.startTime.value < f.fromTime.value))
    && !(f.toTime.Some? && (r.startTime.None? || r.startTime.value >= f.toTime.value))
    && !(f.minDuration.Some? && (duration.None? || duration.value < f.minDuration.value))
    && !(f.maxDuration.Some? && (duration.None? || duration.value > f.maxDuration.value))
    && !(f.minDistance.Some? && (distance.None? || distance.value < f.minDistance.value))
    && !(f.maxDistance.Some? && (distance.None? || distance.value > f.maxDistance.value))
    && (f.preserved == Some(true) ==> r.preserved) && (f.preserved == Some(false) ==> !r.preserved)
    && (f.starred == Some(true) ==> r.starred) && (f.starred == Some(false) ==> !r.starred)
    && (f.hasEvents == Some(true) ==> r.id in db.events) && (f.hasEvents == Some(false) ==> r.id !in db.events)
    && (forall tag :: tag in f.tags ==> (r.id, tag) in db.tags)
  }

  lemma MeetsAskedFor(db: Db, f: Filter, row: Row)
    ensures Meets(db, f, row) <==> AskedFor(db, f, row.route, row.trip)
  {
    assert forall i :: 0 <= i < |f.tags| ==> f.tags[i] in f.tags;
  }

  /** Of two rows of a list that is sorted by this name, the first reads before the second: by date
      downward unless the name is another known one, with the rows without a value at the far end,
      and the later id first among equals. */
  predicate ReadsBy(sort: string, a: Row, b: Row) {
    if sort == "date_asc" then
      && (a.route.startTime.Some? ==> b.route.startTime.Some? && a.route.startTime.value <= b.route.startTime.value)
      && (a.route.startTime == b.route.startTime ==> a.route.id > b.route.id)
    else if sort == "duration_desc" then
      var (x, y) := (if a.trip.Some? then a.trip.value.durationSeconds else None, if b.trip.Some? then b.trip.value.durationSeconds else None);
      (y.Some? ==> x.Some? && x.value >= y.value) && (x == y ==> a.route.id > b.route.id)
    else if sort == "distance_desc" then
      var (x, y) := (if a.trip.Some? then a.trip.value.distanceMeters else None, if b.trip.Some? then b.trip.value.distanceMeters else None);
      (y.Some? ==> x.Some? && x.value >= y.value) && (x == y ==> a.route.id > b.route.id)
    else
      && (b.route.startTime.Some? ==> a.route.startTime.Some? && a.route.startTime.value >= b.route.startTime.value)
      && (a.route.startTime == b.route.startTime ==> a.route.id > b.route.id)
  }

  lemma ReadsByName(sort: string, a: Row, b: Row)
    ensures Reads(ParseSort(sort), a, b) <==> ReadsBy(sort, a, b)
  {}

  /** The whole list, without a limit, for any name of an order: the device's routes that the filter
      asks for, each once with its own trip, in that order. */
  lemma ListIs(db: Db, f: Filter, sort: string)
    requires UniqueIds(db.routes) && OneTripPerRoute(db.trips)
    ensures var rows := Matching(db, f, ParseSort(sort));
            && (forall i, j :: 0 <= i < j < |rows| ==> ReadsBy(sort, rows[i], rows[j]))
            && (forall r, trip :: Row(r, trip) in rows <==>
                                  r in db.routes && OwnTrip(db.trips, r.id, trip) && AskedFor(db, f, r, trip))
  {
    var rows := Matching(db, f, ParseSort(sort));
    MatchingIs(db, f, ParseSort(sort));
    forall i, j | 0 <= i < j < |rows| ensures ReadsBy(sort, rows[i], rows[j]) {
      MatchingReads(db, f, ParseSort(sort), i, j);
      ReadsByName(sort, rows[i], rows[j]);
    }
    forall r, trip { MeetsAskedFor(db, f, Row(r, trip)); }
    forall id, trip ensures OwnTrip(db.trips, id, trip) <==> trip == TripOf(db.trips, id) { TripOfIs(db.trips, id, trip); }
  }

  /** The trip is the route's, or there is none. */
  predicate OwnTrip(trips: seq<Trip>, id: int, trip: Option<Trip>) {
    if trip.Some? then trip.value in trips && trip.value.routeId == id else forall t :: t in trips ==> t.routeId != id
  }

  lemma TripOfIs(trips: seq<Trip>, id: int, trip: Option<Trip>)
    requires OneTripPerRoute(trips)
    ensures OwnTrip(trips, id, trip) <==> trip == TripOf(trips, id)
  {
    var own := Where(trips, (t: Trip) => t.routeId == id);
    AtMostOneTrip(trips, id);
    forall t ensures t in own <==> t in trips && t.routeId == id { WhereHas(trips, (t: Trip) => t.routeId == id, t); }
    if own != [] { assert own[0] in own; }
  }

  function Pages<T>(rows: seq<T>, limit: nat, count: nat): seq<T> {
    if count == 0 then [] else Pages(rows, limit, count - 1) + Page(rows, limit, (count - 1) * limit)
  }

  function Front<T>(rows: seq<T>, n: nat): seq<T> { if n < |rows| then rows[..n] else rows }

  lemma PageExtends<T>(rows: seq<T>, limit: nat, offset: nat)
    ensures Front(rows, offset) + Page(rows, limit, offset) == Front(rows, offset + limit)
  {}

  lemma {:induction false} PagesAreFront<T>(rows: seq<T>, limit: nat, count: nat)
    ensures Pages(rows, limit, count) == Front(rows, count * limit)
    decreases count
  {
    if count > 0 {
      PagesAreFront(rows, limit, count - 1);
      PageExtends(rows, limit, (count - 1) * limit);
      assert count * limit == (count - 1) * limit + limit;
    }
  }

  /** Reading page after page gives the matching rows in order: nothing twice, nothing left out once
      the pages cover as many rows as the count query reports. */
  lemma PagesCoverMatching(db: Db, f: Filter, order: SortKey, limit: nat, count: nat)
    requires UniqueIds(db.routes) && OneTripPerRoute(db.trips)
    ensures var (rows, read) := (Matching(db, f, order), Pages(Matching(db, f, order), limit, count));
            && read <= rows && (read == rows <==> count * limit >= |rows|)
            && DistinctRoutes(read)
  {
    var rows, read := Matching(db, f, order), Pages(Matching(db, f, order), limit, count);
    PagesAreFront(rows, limit, count);
    JoinOneRowPerRoute(db.routes, db.trips);
    MatchingIs(db, f, order);
    forall i, j | 0 <= i < j < |read| ensures read[i].route.id != read[j].route.id {
      assert read[i] == rows[i] && read[j] == rows[j];
      assert rows[i] in rows && rows[j] in rows;
      SameRoute(db, rows[i], rows[j]);
      OrderIsStrict(order);
      assert RowBefore(order, rows[i], rows[j]);
    }
  }

  lemma SameRoute(db: Db, a: Row, b: Row)
    requires UniqueIds(db.routes) && a.route in db.routes && b.route in db.routes
    requires a.trip == TripOf(db.trips, a.route.id) && b.trip == TripOf(db.trips, b.route.id)
    ensures a.route.id == b.route.id ==> a == b
  {
    var i :| 0 <= i < |db.routes| && db.routes[i] == a.route;
    var j :| 0 <= j < |db.routes| && db.routes[j] == b.route;
    if i < j { assert db.routes[i].id != db.routes[j].id; }
    if j < i { assert db.routes[j].id != db.routes[i].id; }
  }

  /** The tiebreak makes the answer independent of where the rows lie in the table. */
  lemma OrderOfTableIrrelevant(db: Db, moved: Db, f: Filter, order: SortKey)
    requires UniqueIds(db.routes) && UniqueIds(moved.routes) && OneTripPerRoute(db.trips)
    requires moved.trips == db.trips && moved.tags == db.tags && moved.events == db.events
    requires forall r :: r in db.routes <==> r in moved.routes
    ensures Matching(moved, f, order) == Matching(db, f, order)
  {
    MatchingIs(db, f, order);
    MatchingIs(moved, f, order);
    OrderIsStrict(order);
    var (a, b) := (Matching(db, f, order), Matching(moved, f, order));
    forall row ensures row in a <==> row in b {
      MeetsAlike(db, moved, f, row);
    }
    SortedSame(a, b, (a: Row, b: Row) => RowBefore(order, a, b));
  }

  lemma MeetsAlike(db: Db, moved: Db, f: Filter, row: Row)
    requires moved.tags == db.tags && moved.events == db.events
    ensures Meets(moved, f, row) <==> Meets(db, f, row)
  {}
}
