/** Performance metrics: `getPerformanceMetrics` in apps/api/src/admin/admin.service.ts, with the
    index arithmetic taken exactly. */
module Metrics {
  import opened Common
  import opened Sequences

  /** A row of system_events with a latency. */
  datatype Event = Event(latency: int, status: Option<int>, platform: Option<string>, route: Option<string>,
                         verb: Option<string>)

  datatype RouteSummary = RouteSummary(route: string, count: nat, p50: int, p95: int, p99: int, errorCount: nat)

  datatype Report = Report(totalRequests: nat, errorCount: nat, clientErrorCount: nat, errorRate: real, p50: int,
                           p95: int, p99: int, slowestRoutes: seq<RouteSummary>, byPlatform: map<string, nat>)

  function LatencyOf(e: Event): int {
    e.latency
  }

  predicate IsError(e: Event) {
    e.status.Some? && e.status.value >= 500
  }

  predicate IsClientError(e: Event) {
    e.status.Some? && 400 <= e.status.value < 500
  }

  function RouteKey(e: Event): string {
    (if e.verb.Some? then e.verb.value else "GET") + " " + (if e.route.Some? then e.route.value else "/")
  }

  function PlatformKey(e: Event): string {
    if e.platform.Some? then e.platform.value else "unknown"
  }

  function CountIf(p: Event -> bool, rows: seq<Event>): nat {
    if rows == [] then 0 else CountIf(p, Front(rows)) + if p(Last(rows)) then 1 else 0
  }

  // ------------------------------------------------------------------ sorting

  /** Places x after every element whose key is at least its own. */
  function Insert<T>(x: T, s: seq<T>, key: T -> int): (r: seq<T>)
    ensures |r| == |s| + 1
  {
    if s == [] || key(Last(s)) >= key(x) then s + [x] else Insert(x, Front(s), key) + [Last(s)]
  }

  /** The stable sort by descending key. */
  function SortDescending<T>(s: seq<T>, key: T -> int): (r: seq<T>)
    ensures |r| == |s|
  {
    if s == [] then [] else Insert(Last(s), SortDescending(Front(s), key), key)
  }

  predicate Descends<T>(s: seq<T>, key: T -> int) {
    forall i, j :: 0 <= i < j < |s| ==> key(s[i]) >= key(s[j])
  }

  lemma {:induction false} InsertKeepsElements<T>(x: T, s: seq<T>, key: T -> int)
    ensures multiset(Insert(x, s, key)) == multiset(s) + multiset{x}
  {
    if s != [] && key(Last(s)) < key(x) {
      InsertKeepsElements(x, Front(s), key);
      assert s == Front(s) + [Last(s)];
    }
  }

  lemma {:induction false} InsertDescends<T>(x: T, s: seq<T>, key: T -> int)
    requires Descends(s, key)
    ensures Descends(Insert(x, s, key), key)
    ensures s != [] ==> key(Last(Insert(x, s, key))) == Min(key(Last(s)), key(x))
  {
    if s == [] {
      assert Insert(x, s, key) == [x];
    } else if key(Last(s)) >= key(x) {
      LastIsLeast(s, x, key);
    } else {
      var r := Insert(x, Front(s), key);
      assert Insert(x, s, key) == r + [Last(s)];
      FrontDescends(s, key);
      InsertDescends(x, Front(s), key);
      assert Front(s) == [] ==> r == [x];
      hide Insert, Descends;
      LastIsLeast(r, Last(s), key);
    }
  }

  lemma FrontDescends<T>(s: seq<T>, key: T -> int)
    requires s != [] && Descends(s, key)
    ensures Descends(Front(s), key) && (Front(s) != [] ==> key(Last(Front(s))) >= key(Last(s)))
  {
  }

  lemma LastIsLeast<T>(s: seq<T>, last: T, key: T -> int)
    requires s != [] && Descends(s, key) && key(Last(s)) >= key(last)
    ensures Descends(s + [last], key)
  {
  }

  lemma {:induction false} SortKeepsElements<T>(s: seq<T>, key: T -> int)
    ensures multiset(SortDescending(s, key)) == multiset(s)
  {
    if s != [] {
      hide Insert;
      SortKeepsElements(Front(s), key);
      InsertKeepsElements(Last(s), SortDescending(Front(s), key), key);
      assert s == Front(s) + [Last(s)];
    }
  }

  lemma {:induction false} SortDescends<T>(s: seq<T>, key: T -> int)
    ensures Descends(SortDescending(s, key), key)
    ensures multiset(SortDescending(s, key)) == multiset(s)
  {
    SortKeepsElements(s, key);
    if s != [] {
      hide Insert, Descends;
      SortDescends(Front(s), key);
      InsertDescends(Last(s), SortDescending(Front(s), key), key);
    }
  }

  // ------------------------------------------------------------------ percentiles

  function Negative(n: int): int {
    -n
  }

  function Ascending(latencies: seq<int>): (r: seq<int>)
    ensures |r| == |latencies|
  {
    SortDescending(latencies, Negative)
  }

  function Rank(n: nat, total: nat): nat {
    n * total / 100
  }

  /** `sorted[Math.floor((n / 100) * sorted.length)] ?? 0` */
  function Percentile(sorted: seq<int>, n: nat): int {
    if Rank(n, |sorted|) < |sorted| then sorted[Rank(n, |sorted|)] else 0
  }

  /** How many latencies are at most v. */
  function AtMost(latencies: seq<int>, v: int): nat {
    if latencies == [] then 0 else AtMost(Front(latencies), v) + if Last(latencies) <= v then 1 else 0
  }

  lemma {:induction false} AtMostOfInsert(x: int, s: seq<int>, v: int)
    ensures AtMost(Insert(x, s, Negative), v) == AtMost(s, v) + if x <= v then 1 else 0
  {
    if s == [] || Negative(Last(s)) >= Negative(x) {
      assert Front(s + [x]) == s;
    } else {
      AtMostOfInsert(x, Front(s), v);
      assert Front(Insert(x, Front(s), Negative) + [Last(s)]) == Insert(x, Front(s), Negative);
    }
  }

  lemma {:induction false} AtMostOfSort(s: seq<int>, v: int)
    ensures AtMost(Ascending(s), v) == AtMost(s, v)
  {
    if s != [] {
      AtMostOfSort(Front(s), v);
      AtMostOfInsert(Last(s), Ascending(Front(s)), v);
    }
  }

  /** In ascending order exactly a prefix is at most v. */
  lemma {:induction false} AtMostIsAPrefix(sorted: seq<int>, v: int)
    requires Descends(sorted, Negative)
    ensures AtMost(sorted, v) <= |sorted|
    ensures forall i :: 0 <= i < |sorted| ==> (sorted[i] <= v <==> i < AtMost(sorted, v))
  {
    if sorted != [] {
      var front := Front(sorted);
      AtMostIsAPrefix(front, v);
      assert forall i :: 0 <= i < |front| ==> front[i] == sorted[i] && Negative(sorted[i]) >= Negative(Last(sorted));
      if Last(sorted) <= v && |front| > 0 {
        assert front[|front| - 1] <= v;
      }
    }
  }

  lemma SameElements(a: seq<int>, b: seq<int>, x: int)
    requires multiset(a) == multiset(b) && x in a
    ensures x in b
  {
    assert x in multiset(a);
  }

  lemma ScaleMonotone(m: nat, n: nat, total: nat)
    requires m <= n
    ensures m * total <= n * total
  {
  }

  lemma HundredthMonotone(a: nat, b: nat)
    requires a <= b
    ensures a / 100 <= b / 100
  {
  }

  lemma RankMonotone(m: nat, n: nat, total: nat)
    requires m <= n
    ensures Rank(m, total) <= Rank(n, total)
  {
    ScaleMonotone(m, n, total);
    HundredthMonotone(m * total, n * total);
  }

  lemma RankWhenSorted(sorted: seq<int>, k: nat)
    requires Descends(sorted, Negative) && k < |sorted|
    ensures AtMost(sorted, sorted[k] - 1) <= k < AtMost(sorted, sorted[k])
  {
    AtMostIsAPrefix(sorted, sorted[k]);
    AtMostIsAPrefix(sorted, sorted[k] - 1);
  }

  /** A percentile is an observed latency; at most n in a hundred latencies are below it, and more than n in
      a hundred are at most it. */
  lemma PercentileHasItsRank(latencies: seq<int>, n: nat)
    requires n < 100 && latencies != []
    ensures var p := Percentile(Ascending(latencies), n);
            p in latencies && 100 * AtMost(latencies, p - 1) <= n * |latencies| < 100 * AtMost(latencies, p)
  {
    RankIsAHundredth(n, |latencies|);
    hide Rank, SortDescending, Ascending, AtMost, Descends, Percentile;
    PercentileRank(latencies, n);
    HundredTimes(AtMost(latencies, Percentile(Ascending(latencies), n) - 1), Rank(n, |latencies|),
                 AtMost(latencies, Percentile(Ascending(latencies), n)), n * |latencies|);
  }

  lemma HundredTimes(below: nat, rank: nat, upTo: nat, whole: nat)
    requires below <= rank < upTo && 100 * rank <= whole < 100 * (rank + 1)
    ensures 100 * below <= whole < 100 * upTo
  {
  }

  lemma PercentileRank(latencies: seq<int>, n: nat)
    requires n < 100 && latencies != []
    ensures var p := Percentile(Ascending(latencies), n);
            p in latencies && AtMost(latencies, p - 1) <= Rank(n, |latencies|) < AtMost(latencies, p)
  {
    hide Rank, SortDescending, Ascending, AtMost, Descends, Percentile;
    var sorted := Ascending(latencies);
    AscendingIsSorted(latencies);
    PercentileIsAtItsRank(sorted, n);
    var p := Percentile(sorted, n);
    RankWhenSorted(sorted, Rank(n, |sorted|));
    AtMostOfSort(latencies, p);
    AtMostOfSort(latencies, p - 1);
    SameElements(sorted, latencies, p);
  }

  lemma RankIsAHundredth(n: nat, total: nat)
    ensures 100 * Rank(n, total) <= n * total < 100 * (Rank(n, total) + 1)
  {
  }

  lemma AscendingIsSorted(latencies: seq<int>)
    ensures Descends(Ascending(latencies), Negative) && multiset(Ascending(latencies)) == multiset(latencies)
  {
    SortDescends(latencies, Negative);
  }

  lemma PercentileIsAtItsRank(sorted: seq<int>, n: nat)
    requires n < 100 && sorted != []
    ensures Rank(n, |sorted|) < |sorted| && Percentile(sorted, n) == sorted[Rank(n, |sorted|)]
  {
  }

  lemma PercentilesAreOrdered(latencies: seq<int>, m: nat, n: nat)
    requires m <= n < 100
    ensures Percentile(Ascending(latencies), m) <= Percentile(Ascending(latencies), n)
  {
    if latencies != [] {
      var sorted, total := Ascending(latencies), |latencies|;
      hide Rank, SortDescending, Ascending, Percentile;
      AscendingIsSorted(latencies);
      PercentileIsAtItsRank(sorted, m);
      PercentileIsAtItsRank(sorted, n);
      RankMonotone(m, n, total);
      assert Rank(m, total) < Rank(n, total) ==>
          Negative(sorted[Rank(m, total)]) >= Negative(sorted[Rank(n, total)]);
    }
  }

  // ------------------------------------------------------------------ grouping

  /** The rows with one key, in order. */
  function Group(rows: seq<Event>, key: Event -> string, k: string): seq<Event> {
    if rows == [] then []
    else if key(Last(rows)) == k then Group(Front(rows), key, k) + [Last(rows)]
    else Group(Front(rows), key, k)
  }

  /** The distinct keys, in order of first appearance: the order of a JavaScript Map. */
  function KeysInOrder(rows: seq<Event>, key: Event -> string): seq<string> {
    if rows == [] then []
    else
      var before := KeysInOrder(Front(rows), key);
      if key(Last(rows)) in before then before else before + [key(Last(rows))]
  }

  lemma {:induction false} KeysAreDistinctAndComplete(rows: seq<Event>, key: Event -> string)
    ensures Distinct(KeysInOrder(rows, key))
    ensures forall k :: k in KeysInOrder(rows, key) <==> Group(rows, key, k) != []
  {
    if rows != [] {
      KeysAreDistinctAndComplete(Front(rows), key);
    }
  }

  /** The sum of a count over all groups. */
  function SumOverGroups(keys: seq<string>, rows: seq<Event>, key: Event -> string, p: Event -> bool): nat {
    if keys == [] then 0
    else SumOverGroups(Front(keys), rows, key, p) + CountIf(p, Group(rows, key, Last(keys)))
  }

  lemma {:induction false} RowAddsToOneGroup(keys: seq<string>, rows: seq<Event>, key: Event -> string, p: Event -> bool)
    requires rows != [] && Distinct(keys)
    ensures SumOverGroups(keys, rows, key, p)
         == SumOverGroups(keys, Front(rows), key, p) + if key(Last(rows)) in keys && p(Last(rows)) then 1 else 0
  {
    if keys != [] {
      RowAddsToOneGroup(Front(keys), rows, key, p);
      var group := Group(Front(rows), key, Last(keys));
      assert Front(group + [Last(rows)]) == group;
      assert keys == Front(keys) + [Last(keys)];
      assert Last(keys) !in Front(keys);
    }
  }

  lemma {:induction false} EmptyRowsSumToZero(keys: seq<string>, key: Event -> string, p: Event -> bool)
    ensures SumOverGroups(keys, [], key, p) == 0
  {
    if keys != [] {
      EmptyRowsSumToZero(Front(keys), key, p);
    }
  }

  lemma {:induction false} SumOverKeys(keys: seq<string>, rows: seq<Event>, key: Event -> string, p: Event -> bool)
    requires Distinct(keys) && forall i :: 0 <= i < |rows| ==> key(rows[i]) in keys
    ensures SumOverGroups(keys, rows, key, p) == CountIf(p, rows)
  {
    if rows == [] {
      EmptyRowsSumToZero(keys, key, p);
    } else {
      SumOverKeys(keys, Front(rows), key, p);
      RowAddsToOneGroup(keys, rows, key, p);
      assert key(rows[|rows| - 1]) in keys;
    }
  }

  lemma {:induction false} EveryKeyListed(rows: seq<Event>, key: Event -> string)
    ensures forall i :: 0 <= i < |rows| ==> key(rows[i]) in KeysInOrder(rows, key)
  {
    if rows != [] {
      EveryKeyListed(Front(rows), key);
      forall i | 0 <= i < |rows| ensures key(rows[i]) in KeysInOrder(rows, key) {
        if i < |rows| - 1 {
          assert rows[i] == Front(rows)[i];
        }
      }
    }
  }

  /** Counts over all groups add up to the count over all rows. */
  lemma GroupsAddUp(rows: seq<Event>, key: Event -> string, p: Event -> bool)
    ensures SumOverGroups(KeysInOrder(rows, key), rows, key, p) == CountIf(p, rows)
  {
    KeysAreDistinctAndComplete(rows, key);
    EveryKeyListed(rows, key);
    SumOverKeys(KeysInOrder(rows, key), rows, key, p);
  }

  // ------------------------------------------------------------------ the report

  datatype Entry = Entry(count: nat, latencies: seq<int>, errors: nat)

  /** What the route map holds for a key after all rows. */
  function EntryOf(rows: seq<Event>, route: string): Entry {
    var group := Group(rows, RouteKey, route);
    Entry(|group|, Map(LatencyOf, group), CountIf(IsError, group))
  }

  function Summarise(route: string, entry: Entry): RouteSummary {
    var sorted := Ascending(entry.latencies);
    RouteSummary(route, entry.count, Percentile(sorted, 50), Percentile(sorted, 95), Percentile(sorted, 99), entry.errors)
  }

  /** The summaries of all routes, in order of first appearance. */
  function Summaries(keys: seq<string>, rows: seq<Event>): (r: seq<RouteSummary>)
    ensures |r| == |keys|
  {
    if keys == [] then [] else Summaries(Front(keys), rows) + [Summarise(Last(keys), EntryOf(rows, Last(keys)))]
  }

  function AllRoutes(rows: seq<Event>): seq<RouteSummary> {
    Summaries(KeysInOrder(rows, RouteKey), rows)
  }

  function P95Of(r: RouteSummary): int {
    r.p95
  }

  function SlowestRoutes(routes: seq<RouteSummary>): seq<RouteSummary> {
    SortDescending(routes, P95Of)[..Min(10, |routes|)]
  }

  function ErrorRate(errors: nat, total: nat): real {
    if total == 0 then 0.0
    else ((errors as real / total as real) * 10000.0 + 0.5).Floor as real / 100.0
  }

  /** Groups the rows by route; `order` is the insertion order of the map. */
  method FillRouteMap(rows: seq<Event>) returns (routeMap: map<string, Entry>, order: seq<string>)
    ensures order == KeysInOrder(rows, RouteKey)
    ensures forall k :: k in order ==> k in routeMap && routeMap[k] == EntryOf(rows, k)
  {
    hide EntryOf, RouteKey;
    routeMap, order := map[], [];
    for i := 0 to |rows|
      invariant order == KeysInOrder(rows[..i], RouteKey)
      invariant forall k :: k in routeMap <==> k in order
      invariant forall k :: k in order ==> routeMap[k] == EntryOf(rows[..i], k)
    {
      var row := rows[i];
      var key := RouteKey(row);
      EntriesGrow(rows, i);
      var entry := if key in routeMap then routeMap[key] else Entry(0, [], 0);
      entry := entry.(count := entry.count + 1, latencies := entry.latencies + [row.latency]);
      if row.status.Some? && row.status.value >= 500 {
        entry := entry.(errors := entry.errors + 1);
      }
      if key !in routeMap {
        order := order + [key];
      }
      routeMap := routeMap[key := entry];
    }
    assert rows[..|rows|] == rows;
  }

  function WithRow(entry: Entry, row: Event): Entry {
    Entry(entry.count + 1, entry.latencies + [row.latency], entry.errors + if IsError(row) then 1 else 0)
  }

  lemma EntriesGrow(rows: seq<Event>, i: nat)
    requires i < |rows|
    ensures var key := RouteKey(rows[i]);
            KeysInOrder(rows[..i + 1], RouteKey)
            == (if key in KeysInOrder(rows[..i], RouteKey) then KeysInOrder(rows[..i], RouteKey)
                else KeysInOrder(rows[..i], RouteKey) + [key])
            && EntryOf(rows[..i + 1], key) == WithRow(EntryOf(rows[..i], key), rows[i])
            && (key !in KeysInOrder(rows[..i], RouteKey) ==> EntryOf(rows[..i], key) == Entry(0, [], 0))
    ensures forall k :: k != RouteKey(rows[i]) ==> EntryOf(rows[..i + 1], k) == EntryOf(rows[..i], k)
  {
    assert Front(rows[..i + 1]) == rows[..i] && Last(rows[..i + 1]) == rows[i];
    var key := RouteKey(rows[i]);
    var group := Group(rows[..i], RouteKey, key);
    assert Group(rows[..i + 1], RouteKey, key) == group + [rows[i]];
    assert Front(group + [rows[i]]) == group;
    assert Map(LatencyOf, group + [rows[i]]) == Map(LatencyOf, group) + [rows[i].latency];
    KeysAreDistinctAndComplete(rows[..i], RouteKey);
    hide RouteKey, IsError;
    assert key !in KeysInOrder(rows[..i], RouteKey) ==> group == [];
  }

  method CountPlatforms(rows: seq<Event>) returns (byPlatform: map<string, nat>)
    ensures forall k :: k in byPlatform <==> k in KeysInOrder(rows, PlatformKey)
    ensures forall k :: k in byPlatform ==> byPlatform[k] == |Group(rows, PlatformKey, k)|
  {
    hide PlatformKey;
    byPlatform := map[];
    for i := 0 to |rows|
      invariant forall k :: k in byPlatform <==> k in KeysInOrder(rows[..i], PlatformKey)
      invariant forall k :: k in byPlatform ==> byPlatform[k] == |Group(rows[..i], PlatformKey, k)|
    {
      var p := PlatformKey(rows[i]);
      assert Front(rows[..i + 1]) == rows[..i];
      KeysAreDistinctAndComplete(rows[..i], PlatformKey);
      byPlatform := byPlatform[p := (if p in byPlatform then byPlatform[p] else 0) + 1];
    }
    assert rows[..|rows|] == rows;
  }

  method GetPerformanceMetrics(rows: seq<Event>) returns (report: Report)
    ensures report.totalRequests == |rows| && report.errorCount == CountIf(IsError, rows)
    ensures report.clientErrorCount == CountIf(IsClientError, rows)
    ensures report.errorRate == ErrorRate(CountIf(IsError, rows), |rows|)
    ensures report.p50 == Percentile(Ascending(Map(LatencyOf, rows)), 50)
    ensures report.p95 == Percentile(Ascending(Map(LatencyOf, rows)), 95)
    ensures report.p99 == Percentile(Ascending(Map(LatencyOf, rows)), 99)
    ensures report.slowestRoutes == SlowestRoutes(AllRoutes(rows))
    ensures forall k :: k in report.byPlatform <==> k in KeysInOrder(rows, PlatformKey)
    ensures forall k :: k in report.byPlatform ==> report.byPlatform[k] == |Group(rows, PlatformKey, k)|
  {
    hide KeysInOrder, Group, Percentile, Ascending, SlowestRoutes, CountIf, ErrorRate, EntryOf, Summarise;
    var latencies := Ascending(Map(LatencyOf, rows));
    var errors := CountIf(IsError, rows);
    var routeMap, order := FillRouteMap(rows);
    var routes: seq<RouteSummary> := [];
    for i := 0 to |order|
      invariant routes == Summaries(order[..i], rows)
    {
      assert Front(order[..i + 1]) == order[..i] && order[i] in order;
      routes := routes + [Summarise(order[i], routeMap[order[i]])];
    }
    assert order[..|order|] == order;
    var byPlatform := CountPlatforms(rows);
    report := Report(|rows|, errors, CountIf(IsClientError, rows), ErrorRate(errors, |rows|),
                     Percentile(latencies, 50), Percentile(latencies, 95), Percentile(latencies, 99),
                     SlowestRoutes(routes), byPlatform);
  }

  // ------------------------------------------------------------------ the report, from its rows alone

  /** The row was served on this route: its method, or GET, a blank, and its path, or the root. */
  predicate OnRoute(e: Event, route: string) {
    route == (match e.verb case Some(verb) => verb case None => "GET")
             + (" " + match e.route case Some(path) => path case None => "/")
  }

  predicate ServerError(e: Event) {
    match e.status
    case Some(status) => status >= 500
    case None => false
  }

  /** Positions of rows: on a route, with a server error, below a latency, or not above it. */
  function RowsOn(rows: seq<Event>, route: string): set<nat> {
    set i | 0 <= i < |rows| && OnRoute(rows[i], route)
  }

  function ErrorsOn(rows: seq<Event>, route: string): set<nat> {
    set i | 0 <= i < |rows| && OnRoute(rows[i], route) && ServerError(rows[i])
  }

  function Below(rows: seq<Event>, route: string, latency: int): set<nat> {
    set i | 0 <= i < |rows| && OnRoute(rows[i], route) && rows[i].latency < latency
  }

  function NotAbove(rows: seq<Event>, route: string, latency: int): set<nat> {
    set i | 0 <= i < |rows| && OnRoute(rows[i], route) && rows[i].latency <= latency
  }

  /** Of the rows on a route at most n in a hundred are below p, more than n in a hundred are not above it, and
      one of them is p: p is their n-th percentile. */
  predicate IsPercentile(rows: seq<Event>, route: string, n: nat, p: int) {
    && 100 * |Below(rows, route, p)| <= n * |RowsOn(rows, route)| < 100 * |NotAbove(rows, route, p)|
    && exists i :: 0 <= i < |rows| && OnRoute(rows[i], route) && rows[i].latency == p
  }

  /** s holds the positions of the rows that satisfy p. */
  ghost predicate Positions(s: set<nat>, rows: seq<Event>, p: Event -> bool) {
    forall i: nat :: i in s <==> i < |rows| && p(rows[i])
  }

  lemma FrontPositions(s: set<nat>, rows: seq<Event>, p: Event -> bool)
    requires rows != [] && Positions(s, rows, p)
    ensures Positions(s - {|rows| - 1}, Front(rows), p)
    ensures |s| == |s - {|rows| - 1}| + if p(Last(rows)) then 1 else 0
  {
    var last := |rows| - 1;
    assert forall i :: 0 <= i < last ==> Front(rows)[i] == rows[i];
    if p(Last(rows)) {
      assert s == (s - {last}) + {last};
    } else {
      assert s == s - {last};
    }
  }

  lemma NoPositions(s: set<nat>, p: Event -> bool)
    requires Positions(s, [], p)
    ensures s == {}
  {
    assert forall i :: i in s ==> false;
  }

  lemma {:induction false} CountIfCounts(p: Event -> bool, rows: seq<Event>, s: set<nat>)
    requires Positions(s, rows, p)
    ensures CountIf(p, rows) == |s|
  {
    if rows == [] {
      NoPositions(s, p);
    } else {
      FrontPositions(s, rows, p);
      hide Positions;
      CountIfCounts(p, Front(rows), s - {|rows| - 1});
    }
  }

  lemma {:induction false} CountInGroup(
    rows: seq<Event>, key: Event -> string, k: string, p: Event -> bool, both: Event -> bool, s: set<nat>)
    requires Positions(s, rows, both) && forall e :: both(e) == (key(e) == k && p(e))
    ensures CountIf(p, Group(rows, key, k)) == |s|
  {
    if rows == [] {
      NoPositions(s, both);
    } else {
      FrontPositions(s, rows, both);
      hide Positions;
      CountInGroup(Front(rows), key, k, p, both, s - {|rows| - 1});
      var group := Group(Front(rows), key, k);
      assert Front(group + [Last(rows)]) == group;
    }
  }

  lemma {:induction false} AtMostCounts(group: seq<Event>, v: int, p: Event -> bool)
    requires forall e :: p(e) == (e.latency <= v)
    ensures AtMost(Map(LatencyOf, group), v) == CountIf(p, group)
  {
    if group != [] {
      AtMostCounts(Front(group), v, p);
      assert Front(Map(LatencyOf, group)) == Map(LatencyOf, Front(group));
    }
  }

  lemma RouteKeyIsOnRoute(e: Event, route: string)
    ensures RouteKey(e) == route <==> OnRoute(e, route)
  {
    assert RouteKey(e) == (match e.verb case Some(verb) => verb case None => "GET")
                          + (" " + match e.route case Some(path) => path case None => "/");
  }

  /** The counts of a route's rows, of its errors and of its latencies up to a value. */
  lemma CountsOfRoute(rows: seq<Event>, route: string, v: int)
    ensures var group := Group(rows, RouteKey, route);
            && |group| == |RowsOn(rows, route)|
            && CountIf(IsError, group) == |ErrorsOn(rows, route)|
            && AtMost(Map(LatencyOf, group), v) == |NotAbove(rows, route, v)|
            && AtMost(Map(LatencyOf, group), v - 1) == |Below(rows, route, v)|
  {
    var group := Group(rows, RouteKey, route);
    forall e ensures (RouteKey(e) == route) == OnRoute(e, route) {
      RouteKeyIsOnRoute(e, route);
    }
    hide RouteKey, OnRoute, Group, CountIf, AtMost;
    CountAlways(group);
    CountInGroup(rows, RouteKey, route, Always, (e: Event) => OnRoute(e, route), RowsOn(rows, route));
    CountInGroup(rows, RouteKey, route, IsError, (e: Event) => OnRoute(e, route) && ServerError(e), ErrorsOn(rows, route));
    LatenciesOfRoute(rows, route, v, NotAbove(rows, route, v));
    LatenciesOfRoute(rows, route, v - 1, Below(rows, route, v));
  }

  lemma LatenciesOfRoute(rows: seq<Event>, route: string, v: int, s: set<nat>)
    requires forall i: nat :: i in s <==> i < |rows| && OnRoute(rows[i], route) && rows[i].latency <= v
    ensures AtMost(Map(LatencyOf, Group(rows, RouteKey, route)), v) == |s|
  {
    var p := (e: Event) => e.latency <= v;
    forall e ensures (RouteKey(e) == route) == OnRoute(e, route) {
      RouteKeyIsOnRoute(e, route);
    }
    hide RouteKey, OnRoute, Group, CountIf, AtMost;
    AtMostCounts(Group(rows, RouteKey, route), v, p);
    CountInGroup(rows, RouteKey, route, p, (e: Event) => OnRoute(e, route) && e.latency <= v, s);
  }

  lemma {:induction false} InGroup(rows: seq<Event>, route: string, p: int)
    requires p in Map(LatencyOf, Group(rows, RouteKey, route))
    ensures exists i :: 0 <= i < |rows| && OnRoute(rows[i], route) && rows[i].latency == p
  {
    hide RouteKey, OnRoute;
    var front, last := Front(rows), Last(rows);
    var before := Group(front, RouteKey, route);
    if RouteKey(last) == route && last.latency == p {
      RouteKeyIsOnRoute(last, route);
      assert rows[|rows| - 1].latency == p;
    } else {
      assert p in Map(LatencyOf, before) by {
        var j :| 0 <= j < |Group(rows, RouteKey, route)| && Group(rows, RouteKey, route)[j].latency == p;
        assert Map(LatencyOf, before)[j] == p;
      }
      InGroup(front, route, p);
      var i :| 0 <= i < |front| && OnRoute(front[i], route) && front[i].latency == p;
      assert rows[i] == front[i];
    }
  }

  lemma RoutePercentile(rows: seq<Event>, route: string, n: nat)
    requires n < 100 && Group(rows, RouteKey, route) != []
    ensures IsPercentile(rows, route, n, Percentile(Ascending(Map(LatencyOf, Group(rows, RouteKey, route))), n))
  {
    hide RouteKey, OnRoute, Percentile, Ascending, Group, CountIf, AtMost, RowsOn, Below, NotAbove, ErrorsOn;
    var latencies := Map(LatencyOf, Group(rows, RouteKey, route));
    var p := Percentile(Ascending(latencies), n);
    PercentileHasItsRank(latencies, n);
    CountsOfRoute(rows, route, p);
    InGroup(rows, route, p);
  }

  /** What the report says of a route: how many rows it has, how many of them are server errors, and its 50th,
      95th and 99th percentile. */
  lemma RouteIsReportedExactly(rows: seq<Event>, r: RouteSummary)
    requires r in AllRoutes(rows)
    ensures r.count == |RowsOn(rows, r.route)| && r.errorCount == |ErrorsOn(rows, r.route)|
    ensures IsPercentile(rows, r.route, 50, r.p50) && IsPercentile(rows, r.route, 95, r.p95)
    ensures IsPercentile(rows, r.route, 99, r.p99)
  {
    hide RouteKey, Percentile, Ascending, IsPercentile, CountIf, Group, RowsOn, ErrorsOn, KeysInOrder, AtMost;
    var route := SummaryOfKey(KeysInOrder(rows, RouteKey), rows, r);
    KeysAreDistinctAndComplete(rows, RouteKey);
    RoutePercentile(rows, route, 50);
    RoutePercentile(rows, route, 95);
    RoutePercentile(rows, route, 99);
    CountsOfRoute(rows, route, 0);
  }

  lemma {:induction false} SummaryOfKey(keys: seq<string>, rows: seq<Event>, r: RouteSummary) returns (route: string)
    requires r in Summaries(keys, rows)
    ensures route in keys && r == Summarise(route, EntryOf(rows, route))
  {
    hide Summarise, EntryOf;
    if r == Summarise(Last(keys), EntryOf(rows, Last(keys))) {
      route := Last(keys);
    } else {
      route := SummaryOfKey(Front(keys), rows, r);
    }
  }

  lemma {:induction false} EveryKeyIsSummarised(keys: seq<string>, rows: seq<Event>, k: string)
    requires k in keys
    ensures exists r :: r in Summaries(keys, rows) && r.route == k
  {
    var last := Summarise(Last(keys), EntryOf(rows, Last(keys)));
    hide Summarise, EntryOf;
    if k == Last(keys) {
      SummaryHasItsRoute(k, rows);
      assert last in Summaries(keys, rows);
    } else {
      EveryKeyIsSummarised(Front(keys), rows, k);
      var r :| r in Summaries(Front(keys), rows) && r.route == k;
      assert r in Summaries(keys, rows);
    }
  }

  lemma SummaryHasItsRoute(k: string, rows: seq<Event>)
    ensures Summarise(k, EntryOf(rows, k)).route == k
  {
  }

  lemma EveryRowHasItsRoute(rows: seq<Event>, i: nat)
    requires i < |rows|
    ensures exists r :: r in AllRoutes(rows) && OnRoute(rows[i], r.route)
  {
    hide RouteKey, OnRoute;
    EveryKeyListed(rows, RouteKey);
    EveryKeyIsSummarised(KeysInOrder(rows, RouteKey), rows, RouteKey(rows[i]));
    var r :| r in AllRoutes(rows) && r.route == RouteKey(rows[i]);
    RouteKeyIsOnRoute(rows[i], r.route);
  }

  /** The totals of the report, from the rows alone. */
  lemma TotalsAreExact(rows: seq<Event>)
    ensures CountIf(IsError, rows) == |set i | 0 <= i < |rows| && ServerError(rows[i])|
    ensures CountIf(IsClientError, rows)
         == |set i | 0 <= i < |rows| && rows[i].status.Some? && 400 <= rows[i].status.value <= 499|
  {
    CountIfCounts(IsError, rows, set i | 0 <= i < |rows| && ServerError(rows[i]));
    CountIfCounts(IsClientError, rows, set i | 0 <= i < |rows| && rows[i].status.Some? && 400 <= rows[i].status.value <= 499);
  }

  predicate OnPlatform(e: Event, platform: string) {
    match e.platform
    case Some(name) => name == platform
    case None => platform == "unknown"
  }

  lemma PlatformIsExact(rows: seq<Event>, platform: string)
    ensures |Group(rows, PlatformKey, platform)| == |set i | 0 <= i < |rows| && OnPlatform(rows[i], platform)|
  {
    CountAlways(Group(rows, PlatformKey, platform));
    hide CountIf, Group;
    CountInGroup(rows, PlatformKey, platform, Always, (e: Event) => OnPlatform(e, platform),
                 set i | 0 <= i < |rows| && OnPlatform(rows[i], platform));
  }

  // ------------------------------------------------------------------ what the report adds up to

  function Always(e: Event): bool {
    true
  }

  lemma {:induction false} CountAlways(rows: seq<Event>)
    ensures CountIf(Always, rows) == |rows|
  {
    if rows != [] {
      CountAlways(Front(rows));
    }
  }

  function SumCounts(routes: seq<RouteSummary>): nat {
    if routes == [] then 0 else SumCounts(Front(routes)) + Last(routes).count
  }

  function SumErrors(routes: seq<RouteSummary>): nat {
    if routes == [] then 0 else SumErrors(Front(routes)) + Last(routes).errorCount
  }

  lemma {:induction false} SummariesSum(keys: seq<string>, rows: seq<Event>)
    ensures SumCounts(Summaries(keys, rows)) == SumOverGroups(keys, rows, RouteKey, Always)
    ensures SumErrors(Summaries(keys, rows)) == SumOverGroups(keys, rows, RouteKey, IsError)
  {
    if keys != [] {
      SummariesSum(Front(keys), rows);
      var before, last := Summaries(Front(keys), rows), Summarise(Last(keys), EntryOf(rows, Last(keys)));
      assert Front(before + [last]) == before;
      CountAlways(Group(rows, RouteKey, Last(keys)));
      hide Percentile, Ascending, Group, CountIf;
    }
  }

  /** Over all route groups, before the cut to ten, requests and server errors add up to the totals. */
  lemma RoutesAddUp(rows: seq<Event>)
    ensures SumCounts(AllRoutes(rows)) == |rows|
    ensures SumErrors(AllRoutes(rows)) == CountIf(IsError, rows)
  {
    SummariesSum(KeysInOrder(rows, RouteKey), rows);
    GroupsAddUp(rows, RouteKey, Always);
    GroupsAddUp(rows, RouteKey, IsError);
    CountAlways(rows);
  }

  function PlatformTotal(keys: seq<string>, byPlatform: map<string, nat>): nat
    requires forall i :: 0 <= i < |keys| ==> keys[i] in byPlatform
  {
    if keys == [] then 0 else PlatformTotal(Front(keys), byPlatform) + byPlatform[Last(keys)]
  }

  lemma {:induction false} PlatformTotalIsSum(keys: seq<string>, rows: seq<Event>, byPlatform: map<string, nat>)
    requires forall i :: 0 <= i < |keys| ==> keys[i] in byPlatform
                                             && byPlatform[keys[i]] == |Group(rows, PlatformKey, keys[i])|
    ensures PlatformTotal(keys, byPlatform) == SumOverGroups(keys, rows, PlatformKey, Always)
  {
    if keys != [] {
      PlatformTotalIsSum(Front(keys), rows, byPlatform);
      CountAlways(Group(rows, PlatformKey, Last(keys)));
      assert keys[|keys| - 1] == Last(keys);
    }
  }

  /** The platform counts add up to the number of requests. */
  lemma PlatformsAddUp(rows: seq<Event>, byPlatform: map<string, nat>)
    requires forall k :: k in byPlatform <==> k in KeysInOrder(rows, PlatformKey)
    requires forall k :: k in byPlatform ==> byPlatform[k] == |Group(rows, PlatformKey, k)|
    ensures PlatformTotal(KeysInOrder(rows, PlatformKey), byPlatform) == |rows|
  {
    PlatformTotalIsSum(KeysInOrder(rows, PlatformKey), rows, byPlatform);
    GroupsAddUp(rows, PlatformKey, Always);
    CountAlways(rows);
  }

  /** The reported routes are up to ten, slowest first, and none of the others is slower. */
  lemma SlowestRoutesDominate(routes: seq<RouteSummary>) returns (omitted: seq<RouteSummary>)
    ensures |SlowestRoutes(routes)| == Min(10, |routes|)
    ensures forall i, j :: 0 <= i < j < |SlowestRoutes(routes)| ==>
              SlowestRoutes(routes)[i].p95 >= SlowestRoutes(routes)[j].p95
    ensures multiset(SlowestRoutes(routes)) + multiset(omitted) == multiset(routes)
    ensures forall i, j :: 0 <= i < |SlowestRoutes(routes)| && 0 <= j < |omitted| ==>
              SlowestRoutes(routes)[i].p95 >= omitted[j].p95
  {
    SortDescends(routes, P95Of);
    var sorted := SortDescending(routes, P95Of);
    hide SortDescending;
    var cut := Min(10, |routes|);
    omitted := sorted[cut..];
    assert sorted == sorted[..cut] + sorted[cut..];
    assert forall i, j :: 0 <= i < j < |sorted| ==> P95Of(sorted[i]) >= P95Of(sorted[j]);
  }

  /** Without rows every figure is zero. */
  lemma NothingMeasured(n: nat)
    ensures Percentile(Ascending([]), n) == 0 && ErrorRate(0, 0) == 0.0 && SlowestRoutes(AllRoutes([])) == []
  {
  }

  /** The reported error rate is the percentage of server errors, within half a hundredth. */
  lemma ErrorRateIsThePercentage(rows: seq<Event>)
    requires rows != []
    ensures var rate, exact := ErrorRate(CountIf(IsError, rows), |rows|),
                               100.0 * CountIf(IsError, rows) as real / |rows| as real;
            -0.005 <= rate - exact <= 0.005
  {
    var errors, total := CountIf(IsError, rows) as real, |rows| as real;
    hide CountIf;
    var x := (errors / total) * 10000.0;
    assert 100.0 * errors / total == x / 100.0;
  }
}
