/** In-memory HTTP metrics: bounded latency samples per route, and nearest-rank percentiles. */
module HttpMetrics {
  import opened Wrappers
  import opened MapSums
  import Text

  const MAX_ROUTES: nat := 1000
  const MAX_SAMPLES_PER_ROUTE: nat := 1024

  datatype RouteKey = RouteKey(text: string)

  datatype Duration = NotFinite | Ms(value: real)

  datatype RouteMetric = RouteMetric(count: nat, errors: nat, sumMs: real, minMs: real, maxMs: real, samples: seq<real>)

  datatype RouteSnapshot = RouteSnapshot(count: nat, errors: nat, avgMs: real, minMs: real, maxMs: real, p95Ms: real,
                                         p99Ms: real)

  /** One accepted measurement. */
  datatype Hit = Hit(route: RouteKey, statusCode: nat, ms: real)

  function RouteKeyOf(verb: string, route: string): RouteKey {
    RouteKey(Text.Upper(verb) + " " + route)
  }

  function StatusClass(statusCode: nat): nat { statusCode / 100 }

  /** A route's key is its verb in upper case, a space and the route. */
  lemma RouteKeyReads(verb: string, route: string)
    ensures exists upper :: RouteKeyOf(verb, route).text == upper + " " + route && Text.SameLetters(upper, verb)
                            && forall c | c in upper :: !('a' <= c <= 'z')
  {
    Text.CasesAre(verb);
    assert RouteKeyOf(verb, route).text == Text.Upper(verb) + " " + route;
  }

  /** Verbs hold no space, so requests share a key exactly if their verbs agree up to case and their routes agree. */
  lemma RouteKeySameIff(verb: string, route: string, other: string, path: string)
    requires ' ' !in verb && ' ' !in other
    ensures RouteKeyOf(verb, route) == RouteKeyOf(other, path) <==> Text.SameLetters(verb, other) && route == path
  {
    Text.UpperSameIff(verb, other);
    var s, t := Text.Upper(verb) + " " + route, Text.Upper(other) + " " + path;
    assert s[|verb|] == ' ' && t[|other|] == ' ';
    NoSpace(verb);
    NoSpace(other);
    if s == t {
      assert |verb| == |other|;
      assert Text.Upper(verb) == s[..|verb|] == t[..|other|] == Text.Upper(other);
      assert route == s[|verb| + 1..] == t[|other| + 1..] == path;
    }
  }

  lemma NoSpace(verb: string)
    requires ' ' !in verb
    ensures forall i | 0 <= i < |verb| :: Text.Upper(verb)[i] != ' '
  {
    forall i | 0 <= i < |verb| ensures Text.Upper(verb)[i] != ' ' {
      assert verb[i] in verb;
    }
  }

  lemma ClassMeans(statusCode: nat, c: nat)
    ensures StatusClass(statusCode) == c <==> 100 * c <= statusCode <= 100 * c + 99
  {
  }

  // ---- What the history says ---------------------------------------------------------

  ghost function Durations(history: seq<Hit>, route: RouteKey): seq<real> {
    if history == [] then []
    else
      var front, h := Durations(history[..|history| - 1], route), history[|history| - 1];
      if h.route == route then front + [h.ms] else front
  }

  ghost function CountHits(history: seq<Hit>, p: Hit -> bool): nat {
    if history == [] then 0
    else CountHits(history[..|history| - 1], p) + if p(history[|history| - 1]) then 1 else 0
  }

  ghost function IsError(): Hit -> bool { (h: Hit) => h.statusCode >= 500 }
  ghost function IsErrorOf(route: RouteKey): Hit -> bool { (h: Hit) => h.route == route && h.statusCode >= 500 }
  ghost function InClass(c: nat): Hit -> bool { (h: Hit) => StatusClass(h.statusCode) == c }
  ghost function OutsideOf(routes: set<RouteKey>): Hit -> bool { (h: Hit) => h.route !in routes }

  function LastOf(samples: seq<real>, n: nat): seq<real> {
    if |samples| > n then samples[|samples| - n..] else samples
  }

  ghost function Sum(samples: seq<real>): real {
    if samples == [] then 0.0 else Sum(samples[..|samples| - 1]) + samples[|samples| - 1]
  }

  /** A tracked route's metric is the exact summary of all its durations, with the most recent ones as samples. */
  ghost predicate Summarizes(m: RouteMetric, durations: seq<real>, errors: nat) {
    && m.count == |durations| > 0 && m.errors == errors
    && m.sumMs == Sum(durations)
    && m.minMs in durations && m.maxMs in durations
    && (forall d | d in durations :: m.minMs <= d <= m.maxMs)
    && m.samples == LastOf(durations, MAX_SAMPLES_PER_ROUTE)
  }

  ghost function CountOf(): RouteMetric -> real { (m: RouteMetric) => m.count as real }
  ghost function AsReal(): nat -> real { (n: nat) => n as real }

  /** Every route hit is tracked, unless the table is full; tracked routes miss nothing. */
  ghost predicate RoutesExact(routes: map<RouteKey, RouteMetric>, history: seq<Hit>) {
    && |routes| <= MAX_ROUTES
    && AllExact(routes, history)
    && (|routes| < MAX_ROUTES ==> NothingDropped(routes, history))
    && TotalExact(routes, history)
  }

  ghost predicate AllExact(routes: map<RouteKey, RouteMetric>, history: seq<Hit>) {
    forall r | r in routes :: RouteExact(routes[r], history, r)
  }

  /** The route counts add up to the requests less those that were dropped. */
  ghost predicate TotalExact(routes: map<RouteKey, RouteMetric>, history: seq<Hit>) {
    SumBy(routes, CountOf()) == (|history| - CountHits(history, OutsideOf(routes.Keys))) as real
  }

  ghost predicate RouteExact(m: RouteMetric, history: seq<Hit>, r: RouteKey) {
    Summarizes(m, Durations(history, r), CountHits(history, IsErrorOf(r)))
  }

  ghost predicate NothingDropped(routes: map<RouteKey, RouteMetric>, history: seq<Hit>) {
    forall h | h in history :: h.route in routes
  }

  /** What that says of the two caps: a thousand routes, and the last 1024 durations of each. */
  lemma CapsMean(routes: map<RouteKey, RouteMetric>, history: seq<Hit>)
    requires RoutesExact(routes, history)
    ensures |routes| <= 1000
    ensures (exists h :: h in history && h.route !in routes) ==> |routes| == 1000
    ensures forall r | r in routes ::
              var durations := Durations(history, r);
              && routes[r].count == |durations|
              && routes[r].samples == if |durations| <= 1024 then durations else durations[|durations| - 1024..]
  {
    assert forall r | r in routes :: RouteExact(routes[r], history, r);
  }

  ghost predicate ClassesExact(classes: map<nat, nat>, history: seq<Hit>) {
    && (forall c :: (if c in classes then classes[c] else 0) == CountHits(history, InClass(c)))
    && SumBy(classes, AsReal()) == |history| as real
  }

  ghost predicate TotalsExact(requests: nat, errors: nat, history: seq<Hit>) {
    requests == |history| && errors == CountHits(history, IsError())
  }

  function Updated(existing: Option<RouteMetric>, statusCode: nat, ms: real): RouteMetric {
    var m := GetOr(existing, RouteMetric(0, 0, 0.0, ms, ms, []));
    RouteMetric(m.count + 1, if statusCode >= 500 then m.errors + 1 else m.errors, m.sumMs + ms,
                if ms < m.minMs then ms else m.minMs, if ms > m.maxMs then ms else m.maxMs,
                LastOf(m.samples + [ms], MAX_SAMPLES_PER_ROUTE))
  }

  class HttpMetricsService {
    var requests: nat
    var errors: nat
    var statusClasses: map<nat, nat>
    var routes: map<RouteKey, RouteMetric>
    ghost var history: seq<Hit>    // every accepted measurement

    ghost predicate Valid()
      reads this
    {
      TotalsExact(requests, errors, history) && ClassesExact(statusClasses, history) && RoutesExact(routes, history)
    }

    constructor ()
      ensures Valid() && history == []
    {
      requests, errors, statusClasses, routes, history := 0, 0, map[], map[], [];
    }

    method Record(verb: string, route: string, statusCode: nat, duration: Duration)
      requires Valid()
      modifies this
      ensures Valid()
      ensures history == if duration.NotFinite? || duration.value < 0.0 then old(history)
                         else old(history) + [Hit(RouteKeyOf(verb, route), statusCode, duration.value)]
      // A route stays out of the table only when the table was full without it.
      ensures var key := RouteKeyOf(verb, route);
              duration.Ms? && duration.value >= 0.0 ==>
                (key in routes <==> key in old(routes) || old(|routes|) < MAX_ROUTES)
    {
      if duration.NotFinite? || duration.value < 0.0 {
        return;
      }
      hide ClassesExact, RoutesExact, TotalsExact, RouteKeyOf;
      var ms := duration.value;
      var routeKey := RouteKeyOf(verb, route);
      CountRequest(routeKey, statusCode, ms);
      TrackRoute(routeKey, statusCode, ms, history[..|history| - 1]);
    }

    /** The totals and status classes, which have no cap. */
    method CountRequest(routeKey: RouteKey, statusCode: nat, ms: real)
      requires TotalsExact(requests, errors, history) && ClassesExact(statusClasses, history)
      modifies `requests, `errors, `statusClasses, `history
      ensures history == old(history) + [Hit(routeKey, statusCode, ms)]
      ensures TotalsExact(requests, errors, history) && ClassesExact(statusClasses, history)
    {
      hide ClassesExact, TotalsExact, StatusClass;
      ghost var hit := Hit(routeKey, statusCode, ms);
      TotalsStep(requests, errors, history, hit);
      ClassStep(statusClasses, history, hit);
      requests := requests + 1;
      if statusCode >= 500 {
        errors := errors + 1;
      }
      var statusClass := StatusClass(statusCode);
      var soFar := if statusClass in statusClasses then statusClasses[statusClass] else 0;
      statusClasses := statusClasses[statusClass := soFar + 1];
      history := history + [hit];
    }

    /** The route's own metric, unless the table is full without it. */
    method TrackRoute(routeKey: RouteKey, statusCode: nat, ms: real, ghost before: seq<Hit>)
      requires RoutesExact(routes, before)
      modifies `routes
      ensures RoutesExact(routes, before + [Hit(routeKey, statusCode, ms)])
      ensures routeKey in routes <==> routeKey in old(routes) || old(|routes|) < MAX_ROUTES
    {
      hide RoutesExact, Updated, Existing;
      ghost var hit := Hit(routeKey, statusCode, ms);
      if routeKey !in routes && |routes| >= MAX_ROUTES {
        DroppedStep(routes, before, hit);
        return;
      }
      TrackedStep(routes, before, hit);
      routes := routes[routeKey := Updated(Existing(routes, routeKey), statusCode, ms)];
    }

    /** One row per tracked route. */
    method Snapshot() returns (perRoute: map<RouteKey, RouteSnapshot>)
      requires Valid()
      ensures perRoute.Keys == routes.Keys
      ensures forall r | r in routes :: Reports(perRoute[r], routes[r])
    {
      hide RoutesExact, ClassesExact, Reports, Row, CountHits;
      perRoute := map[];
      var keys := routes.Keys;
      while keys != {}
        invariant keys <= routes.Keys && perRoute.Keys == routes.Keys - keys
        invariant forall r | r in perRoute :: Reports(perRoute[r], routes[r])
        decreases keys
      {
        var key :| key in keys;
        SampledRoute(routes, history, key);
        perRoute := perRoute[key := Row(routes[key])];
        RowReports(routes[key]);
        keys := keys - {key};
      }
    }
  }

  // ---- Percentiles -------------------------------------------------------------------

  function Insert(x: real, s: seq<real>): (r: seq<real>)
    ensures |r| == |s| + 1
  {
    if s == [] || x <= s[0] then [x] + s else [s[0]] + Insert(x, s[1..])
  }

  function Sorted(s: seq<real>): (r: seq<real>)
    ensures |r| == |s|
  {
    if s == [] then [] else Insert(s[0], Sorted(s[1..]))
  }

  /** `ceil(n * percent / 100) - 1`, and never below zero. */
  function PercentileIndex(n: nat, percent: nat): (i: nat)
    requires 0 < n && percent <= 100
    ensures i < n
  {
    var rank := (n * percent + 99) / 100;
    if rank > 0 then rank - 1 else 0
  }

  ghost function CountLe(s: seq<real>, v: real): nat {
    if s == [] then 0 else CountLe(s[1..], v) + if s[0] <= v then 1 else 0
  }

  ghost function CountLt(s: seq<real>, v: real): nat {
    if s == [] then 0 else CountLt(s[1..], v) + if s[0] < v then 1 else 0
  }

  /** The two counts are numbers of positions. */
  lemma {:induction false} CountsAre(s: seq<real>, v: real)
    ensures CountLe(s, v) == |Positions(s, AtMost(v))| && CountLt(s, v) == |Positions(s, Below(v))|
  {
    if s == [] {
      assert Positions(s, AtMost(v)) == {} && Positions(s, Below(v)) == {};
    } else {
      var front, x := s[..|s| - 1], s[|s| - 1];
      CountsAre(front, v);
      CountsOneMore(front, x, v);
      assert s == front + [x];
      PositionsOneMore(front, x, AtMost(v));
      PositionsOneMore(front, x, Below(v));
    }
  }

  ghost function AtMost(v: real): real -> bool { r => r <= v }
  ghost function Below(v: real): real -> bool { r => r < v }

  ghost function Positions(s: seq<real>, p: real -> bool): set<int> {
    set i | 0 <= i < |s| && p(s[i])
  }

  lemma PositionsOneMore(front: seq<real>, x: real, p: real -> bool)
    ensures |Positions(front + [x], p)| == |Positions(front, p)| + if p(x) then 1 else 0
  {
    var all := front + [x];
    assert forall i | 0 <= i < |front| :: all[i] == front[i];
    assert Positions(all, p) == Positions(front, p) + if p(x) then {|front|} else {};
  }

  lemma {:induction false} CountsOneMore(s: seq<real>, x: real, v: real)
    ensures CountLe(s + [x], v) == CountLe(s, v) + if x <= v then 1 else 0
    ensures CountLt(s + [x], v) == CountLt(s, v) + if x < v then 1 else 0
  {
    if s == [] {
      assert s + [x] == [x];
    } else {
      assert (s + [x])[1..] == s[1..] + [x];
      CountsOneMore(s[1..], x, v);
    }
  }

  /** The nearest-rank percentile: a sample with enough samples at or below it, and too few below it. */
  ghost predicate IsNearestRank(samples: seq<real>, percent: nat, v: real) {
    && v in samples
    && CountLe(samples, v) * 100 >= percent * |samples|
    && CountLt(samples, v) * 100 < percent * |samples|
  }

  ghost predicate Ascending(s: seq<real>) {
    forall i, j | 0 <= i <= j < |s| :: s[i] <= s[j]
  }

  lemma {:induction false} InsertKeeps(x: real, s: seq<real>)
    requires Ascending(s)
    ensures Ascending(Insert(x, s))
    ensures forall y :: y in Insert(x, s) <==> y == x || y in s
  {
    if s != [] && x > s[0] {
      var rest := Insert(x, s[1..]);
      InsertKeeps(x, s[1..]);
      assert s == [s[0]] + s[1..];
      forall y | y in rest ensures s[0] <= y {
        if y != x { var k :| 0 <= k < |s| - 1 && s[1..][k] == y; assert s[k + 1] == y; }
      }
      assert forall k | 0 <= k < |rest| :: rest[k] in rest;
    }
  }

  lemma {:induction false} InsertCounts(x: real, s: seq<real>, v: real)
    ensures CountLe(Insert(x, s), v) == CountLe(s, v) + if x <= v then 1 else 0
    ensures CountLt(Insert(x, s), v) == CountLt(s, v) + if x < v then 1 else 0
  {
    if s != [] && x > s[0] {
      InsertCounts(x, s[1..], v);
      assert ([s[0]] + Insert(x, s[1..]))[1..] == Insert(x, s[1..]);
    } else {
      assert ([x] + s)[1..] == s;
    }
  }

  lemma {:induction false} SortedIsPermutation(s: seq<real>)
    ensures Ascending(Sorted(s))
    ensures forall y :: y in Sorted(s) <==> y in s
    ensures forall v :: CountLe(Sorted(s), v) == CountLe(s, v) && CountLt(Sorted(s), v) == CountLt(s, v)
  {
    if s != [] {
      SortedIsPermutation(s[1..]);
      InsertKeeps(s[0], Sorted(s[1..]));
      assert s == [s[0]] + s[1..];
      forall v ensures CountLe(Sorted(s), v) == CountLe(s, v) && CountLt(Sorted(s), v) == CountLt(s, v) {
        InsertCounts(s[0], Sorted(s[1..]), v);
      }
    }
  }

  /** In a sorted list at least i+1 elements are at or below the i-th, and at most i are below it. */
  lemma {:induction false} RankCounts(s: seq<real>, i: nat, v: real)
    requires Ascending(s)
    ensures i < |s| && s[i] <= v ==> CountLe(s, v) >= i + 1
    ensures i < |s| && s[i] >= v ==> CountLt(s, v) <= i
    ensures CountLt(s, v) <= |s|
  {
    if s != [] {
      if i > 0 {
        RankCounts(s[1..], i - 1, v);
      } else {
        RankCounts(s[1..], 0, v);
        NoneBelow(s, v);
      }
    }
  }

  lemma {:induction false} NoneBelow(s: seq<real>, v: real)
    requires Ascending(s)
    ensures s != [] && s[0] >= v ==> CountLt(s, v) == 0
  {
    if s != [] {
      NoneBelow(s[1..], v);
    }
  }

  lemma RankBounds(n: nat, percent: nat)
    requires 0 < n && 0 < percent <= 100
    ensures (PercentileIndex(n, percent) + 1) * 100 >= percent * n > PercentileIndex(n, percent) * 100
  {
    assert n * percent == percent * n > 0;
  }

  lemma PercentileIsNearestRank(samples: seq<real>, percent: nat)
    requires samples != [] && 0 < percent <= 100
    ensures IsNearestRank(samples, percent, Sorted(samples)[PercentileIndex(|samples|, percent)])
  {
    var s, i := Sorted(samples), PercentileIndex(|samples|, percent);
    SortedIsPermutation(samples);
    RankCounts(s, i, s[i]);
    RankBounds(|samples|, percent);
    hide CountLe, CountLt, PercentileIndex, Sorted, Ascending;
    assert s[i] in s;
  }

  lemma PercentilesInOrder(samples: seq<real>, low: nat, high: nat)
    requires samples != [] && 0 < low <= high <= 100
    ensures var s := Sorted(samples);
            && s[PercentileIndex(|s|, low)] <= s[PercentileIndex(|s|, high)]
            && IsNearestRank(samples, low, s[PercentileIndex(|s|, low)])
            && IsNearestRank(samples, high, s[PercentileIndex(|s|, high)])
  {
    SortedIsPermutation(samples);
    PercentileIsNearestRank(samples, low);
    PercentileIsNearestRank(samples, high);
    IndexMonotone(|samples|, low, high);
    hide CountLe, CountLt, PercentileIndex, Sorted, IsNearestRank;
  }

  lemma IndexMonotone(n: nat, low: nat, high: nat)
    requires 0 < n && 0 < low <= high <= 100
    ensures PercentileIndex(n, low) <= PercentileIndex(n, high)
  {
    assert low * n <= high * n;
    RankBounds(n, low);
    RankBounds(n, high);
    hide PercentileIndex;
  }

  /** The snapshot row of a route, from a sorted copy of its samples. */
  function Row(m: RouteMetric): RouteSnapshot
    requires m.count > 0 && m.samples != []
  {
    var sorted := Sorted(m.samples);
    RouteSnapshot(m.count, m.errors, m.sumMs / m.count as real, m.minMs, m.maxMs,
                  sorted[PercentileIndex(|sorted|, 95)], sorted[PercentileIndex(|sorted|, 99)])
  }

  lemma RowReports(m: RouteMetric)
    requires m.count > 0 && m.samples != [] && forall v | v in m.samples :: m.minMs <= v <= m.maxMs
    ensures Reports(Row(m), m)
  {
    PercentilesInOrder(m.samples, 95, 99);
    hide PercentileIndex, CountLe, CountLt, Sorted;
  }

  /** What a snapshot row says of its route. */
  ghost predicate Reports(row: RouteSnapshot, m: RouteMetric) {
    && row.count == m.count > 0 && row.errors == m.errors && row.minMs == m.minMs && row.maxMs == m.maxMs
    && row.avgMs == m.sumMs / m.count as real
    && row.minMs <= row.p95Ms <= row.p99Ms <= row.maxMs
    && IsNearestRank(m.samples, 95, row.p95Ms) && IsNearestRank(m.samples, 99, row.p99Ms)
  }

  // ---- One measurement ---------------------------------------------------------------

  lemma CountAppend(history: seq<Hit>, h: Hit, p: Hit -> bool)
    ensures CountHits(history + [h], p) == CountHits(history, p) + if p(h) then 1 else 0
  {
    assert (history + [h])[..|history|] == history;
  }

  lemma DurationsAppend(history: seq<Hit>, h: Hit, route: RouteKey)
    ensures Durations(history + [h], route)
            == if h.route == route then Durations(history, route) + [h.ms] else Durations(history, route)
  {
    assert (history + [h])[..|history|] == history;
  }

  lemma TotalsStep(requests: nat, errors: nat, history: seq<Hit>, h: Hit)
    requires TotalsExact(requests, errors, history)
    ensures TotalsExact(requests + 1, errors + if h.statusCode >= 500 then 1 else 0, history + [h])
  {
    CountAppend(history, h, IsError());
  }

  lemma ClassStep(classes: map<nat, nat>, history: seq<Hit>, h: Hit)
    requires ClassesExact(classes, history)
    ensures var c := StatusClass(h.statusCode);
            ClassesExact(classes[c := (if c in classes then classes[c] else 0) + 1], history + [h])
  {
    var c := StatusClass(h.statusCode);
    var soFar := if c in classes then classes[c] else 0;
    forall d ensures CountHits(history + [h], InClass(d)) == CountHits(history, InClass(d)) + if d == c then 1 else 0 {
      CountAppend(history, h, InClass(d));
    }
    SumByUpdate(classes, AsReal(), c, soFar + 1);
  }

  lemma SummaryStep(m: RouteMetric, durations: seq<real>, errors: nat, statusCode: nat, ms: real)
    requires Summarizes(m, durations, errors)
    ensures Summarizes(Updated(Some(m), statusCode, ms), durations + [ms], errors + if statusCode >= 500 then 1 else 0)
  {
    assert (durations + [ms])[..|durations|] == durations;
    assert LastOf(LastOf(durations, MAX_SAMPLES_PER_ROUTE) + [ms], MAX_SAMPLES_PER_ROUTE)
      == LastOf(durations + [ms], MAX_SAMPLES_PER_ROUTE);
  }

  lemma SummaryStart(statusCode: nat, ms: real)
    ensures Summarizes(Updated(None, statusCode, ms), [ms], if statusCode >= 500 then 1 else 0)
  {
    assert [ms][..0] == [];
    assert [] + [ms] == [ms];
  }

  lemma DroppedStep(routes: map<RouteKey, RouteMetric>, history: seq<Hit>, h: Hit)
    requires RoutesExact(routes, history) && h.route !in routes && |routes| >= MAX_ROUTES
    ensures RoutesExact(routes, history + [h])
  {
    CountAppend(history, h, OutsideOf(routes.Keys));
    forall r | r in routes ensures RouteExact(routes[r], history + [h], r) {
      OtherRouteKept(routes[r], history, h, r);
    }
  }

  lemma {:induction false} Untouched(history: seq<Hit>, route: RouteKey)
    requires forall h | h in history :: h.route != route
    ensures Durations(history, route) == [] && CountHits(history, IsErrorOf(route)) == 0
  {
    if history != [] {
      assert forall h | h in history[..|history| - 1] :: h in history;
      Untouched(history[..|history| - 1], route);
      assert history[|history| - 1] in history;
    }
  }

  lemma {:induction false} SameOutside(history: seq<Hit>, a: set<RouteKey>, b: set<RouteKey>)
    requires forall h | h in history :: h.route in a <==> h.route in b
    ensures CountHits(history, OutsideOf(a)) == CountHits(history, OutsideOf(b))
  {
    if history != [] {
      assert forall h | h in history[..|history| - 1] :: h in history;
      SameOutside(history[..|history| - 1], a, b);
      assert history[|history| - 1] in history;
    }
  }

  function Existing(routes: map<RouteKey, RouteMetric>, r: RouteKey): Option<RouteMetric> {
    if r in routes then Some(routes[r]) else None
  }

  lemma TrackedStep(routes: map<RouteKey, RouteMetric>, history: seq<Hit>, h: Hit)
    requires RoutesExact(routes, history) && (h.route in routes || |routes| < MAX_ROUTES)
    ensures RoutesExact(routes[h.route := Updated(Existing(routes, h.route), h.statusCode, h.ms)], history + [h])
  {
    var m := Updated(Existing(routes, h.route), h.statusCode, h.ms);
    UpdatedSummary(routes, history, h);
    TrackedTotal(routes, history, h, m);
    var after := routes[h.route := m];
    hide Updated, Existing, TotalExact, RouteExact;
    TrackedOthers(routes, history, h, m);
    if |routes| < MAX_ROUTES {
      NothingDroppedStep(routes, history, h, m);
    }
    hide AllExact, NothingDropped;
    assert after.Keys == routes.Keys + {h.route};
  }

  lemma NothingDroppedStep(routes: map<RouteKey, RouteMetric>, history: seq<Hit>, h: Hit, m: RouteMetric)
    requires NothingDropped(routes, history)
    ensures NothingDropped(routes[h.route := m], history + [h])
  {
  }

  lemma TrackedOthers(routes: map<RouteKey, RouteMetric>, history: seq<Hit>, h: Hit, m: RouteMetric)
    requires AllExact(routes, history) && RouteExact(m, history + [h], h.route)
    ensures AllExact(routes[h.route := m], history + [h])
  {
    hide RouteExact;
    forall r | r in routes && r != h.route ensures RouteExact(routes[r], history + [h], r) {
      OtherRouteKept(routes[r], history, h, r);
    }
  }

  lemma OtherRouteKept(m: RouteMetric, history: seq<Hit>, h: Hit, r: RouteKey)
    requires RouteExact(m, history, r) && r != h.route
    ensures RouteExact(m, history + [h], r)
  {
    DurationsAppend(history, h, r);
    CountAppend(history, h, IsErrorOf(r));
    hide Durations, CountHits, Summarizes;
  }

  lemma UpdatedSummary(routes: map<RouteKey, RouteMetric>, history: seq<Hit>, h: Hit)
    requires RoutesExact(routes, history) && (h.route in routes || |routes| < MAX_ROUTES)
    ensures var m := Updated(Existing(routes, h.route), h.statusCode, h.ms);
            && RouteExact(m, history + [h], h.route)
            && m.count == if h.route in routes then routes[h.route].count + 1 else 1
  {
    DurationsAppend(history, h, h.route);
    CountAppend(history, h, IsErrorOf(h.route));
    hide Durations, CountHits, TotalExact;
    if h.route in routes {
      SummaryStep(routes[h.route], Durations(history, h.route), CountHits(history, IsErrorOf(h.route)), h.statusCode,
        h.ms);
    } else {
      Untouched(history, h.route);
      SummaryStart(h.statusCode, h.ms);
      assert RouteExact(Updated(None, h.statusCode, h.ms), history + [h], h.route);
    }
  }

  lemma TrackedTotal(routes: map<RouteKey, RouteMetric>, history: seq<Hit>, h: Hit, m: RouteMetric)
    requires RoutesExact(routes, history) && (h.route in routes || |routes| < MAX_ROUTES)
    requires m.count == if h.route in routes then routes[h.route].count + 1 else 1
    ensures TotalExact(routes[h.route := m], history + [h])
  {
    var after := routes[h.route := m];
    SumByUpdate(routes, CountOf(), h.route, m);
    SameOutside(history, routes.Keys, after.Keys);
    CountAppend(history, h, OutsideOf(after.Keys));
  }

  lemma SampledRoute(routes: map<RouteKey, RouteMetric>, history: seq<Hit>, r: RouteKey)
    requires RoutesExact(routes, history) && r in routes
    ensures routes[r].count > 0 && routes[r].samples != []
    ensures forall v | v in routes[r].samples :: routes[r].minMs <= v <= routes[r].maxMs
  {
    var durations := Durations(history, r);
    assert Summarizes(routes[r], durations, CountHits(history, IsErrorOf(r)));
    assert forall v | v in LastOf(durations, MAX_SAMPLES_PER_ROUTE) :: v in durations;
  }
}
