/** The in-process monitor that counts authentication failures in sliding windows and raises anomalies. */
module AnomalyMonitor {
  import opened Wrappers
  import Text

  const WINDOW_MS: int := 10 * 60 * 1000
  const CLEANUP_AFTER_MS: int := 60 * 60 * 1000

  datatype Dimension = Ip | Device | Identifier

  function Threshold(d: Dimension): int {
    match d
    case Ip => 20
    case Device => 12
    case Identifier => 8
  }

  function DimensionName(d: Dimension): string {
    match d
    case Ip => "ip"
    case Device => "device"
    case Identifier => "identifier"
  }

  function AnomalyKey(d: Dimension, key: string): string {
    DimensionName(d) + ":" + key
  }

  lemma AnomalyKeyInjective(d: Dimension, k: string, e: Dimension, l: string)
    requires AnomalyKey(d, k) == AnomalyKey(e, l)
    ensures d == e && k == l
  {
    var s, t := AnomalyKey(d, k), AnomalyKey(e, l);
    assert s[0] == DimensionName(d)[0] && t[0] == DimensionName(e)[0];
    assert s[1] == DimensionName(d)[1] && t[1] == DimensionName(e)[1];
    assert k == s[|DimensionName(d)| + 1..] && l == t[|DimensionName(e)| + 1..];
  }

  datatype SlidingWindow = SlidingWindow(events: seq<int>, lastSeenAt: int)

  type WindowMap = map<string, SlidingWindow>

  /** The text, with the blanks at both ends cut off, is this non-empty key. */
  ghost predicate Names(text: Option<string>, key: string) {
    text.Some? && Text.IsCore(text.value, key, Text.JS_BLANKS)
  }

  lemma NamesIff(text: Option<string>)
    ensures forall key :: Names(text, key) <==> Text.NormalizeOptional(text) == Some(key)
  {
    forall key ensures Names(text, key) <==> Text.NormalizeOptional(text) == Some(key) {
      if text.Some? {
        Text.CoreIff(text.value, key, Text.JS_BLANKS);
      }
    }
  }

  /** One failure as it happened, and one anomaly as it was raised. */
  datatype Failure = Failure(dimension: Dimension, key: string, time: int)
  datatype Anomaly = Anomaly(dimension: Dimension, key: string, time: int, countInWindow: int)

  function Keep(events: seq<int>, cutoff: int): seq<int> {
    if events == [] then []
    else
      var front, last := events[..|events| - 1], events[|events| - 1];
      if last >= cutoff then Keep(front, cutoff) + [last] else Keep(front, cutoff)
  }

  function Events(m: WindowMap, key: string): seq<int> {
    if key in m then m[key].events else []
  }

  // ---- The complete log --------------------------------------------------------------

  ghost function Times(log: seq<Failure>, d: Dimension, key: string): seq<int> {
    if log == [] then []
    else
      var front, f := log[..|log| - 1], log[|log| - 1];
      if f.dimension == d && f.key == key then Times(front, d, key) + [f.time] else Times(front, d, key)
  }

  /** How many failures of a key the log holds with a time in [lo, hi]. */
  ghost function CountIn(log: seq<Failure>, d: Dimension, key: string, lo: int, hi: int): nat {
    if log == [] then 0
    else
      var f := log[|log| - 1];
      CountIn(log[..|log| - 1], d, key, lo, hi)
      + if f.dimension == d && f.key == key && lo <= f.time <= hi then 1 else 0
  }

  ghost predicate NotLaterThan(log: seq<Failure>, now: int) {
    forall f | f in log :: f.time <= now
  }

  lemma {:induction false} KeptAreCounted(log: seq<Failure>, d: Dimension, key: string, lo: int, now: int)
    requires NotLaterThan(log, now)
    ensures |Keep(Times(log, d, key), lo)| == CountIn(log, d, key, lo, now)
  {
    if log != [] {
      var front, f := log[..|log| - 1], log[|log| - 1];
      assert forall g | g in front :: g in log;
      KeptAreCounted(front, d, key, lo, now);
      assert f in log;
      KeepAppend(Times(front, d, key), f.time, lo);
    }
  }

  lemma KeepAppend(events: seq<int>, t: int, cutoff: int)
    ensures Keep(events + [t], cutoff) == if t >= cutoff then Keep(events, cutoff) + [t] else Keep(events, cutoff)
  {
  }

  lemma {:induction false} KeepTwice(events: seq<int>, a: int, b: int)
    requires a <= b
    ensures Keep(Keep(events, a), b) == Keep(events, b)
  {
    if events != [] {
      var front, t := events[..|events| - 1], events[|events| - 1];
      KeepTwice(front, a, b);
      if t >= a { KeepAppend(Keep(front, a), t, b); }
    }
  }

  /** A window map agrees with the log on everything not older than a window before `clock`. */
  ghost predicate Reflects(m: WindowMap, log: seq<Failure>, d: Dimension, clock: int) {
    forall key, c | c >= clock - WINDOW_MS :: Keep(Events(m, key), c) == Keep(Times(log, d, key), c)
  }

  function Recorded(m: WindowMap, key: string, now: int): WindowMap {
    m[key := SlidingWindow(Keep(Events(m, key), now - WINDOW_MS) + [now], now)]
  }

  function Stale(w: SlidingWindow, now: int): bool {
    Keep(w.events, now - WINDOW_MS) == [] && w.lastSeenAt < now - CLEANUP_AFTER_MS
  }

  function Pruned(m: WindowMap, now: int): WindowMap {
    map key | key in m && !Stale(m[key], now) :: SlidingWindow(Keep(m[key].events, now - WINDOW_MS), m[key].lastSeenAt)
  }

  lemma {:induction false} KeptMembers(events: seq<int>, cutoff: int)
    ensures forall t :: t in Keep(events, cutoff) <==> t in events && t >= cutoff
  {
    if events != [] {
      KeptMembers(events[..|events| - 1], cutoff);
      assert events == events[..|events| - 1] + [events[|events| - 1]];
    }
  }

  /**
   * A key is dropped exactly when it has no failure of the last ten minutes and was not seen for an hour; of the events
   * of the others those of the last ten minutes remain.
   */
  lemma PrunedMeans(m: WindowMap, now: int)
    ensures forall key :: key in Pruned(m, now)
                          <==> key in m && (HasSince(m[key], now - 600_000) || m[key].lastSeenAt >= now - 3_600_000)
    ensures forall key, t | key in Pruned(m, now) ::
              t in Pruned(m, now)[key].events <==> t in m[key].events && t >= now - 600_000
  {
    forall key | key in m
      ensures Stale(m[key], now) <==> !HasSince(m[key], now - 600_000) && m[key].lastSeenAt < now - 3_600_000
    {
      StaleMeans(m[key], now);
    }
    forall key, t | key in Pruned(m, now)
      ensures t in Pruned(m, now)[key].events <==> t in m[key].events && t >= now - 600_000
    {
      KeptMembers(m[key].events, now - WINDOW_MS);
    }
    hide Stale, Keep, HasSince;
  }

  ghost predicate HasSince(w: SlidingWindow, since: int) {
    exists t :: t in w.events && t >= since
  }

  lemma StaleMeans(w: SlidingWindow, now: int)
    ensures Stale(w, now) <==> !HasSince(w, now - 600_000) && w.lastSeenAt < now - 3_600_000
  {
    var kept := Keep(w.events, now - WINDOW_MS);
    KeptMembers(w.events, now - WINDOW_MS);
    if HasSince(w, now - 600_000) {
      var t :| t in w.events && t >= now - 600_000;
      assert t in kept;
    }
    if kept != [] {
      assert kept[0] in kept && kept[0] in w.events && kept[0] >= now - 600_000;
    }
  }

  lemma PruneReflects(m: WindowMap, log: seq<Failure>, d: Dimension, clock: int, now: int)
    requires Reflects(m, log, d, clock) && clock <= now
    ensures Reflects(Pruned(m, now), log, d, now)
  {
    forall key, c | c >= now - WINDOW_MS
      ensures Keep(Events(Pruned(m, now), key), c) == Keep(Times(log, d, key), c)
    {
      assert Keep(Events(m, key), c) == Keep(Times(log, d, key), c);
      KeepTwice(Events(m, key), now - WINDOW_MS, c);
      if key in m && Stale(m[key], now) {
        assert Keep([], c) == [];
      }
    }
  }

  lemma TimesAppend(log: seq<Failure>, f: Failure, d: Dimension, key: string)
    ensures Times(log + [f], d, key)
            == if f.dimension == d && f.key == key then Times(log, d, key) + [f.time] else Times(log, d, key)
  {
  }

  lemma RecordReflects(m: WindowMap, log: seq<Failure>, d: Dimension, key: string, now: int)
    requires Reflects(m, log, d, now) && NotLaterThan(log, now)
    ensures Reflects(Recorded(m, key, now), log + [Failure(d, key, now)], d, now)
    ensures |Events(Recorded(m, key, now), key)| == CountIn(log + [Failure(d, key, now)], d, key, now - WINDOW_MS, now)
  {
    var f := Failure(d, key, now);
    var kept := Keep(Events(m, key), now - WINDOW_MS);
    forall k, c | c >= now - WINDOW_MS
      ensures Keep(Events(Recorded(m, key, now), k), c) == Keep(Times(log + [f], d, k), c)
    {
      hide Keep, Times;
      assert Keep(Events(m, k), c) == Keep(Times(log, d, k), c);
      TimesAppend(log, f, d, k);
      if k == key {
        KeepTwice(Events(m, key), now - WINDOW_MS, c);
        KeepAppend(kept, now, c);
        KeepAppend(Times(log, d, key), now, c);
      }
    }
    hide Keep, Times;
    assert kept == Keep(Times(log, d, key), now - WINDOW_MS);
    KeptAreCounted(log, d, key, now - WINDOW_MS, now);
    CountAppend(log, f, d, key, now - WINDOW_MS, now);
  }

  lemma CountAppend(log: seq<Failure>, f: Failure, d: Dimension, key: string, lo: int, hi: int)
    ensures CountIn(log + [f], d, key, lo, hi)
            == CountIn(log, d, key, lo, hi) + if f.dimension == d && f.key == key && lo <= f.time <= hi then 1 else 0
  {
  }

  lemma OtherDimensionReflects(m: WindowMap, log: seq<Failure>, d: Dimension, f: Failure, now: int)
    requires Reflects(m, log, d, now) && f.dimension != d
    ensures Reflects(m, log + [f], d, now)
  {
  }

  // ---- Anomalies ---------------------------------------------------------------------

  ghost predicate About(a: Anomaly, d: Dimension, key: string) {
    a.dimension == d && a.key == key
  }

  /** When the last anomaly of a key was raised. */
  ghost function LastRaised(anomalies: seq<Anomaly>, d: Dimension, key: string): Option<int> {
    if anomalies == [] then None
    else if About(anomalies[|anomalies| - 1], d, key) then Some(anomalies[|anomalies| - 1].time)
    else LastRaised(anomalies[..|anomalies| - 1], d, key)
  }

  /** The de-duplication map remembers each key's last anomaly for at least an hour. */
  ghost predicate Remembers(seen: map<string, int>, anomalies: seq<Anomaly>, clock: int) {
    forall d, key :: RememberedKey(seen, anomalies, clock, d, key)
  }

  ghost predicate RememberedKey(seen: map<string, int>, anomalies: seq<Anomaly>, clock: int,
                                d: Dimension, key: string)
  {
    var k := AnomalyKey(d, key);
    match LastRaised(anomalies, d, key)
    case Some(t) => if k in seen then seen[k] == t else t < clock - CLEANUP_AFTER_MS
    case None => k !in seen
  }

  /** Two anomalies of one key are a full window apart (a time of zero reads as absent in the source). */
  ghost predicate Spaced(anomalies: seq<Anomaly>) {
    forall i, j | 0 <= i < j < |anomalies| && About(anomalies[j], anomalies[i].dimension, anomalies[i].key) ::
      anomalies[i].time == 0 || anomalies[j].time - anomalies[i].time >= WINDOW_MS
  }

  /** Each anomaly's key had reached its threshold in the window that ends with it. */
  ghost predicate Justified(anomalies: seq<Anomaly>, log: seq<Failure>) {
    forall a | a in anomalies :: CountIn(log, a.dimension, a.key, a.time - WINDOW_MS, a.time) >= Threshold(a.dimension)
  }

  /** A failure that is at or over its threshold when it happens has an anomaly in the window that ends with it. */
  ghost predicate Covered(log: seq<Failure>, n: nat, anomalies: seq<Anomaly>)
    requires n < |log|
  {
    var f := log[n];
    CountIn(log[..n + 1], f.dimension, f.key, f.time - WINDOW_MS, f.time) >= Threshold(f.dimension) ==>
      RaisedRecently(anomalies, f.dimension, f.key, f.time)
  }

  ghost predicate AllCovered(log: seq<Failure>, anomalies: seq<Anomaly>) {
    forall n | 0 <= n < |log| :: Covered(log, n, anomalies)
  }

  /**
   * What the two say: after twenty failures from one address, twelve of one device or eight of one account within ten
   * minutes an alarm was raised in the ten minutes up to the last of them, and no alarm without as many.
   */
  lemma AlarmsMean(log: seq<Failure>, anomalies: seq<Anomaly>)
    requires AllCovered(log, anomalies) && Justified(anomalies, log)
    ensures forall n | 0 <= n < |log| && AlarmDue(log, n) :: AlarmNear(anomalies, log[n])
    ensures forall a | a in anomalies ::
              CountIn(log, a.dimension, a.key, a.time - 600_000, a.time) >= AlarmAt(a.dimension)
  {
    forall n | 0 <= n < |log| && AlarmDue(log, n) ensures AlarmNear(anomalies, log[n]) {
      hide CountIn;
      assert Covered(log, n, anomalies);
      var f := log[n];
      var a :| a in anomalies && About(a, f.dimension, f.key) && f.time - WINDOW_MS < a.time <= f.time;
    }
  }

  ghost predicate AlarmDue(log: seq<Failure>, n: nat)
    requires n < |log|
  {
    var f := log[n];
    CountIn(log[..n + 1], f.dimension, f.key, f.time - 600_000, f.time) >= AlarmAt(f.dimension)
  }

  ghost predicate AlarmNear(anomalies: seq<Anomaly>, f: Failure) {
    exists a :: a in anomalies && a.dimension == f.dimension && a.key == f.key && f.time - 600_000 < a.time <= f.time
  }

  ghost function AlarmAt(d: Dimension): nat {
    if d == Ip then 20 else if d == Device then 12 else 8
  }

  ghost predicate NotRaisedLaterThan(anomalies: seq<Anomaly>, now: int) {
    forall a | a in anomalies :: 0 <= a.time <= now
  }

  lemma {:induction false} LastRaisedIsLatest(anomalies: seq<Anomaly>, d: Dimension, key: string)
    requires forall i, j | 0 <= i < j < |anomalies| :: anomalies[i].time <= anomalies[j].time
    ensures match LastRaised(anomalies, d, key)
            case None => forall a | a in anomalies :: !About(a, d, key)
            case Some(t) => (exists a :: a in anomalies && About(a, d, key) && a.time == t)
                            && forall a | a in anomalies && About(a, d, key) :: a.time <= t
  {
    if anomalies != [] {
      var front, last := anomalies[..|anomalies| - 1], anomalies[|anomalies| - 1];
      assert anomalies == front + [last];
      LastRaisedIsLatest(front, d, key);
      assert last in anomalies;
    }
  }

  ghost predicate InOrder(anomalies: seq<Anomaly>) {
    forall i, j | 0 <= i < j < |anomalies| :: anomalies[i].time <= anomalies[j].time
  }

  lemma RaiseKeepsSpacing(seen: map<string, int>, anomalies: seq<Anomaly>, a: Anomaly)
    requires Spaced(anomalies) && InOrder(anomalies) && NotRaisedLaterThan(anomalies, a.time)
    requires Remembers(seen, anomalies, a.time)
    requires var k := AnomalyKey(a.dimension, a.key); k in seen && seen[k] != 0 ==> a.time - seen[k] >= WINDOW_MS
    ensures Spaced(anomalies + [a])
  {
    LastRaisedIsLatest(anomalies, a.dimension, a.key);
    assert RememberedKey(seen, anomalies, a.time, a.dimension, a.key);
    forall i | 0 <= i < |anomalies| && About(a, anomalies[i].dimension, anomalies[i].key)
      ensures anomalies[i].time == 0 || a.time - anomalies[i].time >= WINDOW_MS
    {
      assert anomalies[i] in anomalies && About(anomalies[i], a.dimension, a.key);
    }
  }

  lemma RaiseKeepsMemory(seen: map<string, int>, anomalies: seq<Anomaly>, a: Anomaly)
    requires Remembers(seen, anomalies, a.time)
    ensures Remembers(seen[AnomalyKey(a.dimension, a.key) := a.time], anomalies + [a], a.time)
  {
    var seen' := seen[AnomalyKey(a.dimension, a.key) := a.time];
    assert (anomalies + [a])[..|anomalies|] == anomalies;
    forall d, key ensures RememberedKey(seen', anomalies + [a], a.time, d, key) {
      assert RememberedKey(seen, anomalies, a.time, d, key);
      if AnomalyKey(d, key) == AnomalyKey(a.dimension, a.key) {
        AnomalyKeyInjective(d, key, a.dimension, a.key);
      }
    }
  }

  lemma ForgetOld(seen: map<string, int>, anomalies: seq<Anomaly>, clock: int, now: int)
    requires Remembers(seen, anomalies, clock) && clock <= now
    ensures Remembers(Unforgotten(seen, now), anomalies, now)
  {
    forall d, key ensures RememberedKey(Unforgotten(seen, now), anomalies, now, d, key) {
      assert RememberedKey(seen, anomalies, clock, d, key);
    }
  }

  function Unforgotten(seen: map<string, int>, now: int): map<string, int> {
    map k | k in seen && !(seen[k] < now - CLEANUP_AFTER_MS) :: seen[k]
  }

  lemma CoverageStep(log: seq<Failure>, anomalies: seq<Anomaly>, f: Failure, after: seq<Anomaly>)
    requires AllCovered(log, anomalies) && (forall a | a in anomalies :: a in after)
    requires CountIn(log + [f], f.dimension, f.key, f.time - WINDOW_MS, f.time) >= Threshold(f.dimension) ==>
               RaisedRecently(after, f.dimension, f.key, f.time)
    ensures AllCovered(log + [f], after)
  {
    var log' := log + [f];
    forall n | 0 <= n < |log'| ensures Covered(log', n, after) {
      if n < |log| {
        assert log'[..n + 1] == log[..n + 1];
        assert Covered(log, n, anomalies);
      } else {
        assert log'[..n + 1] == log';
      }
    }
  }

  ghost function RaisedFor(anomalies: seq<Anomaly>, d: Dimension): nat {
    if anomalies == [] then 0
    else RaisedFor(anomalies[..|anomalies| - 1], d) + if anomalies[|anomalies| - 1].dimension == d then 1 else 0
  }

  ghost predicate Totals(totals: map<Dimension, nat>, anomalies: seq<Anomaly>) {
    forall d: Dimension :: d in totals && totals[d] == RaisedFor(anomalies, d)
  }

  ghost predicate AnomaliesSound(seen: map<string, int>, totals: map<Dimension, nat>, anomalies: seq<Anomaly>,
                                 log: seq<Failure>, clock: int) {
    && InOrder(anomalies) && NotRaisedLaterThan(anomalies, clock)
    && Remembers(seen, anomalies, clock)
    && Spaced(anomalies) && Justified(anomalies, log)
    && Totals(totals, anomalies)
  }

  ghost predicate RaisedRecently(anomalies: seq<Anomaly>, d: Dimension, key: string, now: int) {
    exists a :: a in anomalies && About(a, d, key) && now - WINDOW_MS < a.time <= now
  }

  lemma SoundLogStep(seen: map<string, int>, totals: map<Dimension, nat>, anomalies: seq<Anomaly>,
                     log: seq<Failure>, clock: int, f: Failure)
    requires AnomaliesSound(seen, totals, anomalies, log, clock)
    ensures AnomaliesSound(seen, totals, anomalies, log + [f], clock)
  {
  }

  lemma RaiseSound(seen: map<string, int>, totals: map<Dimension, nat>, anomalies: seq<Anomaly>, log: seq<Failure>,
                   a: Anomaly)
    requires 0 <= a.time && AnomaliesSound(seen, totals, anomalies, log, a.time)
    requires CountIn(log, a.dimension, a.key, a.time - WINDOW_MS, a.time) >= Threshold(a.dimension)
    requires var k := AnomalyKey(a.dimension, a.key); k in seen && seen[k] != 0 ==> a.time - seen[k] >= WINDOW_MS
    ensures AnomaliesSound(seen[AnomalyKey(a.dimension, a.key) := a.time],
                           totals[a.dimension := totals[a.dimension] + 1],
                           anomalies + [a], log, a.time)
    ensures RaisedRecently(anomalies + [a], a.dimension, a.key, a.time)
  {
    hide Spaced, Remembers, CountIn, AnomalyKey;
    RaiseKeepsSpacing(seen, anomalies, a);
    RaiseKeepsMemory(seen, anomalies, a);
    RaiseKeepsTotals(totals, anomalies, a);
    assert a in anomalies + [a] && About(a, a.dimension, a.key);
  }

  lemma RaiseKeepsTotals(totals: map<Dimension, nat>, anomalies: seq<Anomaly>, a: Anomaly)
    requires Totals(totals, anomalies)
    ensures Totals(totals[a.dimension := totals[a.dimension] + 1], anomalies + [a])
  {
  }

  lemma SilenceIsRecent(seen: map<string, int>, anomalies: seq<Anomaly>, d: Dimension, key: string, now: int)
    requires InOrder(anomalies) && NotRaisedLaterThan(anomalies, now) && Remembers(seen, anomalies, now)
    requires var k := AnomalyKey(d, key); k in seen && now - seen[k] < WINDOW_MS
    ensures RaisedRecently(anomalies, d, key, now)
  {
    LastRaisedIsLatest(anomalies, d, key);
    assert RememberedKey(seen, anomalies, now, d, key);
  }

  // ---- The monitor -------------------------------------------------------------------

  class AuthAnomalyMonitor {
    var failureByIp: WindowMap
    var failureByDevice: WindowMap
    var failureByIdentifier: WindowMap
    var seenAnomalyKeys: map<string, int>
    var anomalyTotals: map<Dimension, nat>
    const hashIdentifier: string -> string

    ghost var log: seq<Failure>          // every failure ever recorded
    ghost var anomalies: seq<Anomaly>    // every anomaly ever raised
    ghost var clock: int                 // the time of the last call

    ghost predicate Valid()
      reads this
    {
      && 0 <= clock
      && Reflects(failureByIp, log, Ip, clock)
      && Reflects(failureByDevice, log, Device, clock)
      && Reflects(failureByIdentifier, log, Identifier, clock)
      && NotLaterThan(log, clock)
      && AnomaliesSound(seenAnomalyKeys, anomalyTotals, anomalies, log, clock)
      && AllCovered(log, anomalies)
    }

    constructor (hash: string -> string)
      ensures Valid() && log == [] && anomalies == [] && clock == 0 && hashIdentifier == hash
    {
      failureByIp, failureByDevice, failureByIdentifier := map[], map[], map[];
      seenAnomalyKeys := map[];
      anomalyTotals := map[Ip := 0, Device := 0, Identifier := 0];
      hashIdentifier := hash;
      log, anomalies, clock := [], [], 0;
      new;
      forall d ensures d in anomalyTotals && anomalyTotals[d] == 0 {
        match d case Ip => case Device => case Identifier =>
      }
    }

    method RecordSuccess(now: int)
      requires Valid() && clock <= now
      modifies this
      ensures Valid() && clock == now && log == old(log) && anomalies == old(anomalies)
    {
      PerformPeriodicCleanup(now);
    }

    /** The failures this call adds to the log, in the order the dimensions are looked at. */
    function FailuresOf(ip: Option<string>, deviceId: Option<string>, identifier: Option<string>,
                        now: int): seq<Failure>
    {
      (if Text.NormalizeOptional(ip).Some? then [Failure(Ip, Text.NormalizeOptional(ip).value, now)] else [])
      + (if Text.NormalizeOptional(deviceId).Some? then [Failure(Device, Text.NormalizeOptional(deviceId).value, now)]
         else [])
      + (if identifier.Some? && identifier.value != "" then
           [Failure(Identifier, hashIdentifier(identifier.value), now)]
         else [])
    }

    /** The context names this key in this dimension. */
    ghost predicate Named(f: Failure, ip: Option<string>, deviceId: Option<string>, identifier: Option<string>) {
      match f.dimension
      case Ip => Names(ip, f.key)
      case Device => Names(deviceId, f.key)
      case Identifier => identifier.Some? && identifier.value != "" && f.key == hashIdentifier(identifier.value)
    }

    /** One failure for each dimension the context names, and no other. */
    lemma FailuresAre(ip: Option<string>, deviceId: Option<string>, identifier: Option<string>, now: int)
      ensures var failures := FailuresOf(ip, deviceId, identifier, now);
              && (forall f :: f in failures <==> f.time == now && Named(f, ip, deviceId, identifier))
              && (forall i, j | 0 <= i < j < |failures| :: failures[i].dimension != failures[j].dimension)
    {
      NamesIff(ip);
      NamesIff(deviceId);
      var address, device := Text.NormalizeOptional(ip), Text.NormalizeOptional(deviceId);
      hide Names, Text.NormalizeOptional;
      var a := if address.Some? then [Failure(Ip, address.value, now)] else [];
      var b := if device.Some? then [Failure(Device, device.value, now)] else [];
      var c := if identifier.Some? && identifier.value != ""
               then [Failure(Identifier, hashIdentifier(identifier.value), now)] else [];
      assert FailuresOf(ip, deviceId, identifier, now) == a + b + c;
      forall f: Failure ensures f in a + b + c <==> f.time == now && Named(f, ip, deviceId, identifier) {
        assert f in a + b + c <==> f in a || f in b || f in c;
      }
    }

    method RecordFailure(ip: Option<string>, deviceId: Option<string>, identifier: Option<string>, now: int)
      requires Valid() && clock <= now
      modifies this
      ensures Valid() && clock == now
      ensures log == old(log) + FailuresOf(ip, deviceId, identifier, now)
      ensures old(anomalies) <= anomalies
    {
      hide Valid, Text.NormalizeOptional, RaisedRecently, CountIn, Pruned, Unforgotten;
      PerformPeriodicCleanup(now);
      var address, device := Text.NormalizeOptional(ip), Text.NormalizeOptional(deviceId);
      if address.Some? {
        Observe(Ip, address.value, now);
      }
      if device.Some? {
        Observe(Device, device.value, now);
      }
      if identifier.Some? && identifier.value != "" {
        Observe(Identifier, hashIdentifier(identifier.value), now);
      }
    }

    /** Counts one failure in its dimension's window and raises an anomaly when the threshold is reached. */
    method Observe(d: Dimension, key: string, now: int)
      requires Valid() && clock == now
      modifies this
      ensures Valid() && clock == now
      ensures log == old(log) + [Failure(d, key, now)]
      ensures old(anomalies) <= anomalies
      ensures CountIn(log, d, key, now - WINDOW_MS, now) >= Threshold(d) ==>
                RaisedRecently(anomalies, d, key, now)
      ensures CountIn(log, d, key, now - WINDOW_MS, now) < Threshold(d) ==> anomalies == old(anomalies)
    {
      hide Reflects, AllCovered, AnomaliesSound, RaisedRecently, CountIn, Recorded, Events, Threshold;
      ghost var f := Failure(d, key, now);
      RecordReflects(Table(d), log, d, key, now);
      if d != Ip { OtherDimensionReflects(failureByIp, log, Ip, f, now); }
      if d != Device { OtherDimensionReflects(failureByDevice, log, Device, f, now); }
      if d != Identifier { OtherDimensionReflects(failureByIdentifier, log, Identifier, f, now); }
      SoundLogStep(seenAnomalyKeys, anomalyTotals, anomalies, log, clock, f);
      var windows, count := RecordWindowEvent(Table(d), key, now);
      match d {
        case Ip => failureByIp := windows;
        case Device => failureByDevice := windows;
        case Identifier => failureByIdentifier := windows;
      }
      log := log + [f];
      if count >= Threshold(d) {
        RaiseAnomaly(d, key, count, now);
      }
      CoverageStep(old(log), old(anomalies), f, anomalies);
    }

    function Table(d: Dimension): WindowMap
      reads this
    {
      match d
      case Ip => failureByIp
      case Device => failureByDevice
      case Identifier => failureByIdentifier
    }

    method RaiseAnomaly(d: Dimension, key: string, count: nat, now: int)
      requires 0 <= now && AnomaliesSound(seenAnomalyKeys, anomalyTotals, anomalies, log, now)
      requires CountIn(log, d, key, now - WINDOW_MS, now) >= Threshold(d)
      modifies `seenAnomalyKeys, `anomalyTotals, `anomalies
      ensures AnomaliesSound(seenAnomalyKeys, anomalyTotals, anomalies, log, now)
      ensures old(anomalies) <= anomalies
      ensures RaisedRecently(anomalies, d, key, now)
    {
      hide Remembers, Spaced, Justified, RaisedRecently;
      var anomalyKey := AnomalyKey(d, key);
      if anomalyKey in seenAnomalyKeys && seenAnomalyKeys[anomalyKey] != 0
         && now - seenAnomalyKeys[anomalyKey] < WINDOW_MS {
        SilenceIsRecent(seenAnomalyKeys, anomalies, d, key, now);
        return;
      }
      ghost var a := Anomaly(d, key, now, count);
      RaiseSound(seenAnomalyKeys, anomalyTotals, anomalies, log, a);
      seenAnomalyKeys := seenAnomalyKeys[anomalyKey := now];
      anomalyTotals := anomalyTotals[d := anomalyTotals[d] + 1];
      anomalies := anomalies + [a];
    }

    method PerformPeriodicCleanup(now: int)
      requires Valid() && clock <= now
      modifies this
      ensures Valid() && clock == now && log == old(log) && anomalies == old(anomalies)
      ensures failureByIp == Pruned(old(failureByIp), now)
      ensures failureByDevice == Pruned(old(failureByDevice), now)
      ensures failureByIdentifier == Pruned(old(failureByIdentifier), now)
      ensures seenAnomalyKeys == Unforgotten(old(seenAnomalyKeys), now)
    {
      hide Reflects, AllCovered, Remembers, Spaced, Justified, Stale, LastRaised;
      PruneReflects(failureByIp, log, Ip, clock, now);
      PruneReflects(failureByDevice, log, Device, clock, now);
      PruneReflects(failureByIdentifier, log, Identifier, clock, now);
      failureByIp := PruneWindowMap(failureByIp, now);
      failureByDevice := PruneWindowMap(failureByDevice, now);
      failureByIdentifier := PruneWindowMap(failureByIdentifier, now);

      ForgetOld(seenAnomalyKeys, anomalies, clock, now);
      seenAnomalyKeys := ForgetAnomalies(seenAnomalyKeys, now);
      clock := now;
    }
  }

  method ForgetAnomalies(seen: map<string, int>, now: int) returns (kept: map<string, int>)
    ensures kept == Unforgotten(seen, now)
  {
    kept := seen;
    var entries := seen.Keys;
    while entries != {}
      invariant entries <= seen.Keys && kept.Keys <= seen.Keys
      invariant forall k | k in kept :: kept[k] == seen[k]
      invariant forall k | k in seen :: k in kept <==> k in entries || !(seen[k] < now - CLEANUP_AFTER_MS)
      decreases entries
    {
      var key :| key in entries;
      if kept[key] < now - CLEANUP_AFTER_MS {
        kept := kept - {key};
      }
      entries := entries - {key};
    }
    assert kept == Unforgotten(seen, now);
  }

  method RecordWindowEvent(m: WindowMap, key: string, now: int) returns (windows: WindowMap, count: nat)
    ensures windows == Recorded(m, key, now) && count == |Events(windows, key)|
  {
    var existing := if key in m then m[key] else SlidingWindow([], now);
    var events := Keep(existing.events, now - WINDOW_MS) + [now];
    windows := m[key := SlidingWindow(events, now)];
    count := |events|;
  }

  method PruneWindowMap(m: WindowMap, now: int) returns (windows: WindowMap)
    ensures windows == Pruned(m, now)
  {
    windows := m;
    var entries := m.Keys;
    while entries != {}
      invariant entries <= m.Keys && windows.Keys <= m.Keys
      invariant forall key | key in entries :: key in windows && windows[key] == m[key]
      invariant forall key | key in m && key !in entries ::
                  && (key in windows <==> !Stale(m[key], now))
                  && (key in windows ==>
                        windows[key] == SlidingWindow(Keep(m[key].events, now - WINDOW_MS), m[key].lastSeenAt))
      decreases entries
    {
      var key :| key in entries;
      var events := Keep(windows[key].events, now - WINDOW_MS);
      if events == [] && windows[key].lastSeenAt < now - CLEANUP_AFTER_MS {
        windows := windows - {key};
      } else {
        windows := windows[key := SlidingWindow(events, windows[key].lastSeenAt)];
      }
      entries := entries - {key};
    }
    assert windows == Pruned(m, now);
  }
}
