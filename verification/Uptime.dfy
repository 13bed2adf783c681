/** Owner analytics: turning a charge point's status log into online, maintenance and offline time. */
module Uptime {
  import opened Wrappers
  import opened Instants
  import Text

  datatype Bucket = Online | Maintenance | Offline

  datatype Entry = Entry(status: string, timestamp: int)

  /** Times are in milliseconds; the percentage is the one the service rounds to two digits. */
  datatype Report = Report(onlineMs: int, maintenanceMs: int, offlineMs: int, uptimePct: real) {
    function Ms(b: Bucket): int {
      match b
      case Online => onlineMs
      case Maintenance => maintenanceMs
      case Offline => offlineMs
    }
  }

  function ResolveChargePointBucket(status: string): Bucket {
    var normalized := Text.Upper(Text.Trim(status, Text.JS_BLANKS));
    if normalized in {"ONLINE", "AVAILABLE", "CHARGING", "OCCUPIED"} then Online
    else if normalized in {"MAINTENANCE", "DEGRADED", "RESERVED"} then Maintenance
    else Offline
  }

  /** Which bucket a status falls in, whatever its case and the blanks around it; unknown and empty ones are offline. */
  lemma BucketOf(status: string)
    ensures ResolveChargePointBucket(status) == Online
            <==> Reads(status, "ONLINE") || Reads(status, "AVAILABLE") || Reads(status, "CHARGING")
                 || Reads(status, "OCCUPIED")
    ensures ResolveChargePointBucket(status) == Maintenance
            <==> Reads(status, "MAINTENANCE") || Reads(status, "DEGRADED") || Reads(status, "RESERVED")
  {
    ReadsIff(status, "ONLINE");
    ReadsIff(status, "AVAILABLE");
    ReadsIff(status, "CHARGING");
    ReadsIff(status, "OCCUPIED");
    ReadsIff(status, "MAINTENANCE");
    ReadsIff(status, "DEGRADED");
    ReadsIff(status, "RESERVED");
    hide Reads, Text.Trim, Text.Upper;
    assert "ONLINE"[0] == 'O' && "AVAILABLE"[0] == 'A' && "CHARGING"[0] == 'C' && "OCCUPIED"[0] == 'O';
    assert "MAINTENANCE"[0] == 'M' && "DEGRADED"[0] == 'D' && "RESERVED"[0] == 'R';
  }

  ghost predicate Reads(status: string, word: string) {
    Text.Spells(status, word, Text.JS_BLANKS)
  }

  lemma ReadsIff(status: string, word: string)
    requires word != "" && forall i | 0 <= i < |word| :: 'A' <= word[i] <= 'Z'
    ensures Reads(status, word) <==> Text.Upper(Text.Trim(status, Text.JS_BLANKS)) == word
  {
    Text.SpellsIff(status, word, Text.JS_BLANKS);
    assert Text.Upper(word) == word;
  }

  function NotAfter(history: seq<Entry>, end: int): seq<Entry> {
    if history == [] then []
    else (if history[0].timestamp <= end then [history[0]] else []) + NotAfter(history[1..], end)
  }

  function NotBefore(history: seq<Entry>, start: int): seq<Entry> {
    if history == [] then []
    else (if history[0].timestamp >= start then [history[0]] else []) + NotBefore(history[1..], start)
  }

  /** The last entry of the list that is at or before t. */
  function LastAtOrBefore(history: seq<Entry>, t: int): Option<Entry> {
    if history == [] then None
    else if history[|history| - 1].timestamp <= t then Some(history[|history| - 1])
    else LastAtOrBefore(history[..|history| - 1], t)
  }

  // A stable insertion sort by time, standing for Array.prototype.sort.
  function InsertByTime(e: Entry, sorted: seq<Entry>): (r: seq<Entry>)
    ensures |r| == |sorted| + 1
  {
    if sorted == [] || e.timestamp <= sorted[0].timestamp then [e] + sorted
    else [sorted[0]] + InsertByTime(e, sorted[1..])
  }

  function SortByTime(entries: seq<Entry>): (r: seq<Entry>)
    ensures |r| == |entries|
  {
    if entries == [] then [] else InsertByTime(entries[0], SortByTime(entries[1..]))
  }

  function Timeline(currentStatus: string, history: seq<Entry>, start: int, end: int): (r: seq<Entry>)
    ensures |r| >= 2
  {
    var relevant := NotAfter(history, end);
    SortByTime([Entry(Baseline(currentStatus, relevant, start), start)]
               + NotBefore(relevant, start) + [Entry(currentStatus, end)])
  }

  function Baseline(currentStatus: string, relevant: seq<Entry>, start: int): string {
    match LastAtOrBefore(relevant, start)
    case Some(e) => if e.status != "" then e.status else currentStatus
    case None => currentStatus
  }

  // ---- What the log says -------------------------------------------------------------

  ghost predicate TimeOrdered(history: seq<Entry>) {
    forall i, j | 0 <= i <= j < |history| :: history[i].timestamp <= history[j].timestamp
  }

  /** The plain reading of a log at t: its last entry at or before t, else the current status. */
  ghost function PlainStatus(currentStatus: string, history: seq<Entry>, t: int): string {
    match LastAtOrBefore(history, t)
    case Some(e) => e.status
    case None => currentStatus
  }

  /** The reading the service takes: an empty status logged before the window counts as unknown. */
  ghost function StatusAt(currentStatus: string, history: seq<Entry>, start: int, t: int): string {
    match LastAtOrBefore(history, t)
    case Some(e) => if e.status == "" && e.timestamp < start then currentStatus else e.status
    case None => currentStatus
  }

  ghost function InBucket(currentStatus: string, history: seq<Entry>, start: int, b: Bucket): int -> bool {
    t => ResolveChargePointBucket(StatusAt(currentStatus, history, start, t)) == b
  }

  ghost function PlainlyInBucket(currentStatus: string, history: seq<Entry>, b: Bucket): int -> bool {
    t => ResolveChargePointBucket(PlainStatus(currentStatus, history, t)) == b
  }

  // ---- The window's part of an ordered log is one slice of it ------------------------

  /** How many entries come strictly before t (`Before`) or no later than t (`UpTo`). */
  ghost function Before(history: seq<Entry>, t: int): (k: nat)
    ensures k <= |history|
  {
    if history == [] || history[0].timestamp >= t then 0 else 1 + Before(history[1..], t)
  }

  lemma {:induction false} BeforeSplits(history: seq<Entry>, t: int)
    requires TimeOrdered(history)
    ensures forall i | 0 <= i < Before(history, t) :: history[i].timestamp < t
    ensures forall i | Before(history, t) <= i < |history| :: history[i].timestamp >= t
  {
    if history != [] && history[0].timestamp < t {
      BeforeSplits(history[1..], t);
      forall i | Before(history, t) <= i < |history| ensures history[i].timestamp >= t {
        assert history[i] == history[1..][i - 1];
      }
    }
  }

  lemma {:induction false} BeforeMonotone(history: seq<Entry>, t: int, u: int)
    requires t <= u
    ensures Before(history, t) <= Before(history, u)
  {
    if history != [] {
      BeforeMonotone(history[1..], t, u);
    }
  }

  lemma BeforeIs(history: seq<Entry>, t: int, k: nat)
    requires TimeOrdered(history) && k <= |history|
    requires k > 0 ==> history[k - 1].timestamp < t
    requires k < |history| ==> history[k].timestamp >= t
    ensures Before(history, t) == k
  {
    BeforeSplits(history, t);
  }

  lemma {:induction false} NotAfterIsPrefix(history: seq<Entry>, end: int)
    requires TimeOrdered(history)
    ensures NotAfter(history, end) == history[..Before(history, end + 1)]
  {
    if history != [] {
      NotAfterIsPrefix(history[1..], end);
      if history[0].timestamp > end {
        BeforeSplits(history[1..], end + 1);
        assert Before(history[1..], end + 1) == 0 by {
          assert forall i | 0 <= i < |history| - 1 :: history[1..][i] == history[i + 1];
        }
      } else {
        var k := Before(history[1..], end + 1);
        assert history[..k + 1] == [history[0]] + history[1..][..k];
      }
    }
  }

  lemma {:induction false} NotBeforeIsSuffix(history: seq<Entry>, start: int)
    requires TimeOrdered(history)
    ensures NotBefore(history, start) == history[Before(history, start)..]
  {
    if history != [] {
      NotBeforeIsSuffix(history[1..], start);
      if history[0].timestamp >= start {
        BeforeSplits(history[1..], start);
        assert Before(history[1..], start) == 0 by {
          assert forall i | 0 <= i < |history| - 1 :: history[1..][i] == history[i + 1];
        }
        assert history == [history[0]] + history[1..];
      }
    }
  }

  /** In an ordered log the entry read at t is the one just before the first entry after t. */
  lemma {:induction false} LastIsPrecedingEntry(history: seq<Entry>, t: int)
    requires TimeOrdered(history)
    ensures var k := Before(history, t + 1);
            LastAtOrBefore(history, t) == if k == 0 then None else Some(history[k - 1])
  {
    BeforeSplits(history, t + 1);
    var k := Before(history, t + 1);
    LastScan(history, t, k);
  }

  lemma {:induction false} LastScan(history: seq<Entry>, t: int, k: nat)
    requires k <= |history|
    requires forall i | 0 <= i < k :: history[i].timestamp <= t
    requires forall i | k <= i < |history| :: history[i].timestamp > t
    ensures LastAtOrBefore(history, t) == if k == 0 then None else Some(history[k - 1])
  {
    if k < |history| {
      LastScan(history[..|history| - 1], t, k);
    }
  }

  ghost function At(entries: seq<Entry>, t: int): seq<Entry> {
    if entries == [] then []
    else (if entries[0].timestamp == t then [entries[0]] else []) + At(entries[1..], t)
  }

  /** Sorting puts the entries in order of time, and entries of one time in the order they had. */
  lemma {:induction false} SortsStably(entries: seq<Entry>)
    ensures TimeOrdered(SortByTime(entries))
    ensures forall t :: At(SortByTime(entries), t) == At(entries, t)
  {
    if entries != [] {
      var rest := SortByTime(entries[1..]);
      SortsStably(entries[1..]);
      InsertKeepsOrder(entries[0], rest);
      hide TimeOrdered, InsertByTime;
      forall t ensures At(SortByTime(entries), t) == At(entries, t) {
        InsertAt(entries[0], rest, t);
      }
    }
  }

  lemma {:induction false} InsertKeepsOrder(e: Entry, sorted: seq<Entry>)
    requires TimeOrdered(sorted)
    ensures TimeOrdered(InsertByTime(e, sorted))
    ensures forall x | x in InsertByTime(e, sorted) :: x == e || x in sorted
  {
    if sorted != [] && e.timestamp > sorted[0].timestamp {
      var rest := InsertByTime(e, sorted[1..]);
      InsertKeepsOrder(e, sorted[1..]);
      forall x | x in rest ensures sorted[0].timestamp <= x.timestamp {
        if x != e {
          var i :| 0 <= i < |sorted[1..]| && sorted[1..][i] == x;
          assert sorted[i + 1] == x;
        }
      }
      hide InsertByTime;
      FirstKeepsOrder(sorted[0], rest);
    }
  }

  lemma FirstKeepsOrder(first: Entry, rest: seq<Entry>)
    requires TimeOrdered(rest) && forall x | x in rest :: first.timestamp <= x.timestamp
    ensures TimeOrdered([first] + rest)
  {
  }

  lemma {:induction false} InsertAt(e: Entry, sorted: seq<Entry>, t: int)
    ensures At(InsertByTime(e, sorted), t) == (if e.timestamp == t then [e] else []) + At(sorted, t)
  {
    if sorted == [] || e.timestamp <= sorted[0].timestamp {
      assert ([e] + sorted)[1..] == sorted;
    } else {
      InsertAt(e, sorted[1..], t);
      assert ([sorted[0]] + InsertByTime(e, sorted[1..]))[1..] == InsertByTime(e, sorted[1..]);
    }
  }

  lemma {:induction false} SortKeepsOrder(entries: seq<Entry>)
    requires TimeOrdered(entries)
    ensures SortByTime(entries) == entries
  {
    if entries != [] {
      SortKeepsOrder(entries[1..]);
      assert entries == [entries[0]] + entries[1..];
    }
  }

  /** Entries after t do not affect what is read at t. */
  lemma {:induction false} PrefixReading(history: seq<Entry>, t: int, m: nat)
    requires m <= |history|
    requires forall i | m <= i < |history| :: history[i].timestamp > t
    ensures LastAtOrBefore(history[..m], t) == LastAtOrBefore(history, t)
  {
    if m < |history| {
      PrefixReading(history[..|history| - 1], t, m);
      assert history[..|history| - 1][..m] == history[..m];
    } else {
      assert history[..m] == history;
    }
  }

  /** The entries of the window are one slice of the log. */
  lemma WindowSlice(history: seq<Entry>, start: int, end: int)
    requires start <= end && TimeOrdered(history)
    ensures Before(history, start) <= Before(history, end + 1)
    ensures NotBefore(NotAfter(history, end), start) == history[Before(history, start)..Before(history, end + 1)]
    ensures LastAtOrBefore(NotAfter(history, end), start) == LastAtOrBefore(history, start)
  {
    var j, m := Before(history, start), Before(history, end + 1);
    BeforeMonotone(history, start, end + 1);
    BeforeSplits(history, start);
    BeforeSplits(history, end + 1);
    NotAfterIsPrefix(history, end);
    BeforeIs(history[..m], start, j);
    NotBeforeIsSuffix(history[..m], start);
    assert history[..m][j..] == history[j..m];
    PrefixReading(history, start, m);
  }

  /**
   * What the rest of the computation needs of a timeline: its points cut the window, each naming the status read until
   * the next.
   */
  ghost predicate Cuts(tl: seq<Entry>, currentStatus: string, history: seq<Entry>, start: int, end: int) {
    && |tl| >= 2
    && tl[0].timestamp == start && tl[|tl| - 1].timestamp == end
    && (forall i | 0 <= i < |tl| - 1 :: Segment(tl, i, currentStatus, history, start))
  }

  ghost predicate Segment(tl: seq<Entry>, i: nat, currentStatus: string, history: seq<Entry>, start: int)
    requires i + 1 < |tl|
  {
    && tl[i].timestamp <= tl[i + 1].timestamp
    && (forall t | tl[i].timestamp <= t < tl[i + 1].timestamp ::
          StatusAt(currentStatus, history, start, t) == tl[i].status)
  }

  /** The slice of the log between a baseline at `start` and the current status at `end`. */
  ghost predicate Framed(tl: seq<Entry>, currentStatus: string, history: seq<Entry>, start: int, end: int) {
    && Before(history, start) <= Before(history, end + 1)
    && tl == [Entry(Baseline(currentStatus, history, start), start)]
             + history[Before(history, start)..Before(history, end + 1)] + [Entry(currentStatus, end)]
  }

  lemma FramedOrdered(tl: seq<Entry>, currentStatus: string, history: seq<Entry>, start: int, end: int)
    requires start <= end && TimeOrdered(history) && Framed(tl, currentStatus, history, start, end)
    ensures TimeOrdered(tl)
  {
    BeforeSplits(history, start);
    BeforeSplits(history, end + 1);
    hide Baseline, Before;
  }

  lemma FramedSegment(tl: seq<Entry>, currentStatus: string, history: seq<Entry>, start: int, end: int, i: nat)
    requires start <= end && TimeOrdered(history) && Framed(tl, currentStatus, history, start, end)
    requires TimeOrdered(tl) && i + 1 < |tl|
    ensures Segment(tl, i, currentStatus, history, start)
  {
    var k := Before(history, start) + i;
    BeforeSplits(history, start);
    BeforeSplits(history, end + 1);
    hide Baseline, Before, StatusAt;
    assert i > 0 ==> tl[i] == history[k - 1];
    assert i + 2 < |tl| ==> tl[i + 1] == history[k];
    forall t | tl[i].timestamp <= t < tl[i + 1].timestamp
      ensures StatusAt(currentStatus, history, start, t) == tl[i].status
    {
      ReadingBetween(currentStatus, history, start, t, k);
    }
  }

  lemma FramedCuts(tl: seq<Entry>, currentStatus: string, history: seq<Entry>, start: int, end: int)
    requires start <= end && TimeOrdered(history) && Framed(tl, currentStatus, history, start, end)
    ensures TimeOrdered(tl)
    ensures Cuts(tl, currentStatus, history, start, end)
  {
    FramedOrdered(tl, currentStatus, history, start, end);
    hide TimeOrdered, Segment, Baseline;
    forall i | 0 <= i < |tl| - 1 ensures Segment(tl, i, currentStatus, history, start) {
      FramedSegment(tl, currentStatus, history, start, end, i);
    }
  }

  /** Between the (k-1)-th and the k-th entry of an ordered log the status read is the (k-1)-th entry's. */
  lemma ReadingBetween(currentStatus: string, history: seq<Entry>, start: int, t: int, k: nat)
    requires start <= t && TimeOrdered(history) && Before(history, start) <= k <= |history|
    requires k > 0 ==> history[k - 1].timestamp <= t
    requires k < |history| ==> history[k].timestamp > t
    ensures StatusAt(currentStatus, history, start, t)
            == if k == Before(history, start) then Baseline(currentStatus, history, start) else history[k - 1].status
  {
    BeforeIs(history, t + 1, k);
    if k == Before(history, start) {
      NothingLoggedSince(currentStatus, history, start, t);
    } else {
      LastIsPrecedingEntry(history, t);
      BeforeSplits(history, start);
    }
  }

  /** With no entry logged in [start, t], the status read at t is the baseline. */
  lemma NothingLoggedSince(currentStatus: string, history: seq<Entry>, start: int, t: int)
    requires start <= t && TimeOrdered(history)
    requires Before(history, t + 1) == Before(history, start)
    ensures StatusAt(currentStatus, history, start, t) == Baseline(currentStatus, history, start)
  {
    BeforeSplits(history, start);
    BeforeMonotone(history, start, start + 1);
    BeforeMonotone(history, start + 1, t + 1);
    LastIsPrecedingEntry(history, t);
    LastIsPrecedingEntry(history, start);
  }

  lemma TimelineCuts(currentStatus: string, history: seq<Entry>, start: int, end: int)
    requires start <= end && TimeOrdered(history)
    ensures Cuts(Timeline(currentStatus, history, start, end), currentStatus, history, start, end)
  {
    WindowSlice(history, start, end);
    var tl := [Entry(Baseline(currentStatus, history, start), start)]
              + history[Before(history, start)..Before(history, end + 1)] + [Entry(currentStatus, end)];
    assert Framed(tl, currentStatus, history, start, end);
    FramedCuts(tl, currentStatus, history, start, end);
    SortKeepsOrder(tl);
  }

  // ---- The computation ---------------------------------------------------------------

  /**
   * Each total is the number of instants of the window that the log puts in that bucket; together they make up
   * the window; and the uptime is their weighted share of it, between 0 and 100.
   */
  ghost predicate Measures(r: Report, currentStatus: string, history: seq<Entry>, start: int, end: int) {
    && (forall b :: Tallies(r, currentStatus, history, start, end, b))
    && r.onlineMs + r.maintenanceMs + r.offlineMs == end - start
    && WeightedUptime(r, end - start)
  }

  ghost predicate WeightedUptime(r: Report, windowMs: int) {
    && 0.0 <= r.uptimePct <= 100.0
    && (0 < windowMs ==>
          r.uptimePct * windowMs as real == 100.0 * r.onlineMs as real + 50.0 * r.maintenanceMs as real)
  }

  ghost predicate Tallies(r: Report, currentStatus: string, history: seq<Entry>, start: int, end: int, b: Bucket) {
    r.Ms(b) == Count(InBucket(currentStatus, history, start, b), start, end)
  }

  method CalculateChargePointUptime(currentStatus: string, history: seq<Entry>, start: int, end: int)
      returns (r: Option<Report>)
    ensures r.None? <==> forall e | e in history :: e.timestamp > end
    ensures r.Some? && start <= end && TimeOrdered(history) ==> Measures(r.value, currentStatus, history, start, end)
  {
    var relevant := NotAfter(history, end);
    NotAfterEmpty(history, end);
    if |relevant| == 0 {
      return None;
    }
    hide Timeline, NotAfter, Measures, MakeReport, TimeOrdered, ResolveChargePointBucket;
    var timeline := Timeline(currentStatus, history, start, end);

    var onlineMs, maintenanceMs, offlineMs := 0, 0, 0;
    var index := 0;
    while index < |timeline| - 1
      invariant 0 <= index <= |timeline| - 1
      invariant onlineMs == Spent(timeline, index, Online)
      invariant maintenanceMs == Spent(timeline, index, Maintenance)
      invariant offlineMs == Spent(timeline, index, Offline)
    {
      var current, next := timeline[index], timeline[index + 1];
      var duration := if next.timestamp - current.timestamp > 0 then next.timestamp - current.timestamp else 0;
      var bucket := ResolveChargePointBucket(current.status);
      match bucket {
        case Online => onlineMs := onlineMs + duration;
        case Maintenance => maintenanceMs := maintenanceMs + duration;
        case Offline => offlineMs := offlineMs + duration;
      }
      index := index + 1;
    }

    r := Some(MakeReport(onlineMs, maintenanceMs, offlineMs, end - start));
    if start <= end && TimeOrdered(history) {
      ReportMeasuresLog(currentStatus, history, start, end);
    }
  }

  function MakeReport(onlineMs: int, maintenanceMs: int, offlineMs: int, windowMs: int): Report {
    var totalMs := if windowMs > 1 then windowMs else 1;
    Report(onlineMs, maintenanceMs, offlineMs,
           (onlineMs as real + maintenanceMs as real * 0.5) / totalMs as real * 100.0)
  }

  lemma ReportMeasuresLog(currentStatus: string, history: seq<Entry>, start: int, end: int)
    requires start <= end && TimeOrdered(history)
    ensures var tl := Timeline(currentStatus, history, start, end);
            var n := |tl| - 1;
            Measures(MakeReport(Spent(tl, n, Online), Spent(tl, n, Maintenance), Spent(tl, n, Offline), end - start),
                     currentStatus, history, start, end)
  {
    var tl := Timeline(currentStatus, history, start, end);
    TimelineCuts(currentStatus, history, start, end);
    var n := |tl| - 1;
    var online, maintenance, offline := Spent(tl, n, Online), Spent(tl, n, Maintenance), Spent(tl, n, Offline);
    var r := MakeReport(online, maintenance, offline, end - start);
    forall b ensures Tallies(r, currentStatus, history, start, end, b) {
      SpentIsCount(tl, currentStatus, history, start, end, n, b);
      match b case Online => case Maintenance => case Offline =>
    }
    SpentTotal(tl, currentStatus, history, start, end, n);
    WeightedShare(online, maintenance, offline);
  }

  lemma WeightedShare(online: nat, maintenance: nat, offline: nat)
    ensures var w := online + maintenance + offline;
            WeightedUptime(MakeReport(online, maintenance, offline, w), w)
  {
  }

  /** What the first `index` segments of a timeline add to a bucket. */
  ghost function Spent(timeline: seq<Entry>, index: nat, b: Bucket): nat
    requires index < |timeline|
  {
    if index == 0 then 0
    else
      var d := timeline[index].timestamp - timeline[index - 1].timestamp;
      Spent(timeline, index - 1, b)
      + if ResolveChargePointBucket(timeline[index - 1].status) == b && d > 0 then d else 0
  }

  lemma {:induction false} SpentIsCount(tl: seq<Entry>, currentStatus: string, history: seq<Entry>,
                                         start: int, end: int, index: nat, b: Bucket)
    requires Cuts(tl, currentStatus, history, start, end) && index < |tl|
    ensures start <= tl[index].timestamp
    ensures Spent(tl, index, b) == Count(InBucket(currentStatus, history, start, b), start, tl[index].timestamp)
  {
    if index > 0 {
      SpentIsCount(tl, currentStatus, history, start, end, index - 1, b);
      var p := InBucket(currentStatus, history, start, b);
      var lo, hi := tl[index - 1].timestamp, tl[index].timestamp;
      assert Segment(tl, index - 1, currentStatus, history, start);
      CountSplit(p, start, lo, hi);
      CountConstant(p, ResolveChargePointBucket(tl[index - 1].status) == b, lo, hi);
    }
  }

  lemma {:induction false} SpentTotal(tl: seq<Entry>, currentStatus: string, history: seq<Entry>,
                                       start: int, end: int, index: nat)
    requires Cuts(tl, currentStatus, history, start, end) && index < |tl|
    ensures Spent(tl, index, Online) + Spent(tl, index, Maintenance) + Spent(tl, index, Offline)
            == tl[index].timestamp - start
  {
    if index > 0 {
      SpentTotal(tl, currentStatus, history, start, end, index - 1);
      assert Segment(tl, index - 1, currentStatus, history, start);
    }
  }

  lemma {:induction false} NotAfterEmpty(history: seq<Entry>, end: int)
    ensures NotAfter(history, end) == [] <==> forall e | e in history :: e.timestamp > end
  {
    if history != [] {
      NotAfterEmpty(history[1..], end);
      assert history == [history[0]] + history[1..];
    }
  }

  // ---- When the reading is the plain one ---------------------------------------------

  /**
   * The one case where the service departs from the log: the entry in force when the window opens carries
   * an empty status, is older than the window, and the current status is not an offline one.
   */
  ghost predicate BlankBaseline(currentStatus: string, history: seq<Entry>, start: int) {
    var e := LastAtOrBefore(history, start);
    e.Some? && e.value.status == "" && e.value.timestamp < start && ResolveChargePointBucket(currentStatus) != Offline
  }

  /** Where the two readings differ, no entry was logged since before the window. */
  lemma DepartsAtBaseline(currentStatus: string, history: seq<Entry>, start: int, t: int)
    requires start <= t && TimeOrdered(history)
    requires StatusAt(currentStatus, history, start, t) != PlainStatus(currentStatus, history, t)
    ensures LastAtOrBefore(history, t) == LastAtOrBefore(history, start)
  {
    BeforeSplits(history, start);
    BeforeSplits(history, start + 1);
    BeforeSplits(history, t + 1);
    LastIsPrecedingEntry(history, start);
    LastIsPrecedingEntry(history, t);
    hide Before;
  }

  /** The offline time is the plain one exactly when that case does not arise in a non-empty window. */
  lemma PlainReadingIff(currentStatus: string, history: seq<Entry>, start: int, end: int)
    requires start <= end && TimeOrdered(history)
    ensures Count(InBucket(currentStatus, history, start, Offline), start, end)
            == Count(PlainlyInBucket(currentStatus, history, Offline), start, end)
            <==> start == end || !BlankBaseline(currentStatus, history, start)
    ensures start == end || !BlankBaseline(currentStatus, history, start) ==>
              forall b :: Count(InBucket(currentStatus, history, start, b), start, end)
                       == Count(PlainlyInBucket(currentStatus, history, b), start, end)
  {
    assert Text.Trim("", Text.JS_BLANKS) == "";
    assert ResolveChargePointBucket("") == Offline;
    forall t | start <= t < end
      ensures StatusAt(currentStatus, history, start, t) != PlainStatus(currentStatus, history, t) ==>
                LastAtOrBefore(history, t) == LastAtOrBefore(history, start)
    {
      if StatusAt(currentStatus, history, start, t) != PlainStatus(currentStatus, history, t) {
        DepartsAtBaseline(currentStatus, history, start, t);
      }
    }
    if start == end || !BlankBaseline(currentStatus, history, start) {
      forall b ensures Count(InBucket(currentStatus, history, start, b), start, end)
                    == Count(PlainlyInBucket(currentStatus, history, b), start, end) {
        CountAgrees(InBucket(currentStatus, history, start, b), PlainlyInBucket(currentStatus, history, b), start, end);
      }
    } else {
      CountBelow(InBucket(currentStatus, history, start, Offline), PlainlyInBucket(currentStatus, history, Offline),
                 start, end);
    }
  }

  /** The smallest such log: one blank entry before the window, read as a point in service for the whole of it. */
  lemma BlankEntryReadAsAvailable(logged: int, start: int, end: int)
    requires logged < start < end
    ensures var history := [Entry("", logged)];
            && TimeOrdered(history) && BlankBaseline("AVAILABLE", history, start)
            && Count(InBucket("AVAILABLE", history, start, Online), start, end) == end - start
            && Count(PlainlyInBucket("AVAILABLE", history, Offline), start, end) == end - start
  {
    var history := [Entry("", logged)];
    assert Text.Trim("", Text.JS_BLANKS) == "";
    assert Text.Trim("AVAILABLE", Text.JS_BLANKS) == "AVAILABLE" && Text.Upper("AVAILABLE") == "AVAILABLE";
    assert ResolveChargePointBucket("") == Offline && ResolveChargePointBucket("AVAILABLE") == Online;
    forall t | start <= t < end ensures LastAtOrBefore(history, t) == Some(history[0]) {}
    CountConstant(InBucket("AVAILABLE", history, start, Online), true, start, end);
    CountConstant(PlainlyInBucket("AVAILABLE", history, Offline), true, start, end);
  }

  lemma {:induction false} CountBelow(p: int -> bool, q: int -> bool, lo: int, hi: int)
    requires forall t | lo <= t < hi :: p(t) ==> q(t)
    ensures Count(p, lo, hi) <= Count(q, lo, hi)
    ensures lo < hi && !p(lo) && q(lo) ==> Count(p, lo, hi) < Count(q, lo, hi)
    decreases hi - lo
  {
    if lo < hi {
      CountBelow(p, q, lo, hi - 1);
    }
  }
}
