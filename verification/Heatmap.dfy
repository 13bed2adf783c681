/** Owner analytics: spreading charging sessions over the 7x24 hour slots of a week. */
module Heatmap {
  import opened Wrappers
  import opened Instants
  import opened MapSums

  const HOUR_MS: int := 3_600_000
  const DAY_MS: int := 24 * HOUR_MS
  const SLOTS: nat := 7 * 24

  /** Times are milliseconds of local time, counted from a Thursday at midnight. */
  datatype Session = Session(stationId: string, startTime: int, endTime: Option<int>, totalEnergy: real) {
    function End(): int { GetOr(endTime, startTime) }
  }

  datatype Bucket = Bucket(occupiedMinutes: real, sessionCount: int, energyKwh: real)

  /** `buckets` lists the slots as the dashboard does: Monday first, hours 0 to 23 within each day. */
  datatype HeatmapResult = HeatmapResult(buckets: seq<Bucket>, totalOccupiedMinutes: real,
                                         stationMinutes: map<string, real>)

  /** Position of the slot an instant falls in. */
  function SlotOf(t: int): (k: int)
    ensures 0 <= k < SLOTS
  {
    var dayOfWeek := (t / DAY_MS + 3) % 7;  // Monday is 0
    dayOfWeek * 24 + t % DAY_MS / HOUR_MS
  }

  /** Hour h of the d-th day after a Thursday, any number of weeks away, has the h-th slot of that weekday's row. */
  lemma SlotMeans(week: int, d: nat, h: nat, ms: nat)
    requires d < 7 && h < 24 && ms < 3_600_000
    ensures SlotOf(week * 604_800_000 + d * 86_400_000 + h * 3_600_000 + ms)
            == (if d < 4 then d + 3 else d - 4) * 24 + h
  {
    var inDay := h * 3_600_000 + ms;
    var t := (week * 7 + d) * 86_400_000 + inDay;
    assert t / DAY_MS == week * 7 + d && t % DAY_MS == inDay;
    assert inDay / HOUR_MS == h;
    assert (week * 7 + d + 3) % 7 == (d + 3) % 7;
  }

  /** A session still running counts as a start and no more; an ended one occupies its minutes and spends its energy. */
  lemma SessionSpan(s: Session)
    ensures Whole(Starts, s) == 1.0
    ensures s.endTime.None? || s.endTime.value <= s.startTime ==>
              Whole(OccupiedTime, s) == 0.0 && Whole(Energy, s) == 0.0
    ensures s.endTime.Some? && s.startTime < s.endTime.value ==>
              Whole(OccupiedTime, s) == (s.endTime.value - s.startTime) as real / 60000.0
              && Whole(Energy, s) == s.totalEnergy
  {
  }

  function DiffMinutes(start: int, end: int): real {
    if end > start then (end - start) as real / 60000.0 else 0.0
  }

  function OccupiedTotal(buckets: seq<Bucket>): real {
    if buckets == [] then 0.0
    else OccupiedTotal(buckets[..|buckets| - 1]) + buckets[|buckets| - 1].occupiedMinutes
  }

  // ---- What the heatmap should hold --------------------------------------------------

  ghost function InSlot(k: int): int -> bool {
    t => SlotOf(t) == k
  }

  /** Minutes of [lo, hi) that fall in slot k. */
  ghost function MinutesIn(lo: int, hi: int, k: int): real {
    Count(InSlot(k), lo, hi) as real / 60000.0
  }

  /** The part of some energy, spread evenly over d minutes, that falls in some of them. */
  function Share(energy: real, minutes: real, d: real): real
    requires d > 0.0
  {
    energy * minutes / d
  }

  /** The energy the session delivers in slot k before `upTo`, its energy being spread evenly over its duration. */
  ghost function ShareUpTo(s: Session, upTo: int, k: int): real {
    if DiffMinutes(s.startTime, s.End()) > 0.0 then
      Share(s.totalEnergy, MinutesIn(s.startTime, upTo, k), DiffMinutes(s.startTime, s.End()))
    else
      0.0
  }

  ghost function SumSessions(sessions: seq<Session>, f: Session -> real): real {
    if sessions == [] then 0.0
    else SumSessions(sessions[..|sessions| - 1], f) + f(sessions[|sessions| - 1])
  }

  datatype Measure = OccupiedTime | Energy | Starts

  /** What one session contributes to slot k, and what it contributes in all. */
  ghost function Part(m: Measure, k: int, s: Session): real {
    match m
    case OccupiedTime => MinutesIn(s.startTime, s.End(), k)
    case Energy => ShareUpTo(s, s.End(), k)
    case Starts => if SlotOf(s.startTime) == k then 1.0 else 0.0
  }

  ghost function Whole(m: Measure, s: Session): real {
    match m
    case OccupiedTime => DiffMinutes(s.startTime, s.End())
    case Energy => if s.End() > s.startTime then s.totalEnergy else 0.0
    case Starts => 1.0
  }

  ghost function PartOf(m: Measure, k: int): Session -> real { (s: Session) => Part(m, k, s) }

  ghost function WholeOf(m: Measure): Session -> real { (s: Session) => Whole(m, s) }

  ghost function DurationAt(station: string): Session -> real {
    (s: Session) => if s.stationId == station then DiffMinutes(s.startTime, s.End()) else 0.0
  }

  ghost function Identity(): real -> real { (x: real) => x }

  /** Every slot holds exactly what the sessions put in it. */
  ghost predicate SlotExact(b: Bucket, sessions: seq<Session>, k: int) {
    && b.occupiedMinutes == SumSessions(sessions, PartOf(OccupiedTime, k))
    && b.energyKwh == SumSessions(sessions, PartOf(Energy, k))
    && b.sessionCount as real == SumSessions(sessions, PartOf(Starts, k))
  }

  ghost predicate SlotsExact(buckets: seq<Bucket>, sessions: seq<Session>) {
    |buckets| == SLOTS && forall k | 0 <= k < SLOTS :: SlotExact(buckets[k], sessions, k)
  }

  ghost function Stations(sessions: seq<Session>): set<string> {
    set s | s in sessions :: s.stationId
  }

  ghost predicate StationsExact(stationMinutes: map<string, real>, sessions: seq<Session>) {
    && stationMinutes.Keys == Stations(sessions)
    && (forall station | station in stationMinutes ::
       stationMinutes[station] == SumSessions(sessions, DurationAt(station)))
    && SumBy(stationMinutes, Identity()) == SumSessions(sessions, WholeOf(OccupiedTime))
  }

  // ---- One hour slice ----------------------------------------------------------------

  /** From an instant to the next full hour (or an earlier end) the slot does not change. */
  lemma SameHour(cursor: int, t: int)
    requires cursor - cursor % HOUR_MS <= t < cursor - cursor % HOUR_MS + HOUR_MS
    ensures SlotOf(t) == SlotOf(cursor)
  {
    var h := cursor / HOUR_MS;
    assert t / HOUR_MS == h;
    HourSlot(t);
    HourSlot(cursor);
  }

  lemma HourSlot(t: int)
    ensures SlotOf(t) == (t / HOUR_MS / 24 + 3) % 7 * 24 + t / HOUR_MS % 24
  {
  }

  lemma SliceCount(start: int, cursor: int, upTo: int, k: int)
    requires start <= cursor <= upTo <= cursor - cursor % HOUR_MS + HOUR_MS
    ensures Count(InSlot(k), start, upTo)
            == Count(InSlot(k), start, cursor) + if k == SlotOf(cursor) then upTo - cursor else 0
  {
    CountSplit(InSlot(k), start, cursor, upTo);
    forall t | cursor <= t < upTo ensures InSlot(k)(t) == (k == SlotOf(cursor)) {
      SameHour(cursor, t);
    }
    CountConstant(InSlot(k), k == SlotOf(cursor), cursor, upTo);
  }

  // ---- The computation ---------------------------------------------------------------

  /** Slot k holds what it held before plus the session's part of it up to an instant. */
  ghost predicate Sliced(after: Bucket, before: Bucket, s: Session, upTo: int, k: int) {
    && after.sessionCount == before.sessionCount
    && after.occupiedMinutes == before.occupiedMinutes + MinutesIn(s.startTime, upTo, k)
    && after.energyKwh == before.energyKwh + ShareUpTo(s, upTo, k)
  }

  function AddSlice(b: Bucket, minutes: real, energy: real): Bucket {
    b.(occupiedMinutes := b.occupiedMinutes + minutes, energyKwh := b.energyKwh + energy)
  }

  /** Adds one session's hour slices to the buckets. */
  method SliceSession(session: Session, before: seq<Bucket>) returns (buckets: seq<Bucket>)
    requires |before| == SLOTS
    ensures |buckets| == SLOTS
    ensures forall k | 0 <= k < SLOTS :: Sliced(buckets[k], before[k], session, session.End(), k)
  {
    hide SlotOf, DiffMinutes, Sliced;
    var start, end := session.startTime, session.End();
    LongerThanZero(start, end);
    var sessionDuration := DiffMinutes(start, end);
    var cursor := start;
    buckets := before;
    forall k | 0 <= k < SLOTS ensures Sliced(buckets[k], before[k], session, Min(cursor, end), k) {
      NothingSliced(before[k], session, Min(cursor, end), k);
    }
    while cursor < end
      invariant |buckets| == SLOTS && start <= cursor
      invariant forall k | 0 <= k < SLOTS :: Sliced(buckets[k], before[k], session, Min(cursor, end), k)
      decreases end - cursor
    {
      var bucketStart := cursor - cursor % HOUR_MS;
      var bucketEnd := bucketStart + HOUR_MS;
      var overlapStart := if cursor > bucketStart then cursor else bucketStart;
      var overlapEnd := if end < bucketEnd then end else bucketEnd;
      var overlapMinutes := if overlapEnd > overlapStart then (overlapEnd - overlapStart) as real / 60000.0 else 0.0;
      var key := SlotOf(bucketStart);
      SameHour(cursor, bucketStart);
      ghost var previous := buckets;
      var energy := if sessionDuration > 0.0 then Share(session.totalEnergy, overlapMinutes, sessionDuration) else 0.0;
      buckets := buckets[key := AddSlice(buckets[key], overlapMinutes, energy)];
      assert overlapStart == cursor && cursor < overlapEnd;
      forall k | 0 <= k < SLOTS ensures Sliced(buckets[k], before[k], session, overlapEnd, k) {
        assert Sliced(previous[k], before[k], session, cursor, k);
        SliceStep(buckets[k], previous[k], before[k], session, cursor, overlapEnd, overlapMinutes, energy, k);
      }
      cursor := bucketEnd;
    }
  }

  function Min(a: int, b: int): int { if a < b then a else b }

  lemma NothingSliced(b: Bucket, s: Session, upTo: int, k: int)
    requires upTo <= s.startTime
    ensures Sliced(b, b, s, upTo, k)
  {
    if DiffMinutes(s.startTime, s.End()) > 0.0 {
      NoShare(s.totalEnergy, DiffMinutes(s.startTime, s.End()));
    }
    hide Share;
  }

  lemma SliceStep(after: Bucket, b: Bucket, before: Bucket, s: Session, cursor: int, upTo: int,
                  minutes: real, energy: real, k: int)
    requires Sliced(b, before, s, cursor, k)
    requires s.startTime <= cursor < upTo <= s.End() && upTo <= cursor - cursor % HOUR_MS + HOUR_MS
    requires minutes == (upTo - cursor) as real / 60000.0
    requires DiffMinutes(s.startTime, s.End()) > 0.0
    requires energy == Share(s.totalEnergy, minutes, DiffMinutes(s.startTime, s.End()))
    requires after == if k == SlotOf(cursor) then AddSlice(b, minutes, energy) else b
    ensures Sliced(after, before, s, upTo, k)
  {
    hide SlotOf, ShareUpTo, DiffMinutes, Share;
    SliceCount(s.startTime, cursor, upTo, k);
    assert MinutesIn(s.startTime, upTo, k)
        == MinutesIn(s.startTime, cursor, k) + if k == SlotOf(cursor) then minutes else 0.0;
    ShareStep(s, cursor, upTo, minutes, k);
  }

  lemma ShareStep(s: Session, cursor: int, upTo: int, minutes: real, k: int)
    requires s.startTime <= cursor < upTo <= s.End() && upTo <= cursor - cursor % HOUR_MS + HOUR_MS
    requires minutes == (upTo - cursor) as real / 60000.0 && DiffMinutes(s.startTime, s.End()) > 0.0
    ensures ShareUpTo(s, upTo, k) == ShareUpTo(s, cursor, k)
              + if k == SlotOf(cursor) then Share(s.totalEnergy, minutes, DiffMinutes(s.startTime, s.End())) else 0.0
  {
    hide SlotOf, DiffMinutes, Share;
    SliceCount(s.startTime, cursor, upTo, k);
    if k == SlotOf(cursor) {
      assert MinutesIn(s.startTime, upTo, k) == MinutesIn(s.startTime, cursor, k) + minutes;
      ShareAdds(s.totalEnergy, MinutesIn(s.startTime, cursor, k), minutes, DiffMinutes(s.startTime, s.End()));
    }
  }

  lemma LongerThanZero(start: int, end: int)
    ensures start < end <==> DiffMinutes(start, end) > 0.0
  {
  }

  lemma ShareAdds(energy: real, a: real, b: real, d: real)
    requires d > 0.0
    ensures Share(energy, a + b, d) == Share(energy, a, d) + Share(energy, b, d)
  {
    assert energy * (a + b) == energy * a + energy * b;
  }

  lemma NoShare(energy: real, d: real)
    requires d > 0.0
    ensures Share(energy, 0.0, d) == 0.0
  {
    assert energy * 0.0 == 0.0;
  }

  method BuildHeatmap(sessions: seq<Session>) returns (r: HeatmapResult)
    ensures |r.buckets| == 168 && SlotsExact(r.buckets, sessions)
    ensures StationsExact(r.stationMinutes, sessions)
    ensures r.totalOccupiedMinutes == OccupiedTotal(r.buckets)
    ensures Conserved(r, sessions)
  {
    hide SlotOf, DiffMinutes, StationsExact, Conserved;
    var buckets := seq(SLOTS, _ => Bucket(0.0, 0, 0.0));
    var stationMinutes: map<string, real> := map[];
    NoStations();
    var i := 0;
    while i < |sessions|
      invariant 0 <= i <= |sessions|
      invariant SlotsExact(buckets, sessions[..i])
      invariant StationsExact(stationMinutes, sessions[..i])
    {
      var session := sessions[i];
      ghost var previous := buckets;
      buckets := SliceSession(session, buckets);
      var key := SlotOf(session.startTime);
      buckets := buckets[key := buckets[key].(sessionCount := buckets[key].sessionCount + 1)];
      assert forall k | 0 <= k < SLOTS :: SlotAdds(previous[k], buckets[k], session, k);
      SlotsStep(previous, buckets, sessions[..i], session);

      var sessionDuration := DiffMinutes(session.startTime, session.End());
      var soFar := if session.stationId in stationMinutes then stationMinutes[session.stationId] else 0.0;
      StationStep(stationMinutes, sessions[..i], session);
      stationMinutes := stationMinutes[session.stationId := soFar + sessionDuration];
      assert sessions[..i + 1] == sessions[..i] + [session];
      i := i + 1;
    }
    assert sessions[..i] == sessions;
    r := HeatmapResult(buckets, OccupiedTotal(buckets), stationMinutes);
    Conservation(r, sessions);
  }

  lemma SumAppend(sessions: seq<Session>, s: Session, f: Session -> real)
    ensures SumSessions(sessions + [s], f) == SumSessions(sessions, f) + f(s)
  {
    assert (sessions + [s])[..|sessions|] == sessions;
  }

  lemma NoStations()
    ensures StationsExact(map[], [])
  {
  }

  lemma SlotsStep(before: seq<Bucket>, after: seq<Bucket>, sessions: seq<Session>, s: Session)
    requires SlotsExact(before, sessions) && |after| == SLOTS
    requires forall k | 0 <= k < SLOTS :: SlotAdds(before[k], after[k], s, k)
    ensures SlotsExact(after, sessions + [s])
  {
    forall k | 0 <= k < SLOTS ensures SlotExact(after[k], sessions + [s], k) {
      SlotStep(before[k], after[k], sessions, s, k);
    }
  }

  ghost predicate SlotAdds(before: Bucket, after: Bucket, s: Session, k: int) {
    && after.occupiedMinutes == before.occupiedMinutes + Part(OccupiedTime, k, s)
    && after.energyKwh == before.energyKwh + Part(Energy, k, s)
    && after.sessionCount == before.sessionCount + if SlotOf(s.startTime) == k then 1 else 0
  }

  lemma SlotStep(before: Bucket, after: Bucket, sessions: seq<Session>, s: Session, k: int)
    requires SlotExact(before, sessions, k) && SlotAdds(before, after, s, k)
    ensures SlotExact(after, sessions + [s], k)
  {
    SumAppend(sessions, s, PartOf(OccupiedTime, k));
    SumAppend(sessions, s, PartOf(Energy, k));
    SumAppend(sessions, s, PartOf(Starts, k));
  }

  lemma StationStep(m: map<string, real>, sessions: seq<Session>, s: Session)
    requires StationsExact(m, sessions)
    ensures var soFar := if s.stationId in m then m[s.stationId] else 0.0;
            StationsExact(m[s.stationId := soFar + DiffMinutes(s.startTime, s.End())], sessions + [s])
  {
    hide DiffMinutes, Stations, SumBy, SumSessions;
    var d := DiffMinutes(s.startTime, s.End());
    StationsOfAppend(sessions, s);
    forall station
      ensures SumSessions(sessions + [s], DurationAt(station))
              == (if station in m then m[station] else 0.0) + if s.stationId == station then d else 0.0 {
      StationSumStep(m, sessions, s, station);
    }
    TotalStep(m, s.stationId, d);
    SumAppend(sessions, s, WholeOf(OccupiedTime));
  }

  lemma StationSumStep(m: map<string, real>, sessions: seq<Session>, s: Session, station: string)
    requires StationsExact(m, sessions)
    ensures SumSessions(sessions + [s], DurationAt(station))
            == (if station in m then m[station] else 0.0)
               + if s.stationId == station then DiffMinutes(s.startTime, s.End()) else 0.0
  {
    hide DiffMinutes;
    SumAppend(sessions, s, DurationAt(station));
    if station !in m {
      NoSessionAt(sessions, station);
    }
  }

  lemma TotalStep(m: map<string, real>, station: string, d: real)
    ensures var soFar := if station in m then m[station] else 0.0;
            SumBy(m[station := soFar + d], Identity()) == SumBy(m, Identity()) + d
  {
    var soFar := if station in m then m[station] else 0.0;
    SumByUpdate(m, Identity(), station, soFar + d);
  }

  lemma StationsOfAppend(sessions: seq<Session>, s: Session)
    ensures Stations(sessions + [s]) == Stations(sessions) + {s.stationId}
  {
    assert s in sessions + [s];
    assert forall x | x in sessions :: x in sessions + [s];
  }

  lemma {:induction false} NoSessionAt(sessions: seq<Session>, station: string)
    requires forall s | s in sessions :: s.stationId != station
    ensures SumSessions(sessions, DurationAt(station)) == 0.0
  {
    if sessions != [] {
      NoSessionAt(sessions[..|sessions| - 1], station);
      assert sessions[|sessions| - 1] in sessions;
    }
  }

  // ---- Nothing is lost ---------------------------------------------------------------

  ghost function SumSlots(f: int -> real, n: nat): real {
    if n == 0 then 0.0 else SumSlots(f, n - 1) + f(n - 1)
  }

  lemma {:induction false} SumSlotsAdd(f: int -> real, g: int -> real, h: int -> real, n: nat)
    requires forall k | 0 <= k < n :: h(k) == f(k) + g(k)
    ensures SumSlots(h, n) == SumSlots(f, n) + SumSlots(g, n)
  {
    if n > 0 { SumSlotsAdd(f, g, h, n - 1); }
  }

  lemma {:induction false} SumSlotsScale(f: int -> real, h: int -> real, c: real, n: nat)
    requires forall k | 0 <= k < n :: h(k) == c * f(k)
    ensures SumSlots(h, n) == c * SumSlots(f, n)
  {
    if n > 0 {
      SumSlotsScale(f, h, c, n - 1);
      assert c * (SumSlots(f, n - 1) + f(n - 1)) == c * SumSlots(f, n - 1) + c * f(n - 1);
    } else {
      assert c * 0.0 == 0.0;
    }
  }

  lemma {:induction false} SumSlotsZero(f: int -> real, n: nat)
    requires forall k | 0 <= k < n :: f(k) == 0.0
    ensures SumSlots(f, n) == 0.0
  {
    if n > 0 { SumSlotsZero(f, n - 1); }
  }

  lemma {:induction false} SumSlotsOne(f: int -> real, n: nat, only: nat, v: real)
    requires only < n
    requires forall k | 0 <= k < n :: f(k) == if k == only then v else 0.0
    ensures SumSlots(f, n) == v
  {
    if only < n - 1 { SumSlotsOne(f, n - 1, only, v); } else { SumSlotsZero(f, n - 1); }
  }

  ghost function MinutesBySlot(lo: int, hi: int): int -> real { k => MinutesIn(lo, hi, k) }

  ghost function OneInstant(t: int): int -> real { k => if SlotOf(t) == k then 1.0 / 60000.0 else 0.0 }

  /** The slots partition time: every instant is in exactly one of them. */
  lemma {:induction false} SlotsPartition(lo: int, hi: int)
    ensures SumSlots(MinutesBySlot(lo, hi), SLOTS) == DiffMinutes(lo, hi)
    decreases hi - lo
  {
    hide SlotOf;
    if lo >= hi {
      SumSlotsZero(MinutesBySlot(lo, hi), SLOTS);
    } else {
      SlotsPartition(lo, hi - 1);
      SumSlotsOne(OneInstant(hi - 1), SLOTS, SlotOf(hi - 1), 1.0 / 60000.0);
      SumSlotsAdd(MinutesBySlot(lo, hi - 1), OneInstant(hi - 1), MinutesBySlot(lo, hi), SLOTS);
    }
  }

  /** One session's row: what it adds to each slot. */
  ghost function Row(m: Measure, s: Session): int -> real { k => Part(m, k, s) }

  /** All sessions' rows added up. */
  ghost function Column(m: Measure, sessions: seq<Session>): int -> real {
    k => SumSessions(sessions, PartOf(m, k))
  }

  lemma RowSum(m: Measure, s: Session)
    ensures SumSlots(Row(m, s), SLOTS) == Whole(m, s)
  {
    match m
    case OccupiedTime => MinutesRowSum(s);
    case Energy => EnergyRowSum(s);
    case Starts => StartsRowSum(s);
  }

  lemma MinutesRowSum(s: Session)
    ensures SumSlots(Row(OccupiedTime, s), SLOTS) == Whole(OccupiedTime, s)
  {
    hide MinutesIn, DiffMinutes;
    SlotsPartition(s.startTime, s.End());
    SameSlots(MinutesBySlot(s.startTime, s.End()), Row(OccupiedTime, s), SLOTS);
  }

  lemma EnergyRowSum(s: Session)
    ensures SumSlots(Row(Energy, s), SLOTS) == Whole(Energy, s)
  {
    var d := DiffMinutes(s.startTime, s.End());
    LongerThanZero(s.startTime, s.End());
    MinutesRowSum(s);
    hide DiffMinutes, MinutesIn, Share;
    if s.End() > s.startTime {
      var rate := s.totalEnergy / d;
      forall k | 0 <= k < SLOTS ensures Row(Energy, s)(k) == rate * Row(OccupiedTime, s)(k) {
        EnergyAt(s, k);
      }
      hide Row;
      SumSlotsScale(Row(OccupiedTime, s), Row(Energy, s), rate, SLOTS);
      RateOf(s.totalEnergy, d, d);
    } else {
      SumSlotsZero(Row(Energy, s), SLOTS);
    }
  }

  lemma EnergyAt(s: Session, k: int)
    requires s.End() > s.startTime
    ensures DiffMinutes(s.startTime, s.End()) > 0.0
    ensures Row(Energy, s)(k) == s.totalEnergy / DiffMinutes(s.startTime, s.End()) * Row(OccupiedTime, s)(k)
  {
    LongerThanZero(s.startTime, s.End());
    RateOf(s.totalEnergy, MinutesIn(s.startTime, s.End(), k), DiffMinutes(s.startTime, s.End()));
    hide DiffMinutes, MinutesIn, Share;
  }

  lemma StartsRowSum(s: Session)
    ensures SumSlots(Row(Starts, s), SLOTS) == 1.0
  {
    hide SlotOf;
    SumSlotsOne(Row(Starts, s), SLOTS, SlotOf(s.startTime), 1.0);
  }

  lemma RateOf(energy: real, minutes: real, d: real)
    requires d > 0.0
    ensures Share(energy, minutes, d) == energy / d * minutes
    ensures Share(energy, d, d) == energy
  {
    assert energy / d * d == energy;
    assert energy / d * minutes * d == energy * minutes;
  }

  /** Summing over slots and summing over sessions commute. */
  lemma {:induction false} SumBothWays(sessions: seq<Session>, m: Measure)
    ensures SumSlots(Column(m, sessions), SLOTS) == SumSessions(sessions, WholeOf(m))
  {
    hide Part, Whole;
    if sessions == [] {
      SumSlotsZero(Column(m, sessions), SLOTS);
    } else {
      var front, s := sessions[..|sessions| - 1], sessions[|sessions| - 1];
      SumBothWays(front, m);
      RowSum(m, s);
      SumSlotsAdd(Column(m, front), Row(m, s), Column(m, sessions), SLOTS);
    }
  }

  ghost function HeldMinutes(buckets: seq<Bucket>): int -> real {
    k => if 0 <= k < |buckets| then buckets[k].occupiedMinutes else 0.0
  }

  ghost function HeldEnergy(buckets: seq<Bucket>): int -> real {
    k => if 0 <= k < |buckets| then buckets[k].energyKwh else 0.0
  }

  ghost function HeldStarts(buckets: seq<Bucket>): int -> real {
    k => if 0 <= k < |buckets| then buckets[k].sessionCount as real else 0.0
  }

  /**
   * The heatmap's minutes, energy and session counts add up to the sessions' own, and its minutes are also the
   * sum over stations.
   */
  ghost predicate Conserved(r: HeatmapResult, sessions: seq<Session>) {
    && r.totalOccupiedMinutes == SumSessions(sessions, WholeOf(OccupiedTime))
    && r.totalOccupiedMinutes == SumBy(r.stationMinutes, Identity())
    && SumSlots(HeldEnergy(r.buckets), SLOTS) == SumSessions(sessions, WholeOf(Energy))
    && SumSlots(HeldStarts(r.buckets), SLOTS) == |sessions| as real
  }

  lemma Conservation(r: HeatmapResult, sessions: seq<Session>)
    requires SlotsExact(r.buckets, sessions) && StationsExact(r.stationMinutes, sessions)
    requires r.totalOccupiedMinutes == OccupiedTotal(r.buckets)
    ensures Conserved(r, sessions)
  {
    hide SumSessions, SumBy;
    SumBothWays(sessions, OccupiedTime);
    SumBothWays(sessions, Energy);
    SumBothWays(sessions, Starts);
    CountSessions(sessions);
    TotalIsSlotSum(r.buckets);
    SameSlots(HeldMinutes(r.buckets), Column(OccupiedTime, sessions), SLOTS);
    SameSlots(HeldEnergy(r.buckets), Column(Energy, sessions), SLOTS);
    SameSlots(HeldStarts(r.buckets), Column(Starts, sessions), SLOTS);
  }

  lemma {:induction false} CountSessions(sessions: seq<Session>)
    ensures SumSessions(sessions, WholeOf(Starts)) == |sessions| as real
  {
    if sessions != [] { CountSessions(sessions[..|sessions| - 1]); }
  }

  lemma {:induction false} SameSlots(f: int -> real, g: int -> real, n: nat)
    requires forall k | 0 <= k < n :: f(k) == g(k)
    ensures SumSlots(f, n) == SumSlots(g, n)
  {
    if n > 0 { SameSlots(f, g, n - 1); }
  }

  lemma {:induction false} TotalIsSlotSum(buckets: seq<Bucket>)
    ensures OccupiedTotal(buckets) == SumSlots(HeldMinutes(buckets), |buckets|)
  {
    if buckets != [] {
      var front := buckets[..|buckets| - 1];
      TotalIsSlotSum(front);
      SameSlots(HeldMinutes(front), HeldMinutes(buckets), |front|);
    }
  }
}
