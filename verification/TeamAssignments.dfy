/** Station team assignments and the attendant projection derived from them. */
module TeamAssignments {
  import opened Wrappers
  import Sequences
  import Text

  datatype UserId = UserId(value: string)
  datatype StationId = StationId(value: string)
  datatype OrgId = OrgId(value: string)

  datatype UserRole =
    | SUPER_ADMIN | EVZONE_ADMIN | EVZONE_OPERATOR | SWAP_PROVIDER_ADMIN | SWAP_PROVIDER_OPERATOR | SITE_OWNER
    | STATION_OWNER | OWNER | STATION_OPERATOR | STATION_ADMIN | MANAGER | ATTENDANT | CASHIER
    | TECHNICIAN_ORG | TECHNICIAN_PUBLIC | DRIVER

  predicate TeamManageable(role: UserRole) {
    role !in {OWNER, DRIVER}
  }

  datatype Mode = FIXED | MOBILE

  /** Shift data of a team row, absent for roles other than attendant; and of an attendant row, always present. */
  datatype TeamShift = TeamShift(mode: Option<Mode>, start: Option<string>, end: Option<string>,
                                 timezone: Option<string>)
  datatype Shift = Shift(mode: Mode, start: string, end: string, timezone: string)

  const NO_SHIFT := TeamShift(None, None, None, None)

  function OrDefault(value: Option<string>, default: string): string {
    if value.Some? && value.value != "" then value.value else default
  }

  function ShiftOf(s: TeamShift): Shift {
    Shift(GetOr(s.mode, FIXED), OrDefault(s.start, "00:00"), OrDefault(s.end, "23:59"),
          OrDefault(s.timezone, "Africa/Kampala"))
  }

  /** Rows are listed in creation order; a row's id is its position, since no operation here deletes rows. */
  datatype TeamRow = TeamRow(userId: UserId, stationId: StationId, role: UserRole, isPrimary: bool, isActive: bool,
                             shift: TeamShift)
  datatype AttendantRow = AttendantRow(userId: UserId, stationId: StationId, shift: Shift, isActive: bool)

  // ---- The projection and its agreement with the team table --------------------------

  predicate Serves(t: TeamRow, user: UserId, station: StationId) {
    t.userId == user && t.stationId == station && t.isActive && t.role == ATTENDANT
  }

  predicate IsAt(a: AttendantRow, user: UserId, station: StationId) {
    a.userId == user && a.stationId == station
  }

  /** At most one active row per user and station. */
  ghost predicate OneActive(team: seq<TeamRow>) {
    forall i, j | 0 <= i < j < |team| && team[i].isActive && team[j].isActive && team[i].userId == team[j].userId ::
      team[i].stationId != team[j].stationId
  }

  /** The user has at most one active attendant row per station: all that the projection needs of the team table. */
  ghost predicate OneServing(team: seq<TeamRow>, user: UserId) {
    forall i, j | 0 <= i < j < |team| && Attends(team[i], user) && Attends(team[j], user) ::
      team[i].stationId != team[j].stationId
  }

  predicate Attends(t: TeamRow, user: UserId) {
    Serves(t, user, t.stationId)
  }

  ghost predicate EachOneServing(team: seq<TeamRow>) {
    forall user :: OneServing(team, user)
  }

  lemma OneActiveServing(team: seq<TeamRow>)
    requires OneActive(team)
    ensures EachOneServing(team)
  {
  }

  /** The row is the user's first at its station. */
  ghost predicate IsFirst(att: seq<AttendantRow>, i: nat)
    requires i < |att|
  {
    forall j | 0 <= j < i :: !IsAt(att[j], att[i].userId, att[i].stationId)
  }

  /**
   * A user's attendant row is active exactly when it is the first at a station the user serves, and then mirrors the
   * assignment.
   */
  ghost predicate RowAgrees(team: seq<TeamRow>, att: seq<AttendantRow>, i: nat)
    requires i < |att|
  {
    var a := att[i];
    && (a.isActive <==> IsFirst(att, i) && IsServed(team, a.userId, a.stationId))
    && (a.isActive ==> forall t | t in team && Serves(t, a.userId, a.stationId) :: a.shift == ShiftOf(t.shift))
  }

  /** What was given, or the default where nothing or an empty text was. */
  ghost predicate Given(value: Option<string>, default: string, text: string) {
    if value == None || value == Some("") then text == default else value == Some(text)
  }

  /** The shift an assignment stands for: its own mode and hours, and round the clock at a fixed post by default. */
  ghost predicate ShiftGiven(s: TeamShift, shift: Shift) {
    && (s.mode == Some(shift.mode) || (s.mode == None && shift.mode == FIXED))
    && Given(s.start, "00:00", shift.start) && Given(s.end, "23:59", shift.end)
    && Given(s.timezone, "Africa/Kampala", shift.timezone)
  }

  /** Every assignment served has an attendant row. */
  ghost predicate Mirrored(t: TeamRow, att: seq<AttendantRow>) {
    t.isActive && t.role == ATTENDANT ==> IsActiveAt(att, t.userId, t.stationId)
  }

  ghost predicate Agrees(team: seq<TeamRow>, att: seq<AttendantRow>, user: UserId) {
    && (forall i | 0 <= i < |att| && att[i].userId == user :: RowAgrees(team, att, i))
    && (forall t | t in team && t.userId == user :: Mirrored(t, att))
  }

  ghost predicate IsActiveAt(att: seq<AttendantRow>, user: UserId, station: StationId) {
    exists a :: a in att && IsAt(a, user, station) && a.isActive
  }

  ghost predicate IsServed(team: seq<TeamRow>, user: UserId, station: StationId) {
    exists t :: t in team && Serves(t, user, station)
  }

  /** Every served assignment has an active attendant row at its station, and every such row carries its shift. */
  lemma ServedShift(team: seq<TeamRow>, att: seq<AttendantRow>, user: UserId, t: TeamRow)
    requires Agrees(team, att, user) && t in team && t.userId == user && t.isActive && t.role == ATTENDANT
    ensures exists a :: a in att && a.isActive && a.userId == user && a.stationId == t.stationId
    ensures forall a | a in att && a.isActive && a.userId == user && a.stationId == t.stationId ::
              ShiftGiven(t.shift, a.shift)
  {
    assert Mirrored(t, att);
    forall a | a in att && a.isActive && a.userId == user && a.stationId == t.stationId
      ensures ShiftGiven(t.shift, a.shift)
    {
      var i :| 0 <= i < |att| && att[i] == a;
      assert RowAgrees(team, att, i) && Serves(t, user, t.stationId);
    }
  }

  /** What agreement means to a reader of the projection: one active row per served station, and no other. */
  lemma AgreementMeans(team: seq<TeamRow>, att: seq<AttendantRow>, user: UserId)
    requires Agrees(team, att, user)
    ensures forall station :: IsActiveAt(att, user, station) <==> IsServed(team, user, station)
    ensures forall i, j | 0 <= i < j < |att| && att[i].userId == att[j].userId == user
                          && att[i].isActive && att[j].isActive ::
              att[i].stationId != att[j].stationId
  {
    forall station ensures IsActiveAt(att, user, station) <==> IsServed(team, user, station) {
      if IsActiveAt(att, user, station) {
        var i :| 0 <= i < |att| && IsAt(att[i], user, station) && att[i].isActive;
        assert RowAgrees(team, att, i);
      }
      if IsServed(team, user, station) {
        var t :| t in team && Serves(t, user, station);
        assert Mirrored(t, att);
      }
    }
    forall i, j | 0 <= i < j < |att| && att[i].userId == att[j].userId == user && att[i].isActive && att[j].isActive
      ensures att[i].stationId != att[j].stationId
    {
      assert RowAgrees(team, att, j);
      assert !IsAt(att[i], att[j].userId, att[j].stationId);
    }
  }

  // ---- Synchronising one user --------------------------------------------------------

  function ActiveAttendant(team: seq<TeamRow>, user: UserId): seq<TeamRow> {
    if team == [] then []
    else
      var front, t := ActiveAttendant(team[..|team| - 1], user), team[|team| - 1];
      if Serves(t, user, t.stationId) then front + [t] else front
  }

  /** Ids of the user's rows at a station, oldest first. */
  function RowsAt(att: seq<AttendantRow>, user: UserId, station: StationId): seq<nat> {
    if att == [] then []
    else
      var front := RowsAt(att[..|att| - 1], user, station);
      if IsAt(att[|att| - 1], user, station) then front + [|att| - 1] else front
  }

  /** `UPDATE … SET isActive = false WHERE id IN ids`. */
  function Deactivated(att: seq<AttendantRow>, ids: seq<nat>): seq<AttendantRow> {
    seq(|att|, i requires 0 <= i < |att| => if i in ids then att[i].(isActive := false) else att[i])
  }

  /** One assignment applied to the rows; `rows` are the user's rows at its station when the sync began. */
  function Applied(att: seq<AttendantRow>, rows: seq<nat>, user: UserId, a: TeamRow): seq<AttendantRow>
    requires rows != [] ==> rows[0] < |att|
  {
    if rows != [] then
      Deactivated(att[rows[0] := att[rows[0]].(shift := ShiftOf(a.shift), isActive := true)], rows[1..])
    else
      att + [AttendantRow(user, a.stationId, ShiftOf(a.shift), true)]
  }

  ghost function Assigned(assignments: seq<TeamRow>, station: StationId): Option<TeamRow> {
    if assignments == [] then None
    else if assignments[|assignments| - 1].stationId == station then Some(assignments[|assignments| - 1])
    else Assigned(assignments[..|assignments| - 1], station)
  }

  /** What becomes of an existing row once the assignments are applied. */
  ghost function Settled(att: seq<AttendantRow>, i: nat, user: UserId, assignments: seq<TeamRow>): AttendantRow
    requires i < |att|
  {
    match Assigned(assignments, att[i].stationId)
    case Some(a) =>
      if att[i].userId != user then att[i]
      else if IsFirst(att, i) then att[i].(shift := ShiftOf(a.shift), isActive := true)
      else att[i].(isActive := false)
    case None => att[i]
  }

  ghost function Created(att: seq<AttendantRow>, user: UserId, assignments: seq<TeamRow>): seq<AttendantRow> {
    if assignments == [] then []
    else
      var front, a := Created(att, user, assignments[..|assignments| - 1]), assignments[|assignments| - 1];
      if RowsAt(att, user, a.stationId) == [] then front + [AttendantRow(user, a.stationId, ShiftOf(a.shift), true)]
      else front
  }

  ghost function AllApplied(att: seq<AttendantRow>, user: UserId, assignments: seq<TeamRow>): seq<AttendantRow> {
    seq(|att|, i requires 0 <= i < |att| => Settled(att, i, user, assignments)) + Created(att, user, assignments)
  }

  ghost predicate DistinctStations(assignments: seq<TeamRow>) {
    forall i, j | 0 <= i < j < |assignments| :: assignments[i].stationId != assignments[j].stationId
  }

  ghost predicate Ascending(ids: seq<nat>) {
    forall p, q | 0 <= p < q < |ids| :: ids[p] < ids[q]
  }

  lemma {:induction false} RowsAtAre(att: seq<AttendantRow>, user: UserId, station: StationId)
    ensures forall k: int :: k in RowsAt(att, user, station) <==> 0 <= k < |att| && IsAt(att[k], user, station)
    ensures Ascending(RowsAt(att, user, station))
  {
    if att != [] {
      var front := RowsAt(att[..|att| - 1], user, station);
      RowsAtAre(att[..|att| - 1], user, station);
      assert forall p | 0 <= p < |front| :: front[p] in front;
    }
  }

  /** The first id listed is the user's first row at the station, the others are the later ones. */
  lemma FirstAndOthers(att: seq<AttendantRow>, user: UserId, station: StationId)
    ensures forall k | k in RowsAt(att, user, station) :: 0 <= k < |att|
    ensures forall i | 0 <= i < |att| && IsAt(att[i], user, station) ::
              var rows := RowsAt(att, user, station);
              rows != [] && (IsFirst(att, i) <==> i == rows[0]) && (i in rows[1..] <==> !IsFirst(att, i))
    ensures forall i | 0 <= i < |att| && !IsAt(att[i], user, station) ::
              var rows := RowsAt(att, user, station); i !in rows && (rows != [] ==> i !in rows[1..])
  {
    RowsAtAre(att, user, station);
    var rows := RowsAt(att, user, station);
    if rows != [] {
      assert rows[0] in rows;
      forall i | 0 <= i < |att| && IsAt(att[i], user, station)
        ensures IsFirst(att, i) <==> i == rows[0]
        ensures i in rows[1..] <==> i != rows[0]
      {
        var p :| 0 <= p < |rows| && rows[p] == i;
        assert i != rows[0] ==> rows[1..][p - 1] == i;
      }
      assert forall k | k in rows[1..] :: k in rows;
    }
  }

  /** Applying one more assignment to the applied rows is applying all of them at once. */
  lemma ApplyOneMore(att: seq<AttendantRow>, user: UserId, assignments: seq<TeamRow>, a: TeamRow)
    requires DistinctStations(assignments + [a])
    ensures var rows := RowsAt(att, user, a.stationId);
            && (rows != [] ==> rows[0] < |att|)
            && Applied(AllApplied(att, user, assignments), rows, user, a) == AllApplied(att, user, assignments + [a])
  {
    var all := assignments + [a];
    ApplyTail(att, user, assignments, a);
    forall i | 0 <= i < |att|
      ensures Applied(AllApplied(att, user, assignments), RowsAt(att, user, a.stationId), user, a)[i]
              == Settled(att, i, user, all)
    {
      ApplyRow(att, user, assignments, a, i);
    }
    hide RowsAt, Settled, Created, Applied, DistinctStations;
    assert Applied(AllApplied(att, user, assignments), RowsAt(att, user, a.stationId), user, a)
      == AllApplied(att, user, all);
  }

  lemma ApplyTail(att: seq<AttendantRow>, user: UserId, assignments: seq<TeamRow>, a: TeamRow)
    ensures var rows := RowsAt(att, user, a.stationId);
            rows != [] ==> rows[0] < |att|
    ensures var after := Applied(AllApplied(att, user, assignments), RowsAt(att, user, a.stationId), user, a);
            |after| >= |att| && after[|att|..] == Created(att, user, assignments + [a])
  {
    var rows := RowsAt(att, user, a.stationId);
    RowsAtAre(att, user, a.stationId);
    assert rows != [] ==> rows[0] in rows;
    CreatedOneMore(att, user, assignments, a);
    hide RowsAt, Settled, Created, ShiftOf, Ascending;
    var before := AllApplied(att, user, assignments);
    assert before[|att|..] == Created(att, user, assignments);
    if rows != [] {
      assert forall k | k in rows[1..] :: k in rows && k < |att|;
      assert forall i | |att| <= i < |before| :: Applied(before, rows, user, a)[i] == before[i];
    }
  }

  lemma ApplyRow(att: seq<AttendantRow>, user: UserId, assignments: seq<TeamRow>, a: TeamRow, i: nat)
    requires DistinctStations(assignments + [a]) && i < |att|
    ensures var rows := RowsAt(att, user, a.stationId);
            && (rows != [] ==> rows[0] < |att|)
            && Applied(AllApplied(att, user, assignments), rows, user, a)[i] == Settled(att, i, user, assignments + [a])
  {
    var rows := RowsAt(att, user, a.stationId);
    FirstAndOthers(att, user, a.stationId);
    assert rows != [] ==> rows[0] in rows;
    NotAssigned(assignments, a);
    SettledOneMore(att, i, user, assignments, a);
    hide RowsAt, Assigned, IsFirst, Created, ShiftOf;
  }

  lemma CreatedOneMore(att: seq<AttendantRow>, user: UserId, assignments: seq<TeamRow>, a: TeamRow)
    ensures Created(att, user, assignments + [a])
            == Created(att, user, assignments)
               + (if RowsAt(att, user, a.stationId) == [] then [AttendantRow(user, a.stationId, ShiftOf(a.shift), true)]
                  else [])
  {
    assert (assignments + [a])[..|assignments|] == assignments;
    hide RowsAt, ShiftOf;
  }

  lemma ApplyNext(att: seq<AttendantRow>, user: UserId, assignments: seq<TeamRow>, k: nat)
    requires DistinctStations(assignments) && k < |assignments|
    ensures var rows := RowsAt(att, user, assignments[k].stationId);
            && (rows != [] ==> rows[0] < |att| <= |AllApplied(att, user, assignments[..k])|)
            && AllApplied(att, user, assignments[..k + 1])
               == Applied(AllApplied(att, user, assignments[..k]), rows, user, assignments[k])
  {
    assert assignments[..k + 1] == assignments[..k] + [assignments[k]];
    ApplyOneMore(att, user, assignments[..k], assignments[k]);
  }

  lemma NoneApplied(att: seq<AttendantRow>, user: UserId)
    ensures AllApplied(att, user, []) == att
  {
  }

  lemma SettledOneMore(att: seq<AttendantRow>, i: nat, user: UserId, assignments: seq<TeamRow>, a: TeamRow)
    requires i < |att|
    ensures Settled(att, i, user, assignments + [a])
            == if att[i].stationId != a.stationId then Settled(att, i, user, assignments)
               else if att[i].userId != user then att[i]
               else if IsFirst(att, i) then att[i].(shift := ShiftOf(a.shift), isActive := true)
               else att[i].(isActive := false)
  {
    assert (assignments + [a])[..|assignments|] == assignments;
  }

  lemma {:induction false} NotAssigned(assignments: seq<TeamRow>, a: TeamRow)
    requires DistinctStations(assignments + [a])
    ensures Assigned(assignments, a.stationId) == None
  {
    if assignments != [] {
      var front := assignments[..|assignments| - 1];
      assert forall i | 0 <= i < |assignments| :: (assignments + [a])[i] == assignments[i];
      assert (assignments + [a])[|assignments|] == a;
      forall i, j | 0 <= i < j < |front + [a]| ensures (front + [a])[i].stationId != (front + [a])[j].stationId {
        var k := if j < |front| then j else |assignments|;
        assert (assignments + [a])[i].stationId != (assignments + [a])[k].stationId;
      }
      NotAssigned(front, a);
    }
  }

  /** Rows that were active at stations no longer assigned. */
  function StaleIds(att: seq<AttendantRow>, user: UserId, stations: set<StationId>): seq<nat> {
    if att == [] then []
    else
      var front, a := StaleIds(att[..|att| - 1], user, stations), att[|att| - 1];
      if a.userId == user && a.stationId !in stations && a.isActive then front + [|att| - 1] else front
  }

  lemma {:induction false} StaleIdsAre(att: seq<AttendantRow>, user: UserId, stations: set<StationId>)
    ensures forall k: int :: k in StaleIds(att, user, stations) <==>
              0 <= k < |att| && att[k].userId == user && att[k].stationId !in stations && att[k].isActive
  {
    if att != [] {
      StaleIdsAre(att[..|att| - 1], user, stations);
    }
  }

  function StationsOf(assignments: seq<TeamRow>): set<StationId> {
    set t | t in assignments :: t.stationId
  }

  /** The attendant table after synchronising one user. */
  ghost function Synced(team: seq<TeamRow>, att: seq<AttendantRow>, user: UserId): seq<AttendantRow> {
    var assignments := ActiveAttendant(team, user);
    Deactivated(AllApplied(att, user, assignments), StaleIds(att, user, StationsOf(assignments)))
  }

  lemma {:induction false} ActiveAttendantAre(team: seq<TeamRow>, user: UserId)
    ensures forall t :: t in ActiveAttendant(team, user) <==> t in team && Serves(t, user, t.stationId)
    ensures OneServing(team, user) ==> DistinctStations(ActiveAttendant(team, user))
  {
    if team != [] {
      var front, last := team[..|team| - 1], team[|team| - 1];
      ActiveAttendantAre(front, user);
      assert team == front + [last];
      if OneServing(team, user) {
        assert forall i | 0 <= i < |front| :: front[i] == team[i];
        assert OneServing(front, user);
        forall t | t in ActiveAttendant(front, user) && Attends(last, user) ensures t.stationId != last.stationId {
          var i :| 0 <= i < |front| && front[i] == t;
          assert team[i] == t && Attends(team[i], user);
        }
      }
    }
  }

  lemma {:induction false} AssignedIs(assignments: seq<TeamRow>, station: StationId)
    ensures match Assigned(assignments, station)
            case None => station !in StationsOf(assignments)
            case Some(a) => a in assignments && a.stationId == station && station in StationsOf(assignments)
  {
    if assignments != [] {
      AssignedIs(assignments[..|assignments| - 1], station);
      assert assignments == assignments[..|assignments| - 1] + [assignments[|assignments| - 1]];
    }
  }

  /** A created row is active, at a station with no row before, and mirrors an assignment. */
  ghost predicate CreatedFrom(a: AttendantRow, att: seq<AttendantRow>, user: UserId, assignments: seq<TeamRow>) {
    && a.userId == user && a.isActive && RowsAt(att, user, a.stationId) == []
    && exists t :: t in assignments && t.stationId == a.stationId && a.shift == ShiftOf(t.shift)
  }

  ghost predicate DifferentStations(rows: seq<AttendantRow>) {
    forall i, j | 0 <= i < j < |rows| :: rows[i].stationId != rows[j].stationId
  }

  lemma DifferentAppend(rows: seq<AttendantRow>, a: AttendantRow)
    requires DifferentStations(rows) && forall r | r in rows :: r.stationId != a.stationId
    ensures DifferentStations(rows + [a])
  {
  }

  lemma {:induction false} CreatedAre(att: seq<AttendantRow>, user: UserId, assignments: seq<TeamRow>)
    requires DistinctStations(assignments)
    ensures forall a | a in Created(att, user, assignments) :: CreatedFrom(a, att, user, assignments)
    ensures DifferentStations(Created(att, user, assignments))
  {
    if assignments != [] {
      var front, last := assignments[..|assignments| - 1], assignments[|assignments| - 1];
      CreatedAre(att, user, front);
      assert assignments == front + [last];
      var before := Created(att, user, front);
      hide RowsAt, ShiftOf;
      forall a | a in Created(att, user, front)
        ensures CreatedFrom(a, att, user, assignments) && a.stationId != last.stationId
      {
        assert CreatedFrom(a, att, user, front);
        var t :| t in front && t.stationId == a.stationId && a.shift == ShiftOf(t.shift);
        var i :| 0 <= i < |front| && front[i] == t;
        assert assignments[i] == t && t in assignments;
      }
      if RowsAt(att, user, last.stationId) == [] {
        assert last in assignments;
        DifferentAppend(before, AttendantRow(user, last.stationId, ShiftOf(last.shift), true));
        assert CreatedFrom(AttendantRow(user, last.stationId, ShiftOf(last.shift), true), att, user, assignments);
      }
    }
  }

  lemma {:induction false} CreatedCover(att: seq<AttendantRow>, user: UserId, assignments: seq<TeamRow>, t: TeamRow)
    requires t in assignments && RowsAt(att, user, t.stationId) == []
    ensures exists a :: a in Created(att, user, assignments) && IsAt(a, user, t.stationId)
  {
    var front, last := assignments[..|assignments| - 1], assignments[|assignments| - 1];
    assert assignments == front + [last];
    if t in front {
      CreatedCover(att, user, front, t);
      var a :| a in Created(att, user, front) && IsAt(a, user, t.stationId);
      assert a in Created(att, user, assignments);
    } else {
      var a := AttendantRow(user, last.stationId, ShiftOf(last.shift), true);
      assert Created(att, user, assignments) == Created(att, user, front) + [a];
      assert a in Created(att, user, assignments);
    }
  }

  /** The synchronised table row by row. */
  lemma SyncedRows(team: seq<TeamRow>, att: seq<AttendantRow>, user: UserId)
    ensures var assignments := ActiveAttendant(team, user);
            var synced, created := Synced(team, att, user), Created(att, user, assignments);
            && |synced| == |att| + |created|
            && (forall i | 0 <= i < |att| ::
                  synced[i] == if att[i].userId == user && Assigned(assignments, att[i].stationId).None?
                               then att[i].(isActive := false) else Settled(att, i, user, assignments))
            && (forall i | |att| <= i < |synced| :: synced[i] == created[i - |att|])
  {
    var assignments := ActiveAttendant(team, user);
    var applied, stale := AllApplied(att, user, assignments), StaleIds(att, user, StationsOf(assignments));
    StaleIdsAre(att, user, StationsOf(assignments));
    hide StaleIds, StationsOf, IsFirst, ActiveAttendant, Created;
    forall i | 0 <= i < |att|
      ensures Synced(team, att, user)[i]
              == if att[i].userId == user && Assigned(assignments, att[i].stationId).None?
                 then att[i].(isActive := false) else Settled(att, i, user, assignments)
    {
      AssignedIs(assignments, att[i].stationId);
      assert applied[i] == Settled(att, i, user, assignments);
    }
  }

  /** Users and stations of existing rows never change, so being first does not either. */
  lemma SameFirst(att: seq<AttendantRow>, after: seq<AttendantRow>, i: nat)
    requires i < |att| <= |after|
    requires forall j | 0 <= j < |att| :: after[j].userId == att[j].userId && after[j].stationId == att[j].stationId
    ensures IsFirst(after, i) <==> IsFirst(att, i)
  {
    assert forall j | 0 <= j < i ::
        IsAt(after[j], after[i].userId, after[i].stationId) <==> IsAt(att[j], att[i].userId, att[i].stationId);
  }

  lemma ServedIffAssigned(team: seq<TeamRow>, user: UserId, station: StationId)
    requires OneServing(team, user)
    ensures var a := Assigned(ActiveAttendant(team, user), station);
            && (a.Some? <==> IsServed(team, user, station))
            && (a.Some? ==> a.value in team && Serves(a.value, user, station)
                            && forall t | t in team && Serves(t, user, station) :: t == a.value)
  {
    var assignments := ActiveAttendant(team, user);
    ActiveAttendantAre(team, user);
    AssignedIs(assignments, station);
    forall t | t in team && Serves(t, user, station)
      ensures Assigned(assignments, station) == Some(t)
    {
      assert t in assignments;
      var i :| 0 <= i < |assignments| && assignments[i] == t;
      var a := Assigned(assignments, station).value;
      var j :| 0 <= j < |assignments| && assignments[j] == a;
      assert i == j;
    }
  }

  lemma SyncedRowAgrees(team: seq<TeamRow>, att: seq<AttendantRow>, user: UserId, i: nat)
    requires OneServing(team, user) && i < |Synced(team, att, user)| && Synced(team, att, user)[i].userId == user
    ensures RowAgrees(team, Synced(team, att, user), i)
  {
    var assignments, synced := ActiveAttendant(team, user), Synced(team, att, user);
    SyncedRows(team, att, user);
    hide Synced, ActiveAttendant, Assigned, Created;
    var station := synced[i].stationId;
    ServedIffAssigned(team, user, station);
    if i < |att| {
      SameFirst(att, synced, i);
    } else {
      ActiveAttendantAre(team, user);
      CreatedAre(att, user, assignments);
      var created := Created(att, user, assignments);
      var a := created[i - |att|];
      assert a in created && CreatedFrom(a, att, user, assignments);
      RowsAtAre(att, user, station);
      forall j | 0 <= j < i ensures !IsAt(synced[j], user, station) {
        if j < |att| {
          assert j !in RowsAt(att, user, station);
        } else {
          assert synced[j] == created[j - |att|];
        }
      }
    }
  }

  lemma SyncedMirrors(team: seq<TeamRow>, att: seq<AttendantRow>, user: UserId, t: TeamRow)
    requires OneServing(team, user) && t in team && t.userId == user
    ensures Mirrored(t, Synced(team, att, user))
  {
    if t.isActive && t.role == ATTENDANT {
      var assignments, synced := ActiveAttendant(team, user), Synced(team, att, user);
      SyncedRows(team, att, user);
      ActiveAttendantAre(team, user);
      ServedIffAssigned(team, user, t.stationId);
      hide Synced, ActiveAttendant, Assigned;
      var rows := RowsAt(att, user, t.stationId);
      if rows == [] {
        CreatedCover(att, user, assignments, t);
        CreatedAre(att, user, assignments);
        var created := Created(att, user, assignments);
        var k :| 0 <= k < |created| && IsAt(created[k], user, t.stationId);
        assert CreatedFrom(created[k], att, user, assignments);
        assert synced[|att| + k] == created[k] && synced[|att| + k] in synced;
      } else {
        FirstAndOthers(att, user, t.stationId);
        RowsAtAre(att, user, t.stationId);
        assert rows[0] in rows;
        assert IsFirst(att, rows[0]) && synced[rows[0]] in synced;
        assert IsAt(synced[rows[0]], user, t.stationId) && synced[rows[0]].isActive;
      }
    }
  }

  /** After a sync the user's projection agrees with the team table, and everyone else's rows are as they were. */
  lemma SyncedAgrees(team: seq<TeamRow>, att: seq<AttendantRow>, user: UserId)
    requires OneServing(team, user)
    ensures Agrees(team, Synced(team, att, user), user)
    ensures OthersKept(att, Synced(team, att, user), user)
  {
    var synced := Synced(team, att, user);
    forall i | 0 <= i < |synced| && synced[i].userId == user ensures RowAgrees(team, synced, i) {
      SyncedRowAgrees(team, att, user, i);
    }
    forall t | t in team && t.userId == user ensures Mirrored(t, synced) {
      SyncedMirrors(team, att, user, t);
    }
    SyncKeepsOthers(team, att, user);
  }

  /** No row is moved or re-keyed, rows of other users are untouched, and rows added are the user's. */
  ghost predicate OthersKept(att: seq<AttendantRow>, after: seq<AttendantRow>, user: UserId) {
    && |att| <= |after|
    && (forall i | 0 <= i < |att| :: after[i].userId == att[i].userId && after[i].stationId == att[i].stationId)
    && (forall i | 0 <= i < |att| && att[i].userId != user :: after[i] == att[i])
    && (forall i | |att| <= i < |after| :: after[i].userId == user)
  }

  lemma SyncKeepsOthers(team: seq<TeamRow>, att: seq<AttendantRow>, user: UserId)
    requires OneServing(team, user)
    ensures OthersKept(att, Synced(team, att, user), user)
  {
    var assignments := ActiveAttendant(team, user);
    SyncedRows(team, att, user);
    ActiveAttendantAre(team, user);
    CreatedAre(att, user, assignments);
    hide Synced, ActiveAttendant, Assigned, Created, IsFirst;
    var created := Created(att, user, assignments);
    assert forall k | 0 <= k < |created| :: created[k] in created && CreatedFrom(created[k], att, user, assignments);
  }

  /** Re-running the sync on an agreeing table changes nothing. */
  lemma SyncIdempotent(team: seq<TeamRow>, att: seq<AttendantRow>, user: UserId)
    requires OneServing(team, user) && Agrees(team, att, user)
    ensures Synced(team, att, user) == att
  {
    var assignments, synced := ActiveAttendant(team, user), Synced(team, att, user);
    SyncedRows(team, att, user);
    ActiveAttendantAre(team, user);
    hide Synced, ActiveAttendant, Assigned;
    forall i | 0 <= i < |att| ensures synced[i] == att[i] {
      ServedIffAssigned(team, user, att[i].stationId);
      assert att[i].userId == user ==> RowAgrees(team, att, i);
    }
    NothingCreated(team, att, user);
  }

  lemma NothingCreated(team: seq<TeamRow>, att: seq<AttendantRow>, user: UserId)
    requires OneServing(team, user) && Agrees(team, att, user)
    ensures Created(att, user, ActiveAttendant(team, user)) == []
  {
    var assignments := ActiveAttendant(team, user);
    ActiveAttendantAre(team, user);
    CreatedAre(att, user, assignments);
    hide ActiveAttendant;
    var created := Created(att, user, assignments);
    if created != [] {
      assert CreatedFrom(created[0], att, user, assignments);
      var t :| t in assignments && t.stationId == created[0].stationId;
      assert Mirrored(t, att);
      var k :| 0 <= k < |att| && IsAt(att[k], user, t.stationId);
      RowsAtAre(att, user, t.stationId);
      assert false;
    }
  }

  // ---- Replacing a user's rows -------------------------------------------------------

  datatype AssignmentDto = AssignmentDto(stationId: StationId, role: Option<UserRole>, isPrimary: Option<bool>,
                                         isActive: Option<bool>, shift: TeamShift)
  datatype Assignment = Assignment(stationId: StationId, role: UserRole, isPrimary: bool, isActive: bool,
                                   shift: TeamShift)

  datatype Error = NotAuthorized | NoAssignments | BlankStation | DuplicateStation | InvalidRole | NotManageable
                 | StationMissing | StationOutOfScope | NoStations

  predicate IsBlank(station: StationId) {
    Text.Trim(station.value, Text.JS_BLANKS) == ""
  }

  /** A request with its defaults filled in; the primary flag is still the one asked for. */
  function Defaulted(dto: AssignmentDto): Assignment
    requires dto.role.Some?
  {
    var filled := ShiftOf(dto.shift);
    Assignment(dto.stationId, dto.role.value, GetOr(dto.isPrimary, false), GetOr(dto.isActive, true),
               if dto.role.value == ATTENDANT
               then TeamShift(Some(filled.mode), Some(filled.start), Some(filled.end), Some(filled.timezone))
               else NO_SHIFT)
  }

  ghost predicate Acceptable(dtos: seq<AssignmentDto>) {
    && dtos != []
    && (forall i | 0 <= i < |dtos| ::
          !IsBlank(dtos[i].stationId) && dtos[i].role.Some? && TeamManageable(dtos[i].role.value))
    && (forall i, j | 0 <= i < j < |dtos| :: dtos[i].stationId != dtos[j].stationId)
  }

  /** Which requests are accepted: some row, no blank or repeated station, and only roles a team is managed with. */
  lemma AcceptableIff(dtos: seq<AssignmentDto>)
    ensures Acceptable(dtos)
            <==> && |dtos| > 0
                 && (forall i | 0 <= i < |dtos| ::
                       && !Text.AllIn(dtos[i].stationId.value, Text.JS_BLANKS) && dtos[i].role.Some?
                       && dtos[i].role.value in TEAM_ROLES)
                 && (forall i, j | 0 <= i < |dtos| && 0 <= j < |dtos| && i != j ::
                       dtos[i].stationId != dtos[j].stationId)
  {
    forall i | 0 <= i < |dtos|
      ensures IsBlank(dtos[i].stationId) <==> Text.AllIn(dtos[i].stationId.value, Text.JS_BLANKS)
    {
      Text.BlankIff(dtos[i].stationId.value, Text.JS_BLANKS);
    }
    hide IsBlank, Text.AllIn;
    forall role ensures TeamManageable(role) <==> role in TEAM_ROLES {
      match role
      case SUPER_ADMIN | EVZONE_ADMIN | EVZONE_OPERATOR | SWAP_PROVIDER_ADMIN | SWAP_PROVIDER_OPERATOR | SITE_OWNER
        | STATION_OWNER | STATION_OPERATOR | STATION_ADMIN | MANAGER | ATTENDANT | CASHIER | TECHNICIAN_ORG
        | TECHNICIAN_PUBLIC =>
      case OWNER | DRIVER =>
    }
  }

  const TEAM_ROLES: set<UserRole> :=
    {SUPER_ADMIN, EVZONE_ADMIN, EVZONE_OPERATOR, SWAP_PROVIDER_ADMIN, SWAP_PROVIDER_OPERATOR, SITE_OWNER, STATION_OWNER,
     STATION_OPERATOR, STATION_ADMIN, MANAGER, ATTENDANT, CASHIER, TECHNICIAN_ORG, TECHNICIAN_PUBLIC}

  /** Primary before the active rows are looked at: as asked, or the first row if nobody asked. */
  ghost predicate AskedPrimary(dtos: seq<AssignmentDto>, i: int)
    requires 0 <= i < |dtos|
  {
    dtos[i].isPrimary == Some(true) || (i == 0 && forall j | 0 <= j < |dtos| :: dtos[j].isPrimary != Some(true))
  }

  ghost predicate AsksActive(dto: AssignmentDto) {
    dto.isActive != Some(false)
  }

  /** The first active row is made primary when no active row is. */
  ghost predicate PromotedPrimary(dtos: seq<AssignmentDto>, i: int)
    requires 0 <= i < |dtos|
  {
    && AsksActive(dtos[i]) && (forall j | 0 <= j < i :: !AsksActive(dtos[j]))
    && (forall j | 0 <= j < |dtos| && AsksActive(dtos[j]) :: !AskedPrimary(dtos, j))
  }

  ghost predicate NormalForm(dtos: seq<AssignmentDto>, list: seq<Assignment>) {
    && Acceptable(dtos) && |list| == |dtos|
    && (forall i | 0 <= i < |dtos| ::
          list[i] == Defaulted(dtos[i]).(isPrimary := AskedPrimary(dtos, i) || PromotedPrimary(dtos, i)))
  }

  /**
   * A normalised row is for the station and role asked for, active unless asked not to be, and with a whole shift
   * exactly if the role is attendant.
   */
  ghost predicate FilledFrom(dto: AssignmentDto, a: Assignment) {
    && a.stationId == dto.stationId && Some(a.role) == dto.role && (a.isActive <==> dto.isActive != Some(false))
    && (dto.role == Some(ATTENDANT) ==> exists shift :: ShiftGiven(dto.shift, shift) && IsWhole(a.shift, shift))
    && (dto.role != Some(ATTENDANT) ==> a.shift == TeamShift(None, None, None, None))
  }

  ghost predicate IsWhole(s: TeamShift, shift: Shift) {
    s == TeamShift(Some(shift.mode), Some(shift.start), Some(shift.end), Some(shift.timezone))
  }

  lemma NormalRows(dtos: seq<AssignmentDto>, list: seq<Assignment>)
    requires NormalForm(dtos, list)
    ensures |list| == |dtos| && forall i | 0 <= i < |dtos| :: FilledFrom(dtos[i], list[i])
  {
    hide AskedPrimary, PromotedPrimary, IsBlank;
    forall i | 0 <= i < |dtos| ensures FilledFrom(dtos[i], list[i]) {
      var shift := ShiftOf(dtos[i].shift);
      assert ShiftGiven(dtos[i].shift, shift);
      assert dtos[i].role == Some(ATTENDANT) ==> IsWhole(list[i].shift, shift);
    }
  }

  /** Some row is primary, and so is some active row if any row is active. */
  lemma NormalFormHasPrimary(dtos: seq<AssignmentDto>, list: seq<Assignment>)
    requires NormalForm(dtos, list)
    ensures exists i :: 0 <= i < |list| && list[i].isPrimary
    ensures (exists i :: 0 <= i < |list| && list[i].isActive) ==>
            exists i :: 0 <= i < |list| && list[i].isActive && list[i].isPrimary
  {
    if i :| 0 <= i < |dtos| && dtos[i].isPrimary == Some(true) {
      assert AskedPrimary(dtos, i) && list[i].isPrimary;
    } else {
      assert AskedPrimary(dtos, 0) && list[0].isPrimary;
    }
    if exists i :: 0 <= i < |list| && list[i].isActive {
      if j :| 0 <= j < |dtos| && AsksActive(dtos[j]) && AskedPrimary(dtos, j) {
        assert list[j].isActive && list[j].isPrimary;
      } else {
        var i := FirstActive(dtos, 0);
        assert PromotedPrimary(dtos, i) && list[i].isActive && list[i].isPrimary;
      }
    }
  }

  lemma FirstActive(dtos: seq<AssignmentDto>, from: nat) returns (i: nat)
    requires forall j | 0 <= j < from && j < |dtos| :: !AsksActive(dtos[j])
    requires exists j :: 0 <= j < |dtos| && AsksActive(dtos[j])
    ensures i < |dtos| && AsksActive(dtos[i]) && forall j | 0 <= j < i :: !AsksActive(dtos[j])
    decreases |dtos| - from
  {
    if AsksActive(dtos[from]) { i := from; } else { i := FirstActive(dtos, from + 1); }
  }

  ghost predicate StationsUsable(dtos: seq<AssignmentDto>) {
    && (forall i | 0 <= i < |dtos| :: !IsBlank(dtos[i].stationId))
    && (forall i, j | 0 <= i < j < |dtos| :: dtos[i].stationId != dtos[j].stationId)
  }

  ghost predicate RolesUsable(dtos: seq<AssignmentDto>) {
    forall i | 0 <= i < |dtos| :: dtos[i].role.Some? && TeamManageable(dtos[i].role.value)
  }

  method CheckStations(dtos: seq<AssignmentDto>) returns (problem: Option<Error>)
    ensures problem.None? <==> StationsUsable(dtos)
  {
    hide IsBlank;
    var seen: set<StationId> := {};
    for i := 0 to |dtos|
      invariant seen == set j | 0 <= j < i :: dtos[j].stationId
      invariant forall j | 0 <= j < i :: !IsBlank(dtos[j].stationId)
      invariant forall j, k | 0 <= j < k < i :: dtos[j].stationId != dtos[k].stationId
    {
      if IsBlank(dtos[i].stationId) {
        return Some(BlankStation);
      }
      if dtos[i].stationId in seen {
        return Some(DuplicateStation);
      }
      seen := seen + {dtos[i].stationId};
    }
    return None;
  }

  method FillDefaults(dtos: seq<AssignmentDto>) returns (r: Result<seq<Assignment>, Error>)
    ensures r.Ok? <==> RolesUsable(dtos)
    ensures r.Ok? ==> |r.value| == |dtos| && forall j | 0 <= j < |dtos| :: r.value[j] == Defaulted(dtos[j])
  {
    var list: seq<Assignment> := [];
    for i := 0 to |dtos|
      invariant |list| == i
      invariant forall j | 0 <= j < i ::
        dtos[j].role.Some? && TeamManageable(dtos[j].role.value) && list[j] == Defaulted(dtos[j])
    {
      if dtos[i].role.None? {
        return Err(InvalidRole);
      }
      if !TeamManageable(dtos[i].role.value) {
        return Err(NotManageable);
      }
      list := list + [Defaulted(dtos[i])];
    }
    return Ok(list);
  }

  method AskPrimary(dtos: seq<AssignmentDto>, filled: seq<Assignment>) returns (list: seq<Assignment>)
    requires dtos != [] && RolesUsable(dtos) && |filled| == |dtos|
    requires forall j | 0 <= j < |dtos| :: filled[j] == Defaulted(dtos[j])
    ensures |list| == |dtos|
    ensures forall j | 0 <= j < |dtos| :: list[j] == Defaulted(dtos[j]).(isPrimary := AskedPrimary(dtos, j))
  {
    hide ShiftOf;
    list := filled;
    var hasPrimary := false;
    for i := 0 to |list|
      invariant hasPrimary <==> exists j :: 0 <= j < i && dtos[j].isPrimary == Some(true)
    {
      hasPrimary := hasPrimary || list[i].isPrimary;
    }
    if !hasPrimary {
      list := list[0 := list[0].(isPrimary := true)];
    }
  }

  method PromoteActive(dtos: seq<AssignmentDto>, asked: seq<Assignment>) returns (list: seq<Assignment>)
    requires Acceptable(dtos) && |asked| == |dtos|
    requires forall j | 0 <= j < |dtos| :: asked[j] == Defaulted(dtos[j]).(isPrimary := AskedPrimary(dtos, j))
    ensures NormalForm(dtos, list)
  {
    hide ShiftOf, IsBlank, AskedPrimary;
    list := asked;
    var firstActive: int := -1;
    var activePrimary := false;
    for i := 0 to |list|
      invariant -1 <= firstActive < i
      invariant firstActive == -1 ==> forall j | 0 <= j < i :: !AsksActive(dtos[j])
      invariant firstActive != -1 ==>
        AsksActive(dtos[firstActive]) && forall j | 0 <= j < firstActive :: !AsksActive(dtos[j])
      invariant activePrimary <==> exists j :: 0 <= j < i && AsksActive(dtos[j]) && AskedPrimary(dtos, j)
    {
      if list[i].isActive {
        if firstActive == -1 {
          firstActive := i;
        }
        activePrimary := activePrimary || list[i].isPrimary;
      }
    }
    assert firstActive != -1 && !activePrimary ==> PromotedPrimary(dtos, firstActive);
    assert forall j | 0 <= j < |dtos| :: PromotedPrimary(dtos, j) ==> j == firstActive && !activePrimary;
    if firstActive != -1 && !activePrimary {
      list := list[firstActive := list[firstActive].(isPrimary := true)];
    }
  }

  method NormalizeTeamAssignments(dtos: seq<AssignmentDto>) returns (r: Result<seq<Assignment>, Error>)
    ensures r.Ok? <==> Acceptable(dtos)
    ensures r.Ok? ==> NormalForm(dtos, r.value)
    ensures r.Ok? ==> |r.value| == |dtos| && forall i | 0 <= i < |dtos| :: FilledFrom(dtos[i], r.value[i])
  {
    hide FilledFrom;
    if |dtos| == 0 {
      return Err(NoAssignments);
    }
    var problem := CheckStations(dtos);
    if problem.Some? {
      return Err(problem.value);
    }
    r := FillDefaults(dtos);
    if r.Err? {
      return;
    }
    var asked := AskPrimary(dtos, r.value);
    var list := PromoteActive(dtos, asked);
    NormalRows(dtos, list);
    return Ok(list);
  }

  // ---- The team table after a replacement --------------------------------------------

  predicate Retired(t: TeamRow, user: UserId, stations: set<StationId>) {
    t.userId == user && t.stationId in stations && t.isActive
  }

  /** `UPDATE … SET isActive = false, isPrimary = false` on the user's active rows at some stations. */
  function Retire(team: seq<TeamRow>, user: UserId, stations: set<StationId>): seq<TeamRow> {
    seq(|team|, i requires 0 <= i < |team| =>
      if Retired(team[i], user, stations) then team[i].(isActive := false, isPrimary := false) else team[i])
  }

  function RowOf(user: UserId, a: Assignment): TeamRow {
    TeamRow(user, a.stationId, a.role, a.isPrimary, a.isActive, a.shift)
  }

  function NewRows(user: UserId, list: seq<Assignment>): seq<TeamRow> {
    seq(|list|, i requires 0 <= i < |list| => RowOf(user, list[i]))
  }

  function Replaced(team: seq<TeamRow>, user: UserId, stations: set<StationId>, list: seq<Assignment>): seq<TeamRow> {
    Retire(team, user, stations) + NewRows(user, list)
  }

  ghost predicate DistinctIn(list: seq<Assignment>, stations: set<StationId>) {
    && (forall i | 0 <= i < |list| :: list[i].stationId in stations)
    && (forall i, j | 0 <= i < j < |list| :: list[i].stationId != list[j].stationId)
  }

  /** The table afterwards, row by row: what was retired, what stayed, and what was created. */
  lemma ReplacedRows(team: seq<TeamRow>, user: UserId, stations: set<StationId>, list: seq<Assignment>)
    ensures var after := Replaced(team, user, stations, list);
            && |after| == |team| + |list|
            && (forall i | 0 <= i < |team| ::
                  var t := team[i];
                  var gone := t.isActive && t.userId == user && t.stationId in stations;
                  after[i] == if gone then TeamRow(user, t.stationId, t.role, false, false, t.shift) else t)
            && (forall i | 0 <= i < |list| ::
                  var t, a := after[|team| + i], list[i];
                  && t.userId == user && t.stationId == a.stationId && t.role == a.role && t.shift == a.shift
                  && t.isPrimary == a.isPrimary && t.isActive == a.isActive)
  {
  }

  /** Retiring the stations first is what keeps at most one active row per user and station. */
  lemma ReplacedOneActive(team: seq<TeamRow>, user: UserId, stations: set<StationId>, list: seq<Assignment>)
    requires OneActive(team) && DistinctIn(list, stations)
    ensures OneActive(Replaced(team, user, stations, list))
  {
    var retired, rows := Retire(team, user, stations), NewRows(user, list);
    assert OneActive(retired);
    forall i, j | 0 <= i < |retired| && 0 <= j < |rows| && retired[i].isActive && retired[i].userId == user
      ensures retired[i].stationId != rows[j].stationId
    {
      assert list[j].stationId in stations;
    }
    forall i, j | 0 <= i < j < |rows| ensures rows[i].stationId != rows[j].stationId {
      assert list[i].stationId != list[j].stationId;
    }
    OneActiveConcat(retired, rows);
  }

  /** The same for attendant rows alone, of the user and of everyone else. */
  lemma ReplacedOneServing(team: seq<TeamRow>, user: UserId, stations: set<StationId>, list: seq<Assignment>, u: UserId)
    requires OneServing(team, u) && DistinctIn(list, stations)
    ensures OneServing(Replaced(team, user, stations, list), u)
  {
    var after := Replaced(team, user, stations, list);
    forall i, j | 0 <= i < j < |after| && Attends(after[i], u) && Attends(after[j], u)
      ensures after[i].stationId != after[j].stationId
    {
      if j < |team| {
        assert after[i] == team[i] && after[j] == team[j];
      } else if i < |team| {
        assert after[i] == team[i] && !Retired(team[i], user, stations);
        assert list[j - |team|].stationId in stations;
      } else {
        assert list[i - |team|].stationId != list[j - |team|].stationId;
      }
    }
  }

  lemma ReplacedEachOneServing(team: seq<TeamRow>, user: UserId, stations: set<StationId>, list: seq<Assignment>)
    requires EachOneServing(team) && DistinctIn(list, stations)
    ensures EachOneServing(Replaced(team, user, stations, list))
  {
    hide OneServing, DistinctIn, Replaced;
    forall u ensures OneServing(Replaced(team, user, stations, list), u) {
      ReplacedOneServing(team, user, stations, list, u);
    }
  }

  lemma RetiredEachOneServing(team: seq<TeamRow>, user: UserId, stations: set<StationId>)
    requires EachOneServing(team)
    ensures EachOneServing(Retire(team, user, stations))
  {
    ReplacedEachOneServing(team, user, stations, []);
    assert Replaced(team, user, stations, []) == Retire(team, user, stations);
  }

  lemma OneActiveConcat(a: seq<TeamRow>, b: seq<TeamRow>)
    requires OneActive(a) && OneActive(b)
    requires forall i, j | 0 <= i < |a| && 0 <= j < |b| && a[i].isActive && a[i].userId == b[j].userId ::
             a[i].stationId != b[j].stationId
    ensures OneActive(a + b)
  {
  }

  /** The stations a user serves depend only on the user's own rows, so others' agreement survives. */
  lemma OthersStillAgree(team: seq<TeamRow>, user: UserId, stations: set<StationId>, list: seq<Assignment>,
                         att: seq<AttendantRow>, after: seq<AttendantRow>, other: UserId)
    requires other != user && Agrees(team, att, other) && OthersKept(att, after, user)
    ensures Agrees(Replaced(team, user, stations, list), after, other)
  {
    var team' := Replaced(team, user, stations, list);
    SameServed(team, user, stations, list, other);
    forall i | 0 <= i < |after| && after[i].userId == other ensures RowAgrees(team', after, i) {
      assert i < |att| && after[i] == att[i];
      assert RowAgrees(team, att, i);
      SameFirst(att, after, i);
      assert IsServed(team', other, att[i].stationId) <==> IsServed(team, other, att[i].stationId);
    }
    forall t | t in team' && t.userId == other ensures Mirrored(t, after) {
      if Serves(t, other, t.stationId) {
        assert Mirrored(t, att);
        var k :| 0 <= k < |att| && IsAt(att[k], other, t.stationId) && att[k].isActive;
        assert after[k] == att[k] && after[k] in after;
      }
    }
  }

  lemma SameServed(team: seq<TeamRow>, user: UserId, stations: set<StationId>, list: seq<Assignment>, other: UserId)
    requires other != user
    ensures forall t: TeamRow | t.userId == other :: t in Replaced(team, user, stations, list) <==> t in team
    ensures forall s :: IsServed(Replaced(team, user, stations, list), other, s) <==> IsServed(team, other, s)
  {
    var team' := Replaced(team, user, stations, list);
    forall t: TeamRow | t.userId == other ensures t in team' <==> t in team {
      if t in team { var i :| 0 <= i < |team| && team[i] == t; assert team'[i] == t; }
      if t in team' {
        var i :| 0 <= i < |team'| && team'[i] == t;
        assert i < |team| && team[i] == t;
      }
    }
  }

  // ---- The service -------------------------------------------------------------------

  class TeamService {
    const stationOrg: map<StationId, OrgId>
    var team: seq<TeamRow>
    var attendants: seq<AttendantRow>
    var lastStationAssignment: map<UserId, Option<nat>>

    /** What the projection needs; that nobody has two active rows at a station is a separate matter. */
    ghost predicate Valid()
      reads this
    {
      EachOneServing(team)
    }

    /** Every user's projection agrees. */
    ghost predicate AllAgree()
      reads this
    {
      forall u :: Agrees(team, attendants, u)
    }

    constructor (stationOrg: map<StationId, OrgId>)
      ensures Valid() && AllAgree() && this.stationOrg == stationOrg
      ensures team == [] && attendants == []
    {
      this.stationOrg := stationOrg;
      team, attendants, lastStationAssignment := [], [], map[];
    }

    method ExistingByStation(user: UserId) returns (existing: map<StationId, seq<nat>>)
      ensures forall s :: (if s in existing then existing[s] else []) == RowsAt(attendants, user, s)
    {
      existing := map[];
      var i := 0;
      while i < |attendants|
        invariant 0 <= i <= |attendants|
        invariant forall s :: (if s in existing then existing[s] else []) == RowsAt(attendants[..i], user, s)
      {
        var row := attendants[i];
        assert attendants[..i + 1][..i] == attendants[..i];
        if row.userId == user {
          var rows := if row.stationId in existing then existing[row.stationId] else [];
          existing := existing[row.stationId := rows + [i]];
        }
        i := i + 1;
      }
      assert attendants[..i] == attendants;
    }

    method SyncAttendantProjectionForUser(user: UserId)
      requires OneServing(team, user)
      modifies `attendants
      ensures attendants == Synced(team, old(attendants), user)
    {
      var assignments := ActiveAttendant(team, user);
      ActiveAttendantAre(team, user);
      NoneApplied(attendants, user);
      hide OneServing, ActiveAttendant, AllApplied, RowsAt, DistinctStations, StaleIds, StationsOf;
      var existing := ExistingByStation(user);
      var staleIds := StaleIds(attendants, user, StationsOf(assignments));
      var k := 0;
      assert assignments[..0] == [];
      while k < |assignments|
        invariant 0 <= k <= |assignments|
        invariant attendants == AllApplied(old(attendants), user, assignments[..k])
      {
        var assignment := assignments[k];
        var rows := if assignment.stationId in existing then existing[assignment.stationId] else [];
        assert rows == RowsAt(old(attendants), user, assignment.stationId);
        ApplyNext(old(attendants), user, assignments, k);
        if |rows| > 0 {
          var primaryRow := rows[0];
          var updated := attendants[primaryRow].(shift := ShiftOf(assignment.shift), isActive := true);
          attendants := attendants[primaryRow := updated];
          attendants := Deactivated(attendants, rows[1..]);
        } else {
          attendants := attendants + [AttendantRow(user, assignment.stationId, ShiftOf(assignment.shift), true)];
        }
        k := k + 1;
      }
      assert assignments[..k] == assignments;
      attendants := Deactivated(attendants, staleIds);
    }

    predicate InScope(list: seq<Assignment>, org: OrgId) {
      forall i | 0 <= i < |list| :: list[i].stationId in stationOrg && stationOrg[list[i].stationId] == org
    }

    /** As many stations must be found as are listed, so a station listed twice counts as missing. */
    method ValidateStations(list: seq<Assignment>, org: OrgId) returns (problem: Option<Error>)
      ensures problem.None? <==> InScope(list, org) && Sequences.Distinct(StationIds(list))
      ensures problem == Some(StationMissing)
              <==> !Sequences.Distinct(StationIds(list))
                   || exists i :: 0 <= i < |list| && list[i].stationId !in stationOrg
    {
      var stationIds := StationIds(list);
      Sequences.FoundAll(stationIds, stationOrg.Keys);
      hide Sequences.Distinct;
      assert forall i | 0 <= i < |list| :: stationIds[i] == list[i].stationId && stationIds[i] in stationIds;
      if |Sequences.Found(stationIds, stationOrg.Keys)| != |list| {
        return Some(StationMissing);
      }
      for i := 0 to |list|
        invariant InScope(list[..i], org)
      {
        if stationOrg[list[i].stationId] != org {
          return Some(StationOutOfScope);
        }
        assert list[..i + 1] == list[..i] + [list[i]];
      }
      assert list[..|list|] == list;
      return None;
    }

    /** Retires the user's active rows at some stations, creates the new rows and synchronises the projection. */
    method Rewrite(user: UserId, stations: set<StationId>, list: seq<Assignment>)
      requires Valid() && DistinctIn(list, stations)
      modifies `team, `attendants
      ensures Valid() && (old(OneActive(team)) ==> OneActive(team))
      ensures team == Replaced(old(team), user, stations, list)
      ensures attendants == Synced(team, old(attendants), user)
      ensures Agrees(team, attendants, user)
      ensures forall u | u != user && old(Agrees(team, attendants, u)) :: Agrees(team, attendants, u)
      ensures OthersKept(old(attendants), attendants, user)
    {
      if OneActive(team) {
        ReplacedOneActive(team, user, stations, list);
      }
      ReplacedEachOneServing(team, user, stations, list);
      hide OneActive, OneServing, DistinctIn, Agrees, OthersKept, Synced;
      team := Retire(team, user, stations);
      var i := 0;
      while i < |list|
        invariant 0 <= i <= |list|
        invariant team == Retire(old(team), user, stations) + NewRows(user, list[..i])
        modifies `team
      {
        team := team + [RowOf(user, list[i])];
        assert NewRows(user, list[..i + 1]) == NewRows(user, list[..i]) + [RowOf(user, list[i])];
        i := i + 1;
      }
      assert list[..i] == list;
      SyncAttendantProjectionForUser(user);
      SyncedAgrees(team, old(attendants), user);
      forall u | u != user && old(Agrees(team, attendants, u)) ensures Agrees(team, attendants, u) {
        OthersStillAgree(old(team), user, stations, list, old(attendants), attendants, u);
      }
    }

    /** `authorized` is the outcome of the actor's scope checks. The stations are those of the organisation. */
    method ReplaceTeamAssignments(user: UserId, dtos: seq<AssignmentDto>, org: OrgId, authorized: bool)
        returns (r: Result<seq<Assignment>, Error>)
      requires Valid()
      modifies this
      ensures Valid() && (old(OneActive(team)) ==> OneActive(team))
      ensures r.Err? ==>
              team == old(team) && attendants == old(attendants) && lastStationAssignment == old(lastStationAssignment)
      ensures r.Ok? <==> authorized && Acceptable(dtos) && forall i | 0 <= i < |dtos| ::
                dtos[i].stationId in stationOrg && stationOrg[dtos[i].stationId] == org
      ensures r.Ok? ==>
                && NormalForm(dtos, r.value)
                && team == Replaced(old(team), user, (set s | s in stationOrg && stationOrg[s] == org), r.value)
                && Agrees(team, attendants, user)
                && OthersKept(old(attendants), attendants, user)
                && lastStationAssignment == old(lastStationAssignment)[user := PreferredActive(r.value, old(|team|))]
      ensures old(AllAgree()) ==> AllAgree()
    {
      hide OneActive, EachOneServing, Agrees, OthersKept, AskedPrimary, PromotedPrimary, ShiftOf, IsBlank;
      hide Sequences.Distinct;
      if !authorized {
        return Err(NotAuthorized);
      }
      r := NormalizeTeamAssignments(dtos);
      if r.Err? {
        return;
      }
      var list := r.value;
      ListedDistinct(dtos, list);
      var problem := ValidateStations(list, org);
      if problem.Some? {
        return Err(problem.value);
      }
      var stations := StationsIn(org);
      assert list[0].stationId in stations;
      if stations == {} {
        return Err(NoStations);
      }
      Rewrite(user, stations, list);
      lastStationAssignment := lastStationAssignment[user := PreferredActive(list, |team| - |list|)];
    }

    function StationsIn(org: OrgId): set<StationId> {
      set s | s in stationOrg && stationOrg[s] == org
    }

    /** Materialises the assignments an invitation carries; here only the listed stations are retired first. */
    method SeedTeamAssignments(user: UserId, dtos: seq<AssignmentDto>, org: OrgId)
      returns (r: Result<seq<Assignment>, Error>)
      requires Valid()
      modifies this
      ensures Valid() && (old(OneActive(team)) ==> OneActive(team))
      ensures r.Err? ==>
              team == old(team) && attendants == old(attendants) && lastStationAssignment == old(lastStationAssignment)
      ensures r.Ok? <==> dtos == [] || (Acceptable(dtos) && forall i | 0 <= i < |dtos| ::
                dtos[i].stationId in stationOrg && stationOrg[dtos[i].stationId] == org)
      ensures r.Ok? && dtos == [] ==>
              team == old(team) && attendants == old(attendants) && lastStationAssignment == old(lastStationAssignment)
      ensures r.Ok? && dtos != [] ==>
                && NormalForm(dtos, r.value)
                && team == Replaced(old(team), user, StationsListed(r.value), r.value)
                && Agrees(team, attendants, user)
                && OthersKept(old(attendants), attendants, user)
                && lastStationAssignment
                   == old(lastStationAssignment)[user := Some(old(|team|) + FirstPrimary(r.value))]
      ensures old(AllAgree()) ==> AllAgree()
    {
      hide OneActive, EachOneServing, Agrees, OthersKept, AskedPrimary, PromotedPrimary, ShiftOf, IsBlank;
      hide Sequences.Distinct, DistinctIn, Synced, StationsListed, FirstPrimary;
      if |dtos| == 0 {
        return Ok([]);
      }
      r := NormalizeTeamAssignments(dtos);
      if r.Err? {
        return;
      }
      var list := r.value;
      ListedDistinct(dtos, list);
      NormalStations(dtos, list);
      hide NormalForm, Acceptable;
      var problem := ValidateStations(list, org);
      if problem.Some? {
        return Err(problem.value);
      }
      Rewrite(user, StationsListed(list), list);
      lastStationAssignment := lastStationAssignment[user := Some(|team| - |list| + FirstPrimary(list))];
    }

    /** A role change to one without stations retires the organisation's rows but leaves the projection alone. */
    method RetireForRoleChange(user: UserId, org: OrgId)
      requires Valid()
      modifies `team, `lastStationAssignment
      ensures Valid() && (old(OneActive(team)) ==> OneActive(team))
      ensures team == Retire(old(team), user, (set s | s in stationOrg && stationOrg[s] == org))
      ensures lastStationAssignment == old(lastStationAssignment)[user := None]
    {
      RetiredEachOneServing(team, user, StationsIn(org));
      team := Retire(team, user, StationsIn(org));
      hide EachOneServing;
      lastStationAssignment := lastStationAssignment[user := None];
    }
  }

  function StationIds(list: seq<Assignment>): (ids: seq<StationId>)
    ensures |ids| == |list|
  {
    seq(|list|, i requires 0 <= i < |list| => list[i].stationId)
  }

  lemma NormalStations(dtos: seq<AssignmentDto>, list: seq<Assignment>)
    requires NormalForm(dtos, list)
    ensures |list| == |dtos| && forall i | 0 <= i < |dtos| :: list[i].stationId == dtos[i].stationId
  {
  }

  lemma ListedDistinct(dtos: seq<AssignmentDto>, list: seq<Assignment>)
    requires NormalForm(dtos, list)
    ensures DistinctIn(list, StationsListed(list)) && Sequences.Distinct(StationIds(list))
  {
    assert forall i | 0 <= i < |list| :: list[i] in list && list[i].stationId == dtos[i].stationId;
  }

  function StationsListed(list: seq<Assignment>): set<StationId> {
    set a | a in list :: a.stationId
  }

  function FirstIndex(list: seq<Assignment>, p: Assignment -> bool): (i: nat)
    ensures i <= |list|
    ensures i < |list| ==> p(list[i])
    ensures forall j | 0 <= j < i :: !p(list[j])
  {
    if list == [] || p(list[0]) then 0 else 1 + FirstIndex(list[1..], p)
  }

  /** The row a session prefers: the first active primary one, else the first active one, else none. */
  function PreferredActive(list: seq<Assignment>, base: nat): Option<nat> {
    var primary := FirstIndex(list, (a: Assignment) => a.isPrimary && a.isActive);
    var active := FirstIndex(list, (a: Assignment) => a.isActive);
    if primary < |list| then Some(base + primary) else if active < |list| then Some(base + active) else None
  }

  /** The row preferred is the first that is active and primary, without one the first that is active, if any is. */
  lemma PreferredIs(list: seq<Assignment>, base: nat)
    ensures PreferredActive(list, base).None? <==> forall i | 0 <= i < |list| :: !list[i].isActive
    ensures forall i | 0 <= i < |list| && list[i].isActive && list[i].isPrimary
                       && (forall j | 0 <= j < i :: !(list[j].isActive && list[j].isPrimary)) ::
              PreferredActive(list, base) == Some(base + i)
    ensures forall i | 0 <= i < |list| && list[i].isActive && (forall j | 0 <= j < i :: !list[j].isActive)
                       && (forall j | 0 <= j < |list| :: !(list[j].isActive && list[j].isPrimary)) ::
              PreferredActive(list, base) == Some(base + i)
  {
    hide FirstIndex;
  }

  function FirstPrimary(list: seq<Assignment>): nat {
    var primary := FirstIndex(list, (a: Assignment) => a.isPrimary);
    if primary < |list| then primary else 0
  }

  /** Retiring without a sync keeps the user's agreement exactly when there was no attendant row to retire. */
  lemma RetireKeepsAgreementIff(team: seq<TeamRow>, att: seq<AttendantRow>, user: UserId, stations: set<StationId>)
    requires Agrees(team, att, user)
    ensures OneActive(team) ==> OneActive(Retire(team, user, stations))
    ensures Agrees(Retire(team, user, stations), att, user)
            <==> forall s | s in stations :: !IsServed(team, user, s)
  {
    var retired := Retire(team, user, stations);
    forall s ensures IsServed(retired, user, s) <==> IsServed(team, user, s) && s !in stations {
      if IsServed(team, user, s) && s !in stations {
        var i :| 0 <= i < |team| && Serves(team[i], user, s);
        assert retired[i] == team[i] && retired[i] in retired;
      }
      if IsServed(retired, user, s) {
        var i :| 0 <= i < |retired| && Serves(retired[i], user, s);
        assert retired[i] == team[i] && team[i] in team;
      }
    }
    if s :| s in stations && IsServed(team, user, s) {
      AgreementMeans(team, att, user);
      assert IsActiveAt(att, user, s) && !IsServed(retired, user, s);
      if Agrees(retired, att, user) { AgreementMeans(retired, att, user); }
    } else {
      forall t: TeamRow | Serves(t, user, t.stationId) ensures t in retired <==> t in team {
        if t in team {
          var i :| 0 <= i < |team| && team[i] == t;
          assert IsServed(team, user, t.stationId) && retired[i] == t;
        }
        if t in retired { var i :| 0 <= i < |retired| && retired[i] == t; assert team[i] == t; }
      }
      forall i | 0 <= i < |att| && att[i].userId == user ensures RowAgrees(retired, att, i) {
        assert RowAgrees(team, att, i);
      }
      forall t | t in retired && t.userId == user ensures Mirrored(t, att) {
        if Serves(t, user, t.stationId) { assert Mirrored(t, att); }
      }
    }
  }

  /** The smallest case: a user made an attendant at one station, whose rows a role change then retires. */
  lemma RetireLosesAgreement(user: UserId, station: StationId, shift: TeamShift)
    ensures var list := [Assignment(station, ATTENDANT, true, true, shift)];
            var team := Replaced([], user, {station}, list);
            var att := Synced(team, [], user);
            Agrees(team, att, user) && !Agrees(Retire(team, user, {station}), att, user)
  {
    var list := [Assignment(station, ATTENDANT, true, true, shift)];
    var team := Replaced([], user, {station}, list);
    ReplacedOneServing([], user, {station}, list, user);
    SyncedAgrees(team, [], user);
    assert team[0] == RowOf(user, list[0]) && team[0] in team && IsServed(team, user, station);
    hide Synced, Agrees, Retire, OneServing, IsServed, Replaced;
    RetireKeepsAgreementIff(team, Synced(team, [], user), user, {station});
    assert station in {station};
  }
}
