/** What the team backfill does to the invariants of the team service. */
module TeamBackfillEffects {
  import opened Wrappers
  import opened TeamAssignments
  import opened TeamBackfill

  // ---- At most one active row per user and station -----------------------------------

  predicate IsOtherRole(t: TeamRow, source: AttendantRow) {
    t.userId == source.userId && t.stationId == source.stationId && t.isActive && t.role != ATTENDANT
  }

  /** The user is active at the source's station in another role than attendant. */
  predicate HasOtherRole(team: seq<TeamRow>, source: AttendantRow) {
    exists i :: 0 <= i < |team| && IsOtherRole(team[i], source)
  }

  ghost predicate NoOtherRole(team: seq<TeamRow>, sources: seq<AttendantRow>, fails: nat -> bool) {
    forall k | 0 <= k < |sources| && sources[k].isActive && !fails(k) :: !HasOtherRole(team, sources[k])
  }

  /** The script's own rows are attendant rows made from sources whose insert went through. */
  lemma {:induction false} FilledRows(team: seq<TeamRow>, sources: seq<AttendantRow>, fails: nat -> bool)
    ensures |Filled(team, sources, fails)| >= |team| && Filled(team, sources, fails)[..|team|] == team
    ensures forall i | |team| <= i < |Filled(team, sources, fails)| ::
            FromSource(Filled(team, sources, fails)[i], sources, fails)
  {
    if sources != [] {
      var k := |sources| - 1;
      FilledRows(team, sources[..k], fails);
      var before, after := Filled(team, sources[..k], fails), Filled(team, sources, fails);
      forall i | |team| <= i < |after| ensures FromSource(after[i], sources, fails) {
        if i < |before| {
          var j :| 0 <= j < k && !fails(j) && IsBackfilled(before[i], sources[..k][j]);
          assert IsBackfilled(after[i], sources[j]);
        } else {
          assert IsBackfilled(after[i], sources[k]);
        }
      }
    }
  }

  ghost predicate FromSource(t: TeamRow, sources: seq<AttendantRow>, fails: nat -> bool) {
    exists k :: 0 <= k < |sources| && !fails(k) && IsBackfilled(t, sources[k])
  }

  predicate IsBackfilled(t: TeamRow, source: AttendantRow) {
    t == BackfilledRow(source, t.isPrimary)
  }

  lemma TwoRolesClash(team: seq<TeamRow>, source: AttendantRow)
    requires HasMatch(team, source) && source.isActive && HasOtherRole(team, source)
    ensures !OneActive(team)
  {
    var i :| 0 <= i < |team| && Matches(team[i], source);
    var j :| 0 <= j < |team| && IsOtherRole(team[j], source);
    assert i < j || j < i;
  }

  lemma OneActiveAppend(rows: seq<TeamRow>, t: TeamRow)
    ensures OneActive(rows + [t])
            <==> OneActive(rows) && (t.isActive ==> forall i | 0 <= i < |rows| ::
                   !(rows[i].isActive && rows[i].userId == t.userId && rows[i].stationId == t.stationId))
  {
    var after := rows + [t];
    assert forall i | 0 <= i < |rows| :: after[i] == rows[i];
    if OneActive(after) {
      forall i | 0 <= i < |rows| && t.isActive
        ensures !(rows[i].isActive && rows[i].userId == t.userId && rows[i].stationId == t.stationId)
      {
        assert after[|rows|] == t;
      }
    }
  }

  lemma {:induction false} FilledOneActive(team: seq<TeamRow>, sources: seq<AttendantRow>, fails: nat -> bool)
    requires OneActive(team)
    ensures OneActive(Filled(team, sources, fails)) <==> NoOtherRole(team, sources, fails)
  {
    if sources != [] {
      var k := |sources| - 1;
      var front, source := sources[..k], sources[k];
      var before := Filled(team, front, fails);
      FilledOneActive(team, front, fails);
      FilledRows(team, front, fails);
      OtherRoleKept(team, before, front, source, fails);
      NoOtherRoleStep(team, sources, fails);
      hide OneActive, NoOtherRole, HasOtherRole;
      if HasMatch(before, source) {
        if source.isActive && HasOtherRole(before, source) { TwoRolesClash(before, source); }
      } else if !fails(k) {
        var row := BackfilledRow(source, !HasPrimary(before, source.userId) && source.isActive);
        OneActiveAppend(before, row);
        if source.isActive { NobodyElseActive(before, source); }
      }
    }
  }

  lemma NoOtherRoleStep(team: seq<TeamRow>, sources: seq<AttendantRow>, fails: nat -> bool)
    requires sources != []
    ensures var k := |sources| - 1;
            NoOtherRole(team, sources, fails)
            <==> NoOtherRole(team, sources[..k], fails)
                 && (sources[k].isActive && !fails(k) ==> !HasOtherRole(team, sources[k]))
  {
    hide HasOtherRole;
    var k := |sources| - 1;
    assert forall j | 0 <= j < k :: sources[..k][j] == sources[j];
  }

  lemma OtherRoleKept(team: seq<TeamRow>, before: seq<TeamRow>, sources: seq<AttendantRow>, source: AttendantRow,
                      fails: nat -> bool)
    requires |before| >= |team| && before[..|team|] == team
    requires forall i | |team| <= i < |before| :: FromSource(before[i], sources, fails)
    ensures HasOtherRole(before, source) <==> HasOtherRole(team, source)
  {
    if HasOtherRole(team, source) {
      var i :| 0 <= i < |team| && IsOtherRole(team[i], source);
      assert before[i] == before[..|team|][i];
    }
    if HasOtherRole(before, source) {
      var i :| 0 <= i < |before| && IsOtherRole(before[i], source);
      assert i < |team| ==> team[i] == before[i];
    }
  }

  /** Without a matching row, only another role can be active at the source's station. */
  lemma NobodyElseActive(rows: seq<TeamRow>, source: AttendantRow)
    requires !HasMatch(rows, source) && source.isActive
    ensures HasOtherRole(rows, source)
            <==> exists i :: 0 <= i < |rows| && rows[i].isActive && rows[i].userId == source.userId
                             && rows[i].stationId == source.stationId
  {
    if i :| 0 <= i < |rows| && rows[i].isActive && rows[i].userId == source.userId
            && rows[i].stationId == source.stationId
    {
      assert !Matches(rows[i], source);
      assert IsOtherRole(rows[i], source);
    }
  }

  lemma RepairedOneActive(team: seq<TeamRow>)
    ensures OneActive(Repaired(team)) <==> OneActive(team)
  {
    RepairCompletes(team);
    var rows := Repaired(team);
    hide Repaired;
    assert forall i | 0 <= i < |team| :: rows[i].isActive == team[i].isActive && rows[i].userId == team[i].userId
                                         && rows[i].stationId == team[i].stationId;
  }

  /**
   * The script keeps at most one active row per user and station if and only if no active attendant row that it may
   * copy belongs to a user who is active at that station in another role.
   */
  lemma BackfillOneActiveIff(team: seq<TeamRow>, sources: seq<AttendantRow>, fails: nat -> bool)
    ensures OneActive(Backfilled(team, sources, fails)) <==> OneActive(team) && NoOtherRole(team, sources, fails)
  {
    var filled := Filled(team, sources, fails);
    RepairedOneActive(filled);
    if OneActive(team) {
      FilledOneActive(team, sources, fails);
    } else {
      FilledRows(team, sources, fails);
      assert forall i | 0 <= i < |team| :: filled[..|team|][i] == filled[i];
    }
  }

  /** The smallest case: a manager with an active attendant row at the same station gets a second active row. */
  lemma BackfillSecondsAManager(user: UserId, station: StationId, shift: Shift, primary: bool)
    ensures var team := [TeamRow(user, station, MANAGER, primary, true, NO_SHIFT)];
            var sources := [AttendantRow(user, station, shift, true)];
            OneActive(team) && !OneActive(Backfilled(team, sources, k => false))
  {
    var team := [TeamRow(user, station, MANAGER, primary, true, NO_SHIFT)];
    var sources := [AttendantRow(user, station, shift, true)];
    assert IsOtherRole(team[0], sources[0]) && HasOtherRole(team, sources[0]);
    BackfillOneActiveIff(team, sources, k => false);
    hide Backfilled, OneActive, HasOtherRole;
    assert OneActive(team) by { OneActiveAlone(team); }
  }

  lemma OneActiveAlone(team: seq<TeamRow>)
    requires |team| <= 1
    ensures OneActive(team)
  {
  }

  // ---- At most one active attendant row per user and station -------------------------

  lemma OneServingAppend(rows: seq<TeamRow>, t: TeamRow, user: UserId)
    ensures OneServing(rows + [t], user)
            <==> OneServing(rows, user) && (Attends(t, user) ==> !IsServed(rows, user, t.stationId))
  {
    var after := rows + [t];
    assert forall i | 0 <= i < |rows| :: after[i] == rows[i];
    assert after[|rows|] == t;
    if OneServing(after, user) && Attends(t, user) {
      forall x | x in rows ensures !Serves(x, user, t.stationId) {
        var i :| 0 <= i < |rows| && rows[i] == x;
        assert Attends(after[i], user) ==> after[i].stationId != after[|rows|].stationId;
      }
    }
    if OneServing(rows, user) && (Attends(t, user) ==> !IsServed(rows, user, t.stationId)) {
      forall i | 0 <= i < |rows| && Attends(t, user) && Attends(rows[i], user)
        ensures rows[i].stationId != t.stationId {
        assert rows[i] in rows;
      }
    }
  }

  lemma {:induction false} FilledOneServing(team: seq<TeamRow>, sources: seq<AttendantRow>, fails: nat -> bool,
                                            user: UserId)
    ensures OneServing(Filled(team, sources, fails), user) <==> OneServing(team, user)
  {
    if sources != [] {
      var k := |sources| - 1;
      var before, source := Filled(team, sources[..k], fails), sources[k];
      FilledOneServing(team, sources[..k], fails, user);
      hide OneServing;
      if !HasMatch(before, source) && !fails(k) {
        var row := BackfilledRow(source, !HasPrimary(before, source.userId) && source.isActive);
        OneServingAppend(before, row, user);
        UnmatchedUnserved(before, source);
      }
    }
  }

  lemma UnmatchedUnserved(rows: seq<TeamRow>, source: AttendantRow)
    ensures source.isActive && IsServed(rows, source.userId, source.stationId) ==> HasMatch(rows, source)
  {
    if t :| source.isActive && t in rows && Serves(t, source.userId, source.stationId) {
      var i :| 0 <= i < |rows| && rows[i] == t;
      assert Matches(rows[i], source);
    }
  }

  lemma RepairedOneServing(team: seq<TeamRow>, user: UserId)
    ensures OneServing(Repaired(team), user) <==> OneServing(team, user)
  {
    RepairCompletes(team);
    var rows := Repaired(team);
    hide Repaired;
    assert forall i | 0 <= i < |team| ::
        (Attends(rows[i], user) <==> Attends(team[i], user)) && rows[i].stationId == team[i].stationId;
  }

  /**
   * What the projection needs is never at risk: whatever inserts fail, a user has at most one active attendant row per
   * station after the script exactly if that was so before.
   */
  lemma BackfillKeepsOneServing(team: seq<TeamRow>, sources: seq<AttendantRow>, fails: nat -> bool)
    ensures forall user :: OneServing(Backfilled(team, sources, fails), user) <==> OneServing(team, user)
    ensures EachOneServing(Backfilled(team, sources, fails)) <==> EachOneServing(team)
  {
    hide OneServing, Repaired, Filled;
    forall user ensures OneServing(Backfilled(team, sources, fails), user) <==> OneServing(team, user) {
      FilledOneServing(team, sources, fails, user);
      RepairedOneServing(Filled(team, sources, fails), user);
    }
  }

  // ---- A projection left stale by a role change --------------------------------------

  ghost predicate ActiveSourceAt(sources: seq<AttendantRow>, fails: nat -> bool, user: UserId, station: StationId) {
    exists k :: 0 <= k < |sources| && !fails(k) && IsAt(sources[k], user, station) && sources[k].isActive
  }

  /** After the script a user serves the stations served before and those of the active rows copied. */
  lemma {:induction false} FilledServes(team: seq<TeamRow>, sources: seq<AttendantRow>, fails: nat -> bool,
                                        user: UserId,
                                        station: StationId)
    ensures IsServed(Filled(team, sources, fails), user, station)
            <==> IsServed(team, user, station) || ActiveSourceAt(sources, fails, user, station)
  {
    if sources != [] {
      var k := |sources| - 1;
      var front, source := sources[..k], sources[k];
      var before, after := Filled(team, front, fails), Filled(team, sources, fails);
      FilledServes(team, front, fails, user, station);
      ActiveSourceStep(sources, fails, user, station);
      if HasMatch(before, source) {
        if IsAt(source, user, station) && source.isActive {
          var i :| 0 <= i < |before| && Matches(before[i], source);
          assert before[i] in before && Serves(before[i], user, station);
        }
      } else if !fails(k) {
        ServedAppend(before, after[|before|], user, station);
      }
    }
  }

  lemma ActiveSourceStep(sources: seq<AttendantRow>, fails: nat -> bool, user: UserId, station: StationId)
    requires sources != []
    ensures var k := |sources| - 1;
            ActiveSourceAt(sources, fails, user, station)
            <==> ActiveSourceAt(sources[..k], fails, user, station)
                 || (!fails(k) && IsAt(sources[k], user, station) && sources[k].isActive)
  {
    var k := |sources| - 1;
    if ActiveSourceAt(sources[..k], fails, user, station) {
      var j :| 0 <= j < k && !fails(j) && IsAt(sources[..k][j], user, station) && sources[..k][j].isActive;
      assert IsAt(sources[j], user, station) && sources[j].isActive;
    }
    if ActiveSourceAt(sources, fails, user, station) {
      var j :| 0 <= j < |sources| && !fails(j) && IsAt(sources[j], user, station) && sources[j].isActive;
      assert j < k ==> IsAt(sources[..k][j], user, station) && sources[..k][j].isActive;
    }
  }

  lemma ServedAppend(rows: seq<TeamRow>, t: TeamRow, user: UserId, station: StationId)
    ensures IsServed(rows + [t], user, station) <==> IsServed(rows, user, station) || Serves(t, user, station)
  {
    if IsServed(rows, user, station) {
      var x :| x in rows && Serves(x, user, station);
      assert x in rows + [t];
    }
    assert t in rows + [t];
  }

  lemma RepairedServes(team: seq<TeamRow>, user: UserId, station: StationId)
    ensures IsServed(Repaired(team), user, station) <==> IsServed(team, user, station)
  {
    RepairCompletes(team);
    var rows := Repaired(team);
    hide Repaired;
    if t :| t in team && Serves(t, user, station) {
      var i :| 0 <= i < |team| && team[i] == t;
      assert rows[i] in rows && Serves(rows[i], user, station);
    }
    if t :| t in rows && Serves(t, user, station) {
      var i :| 0 <= i < |rows| && rows[i] == t;
      assert team[i] in team && Serves(team[i], user, station);
    }
  }

  /**
   * The script undoes a role change: when a user whose projection agreed has rows retired without a sync, a run without
   * failed inserts brings exactly the retired stations back, and with them the agreement.
   */
  lemma BackfillUndoesRetirement(team: seq<TeamRow>, att: seq<AttendantRow>, user: UserId, stations: set<StationId>,
                                 fails: nat -> bool)
    requires Agrees(team, att, user) && forall k :: !fails(k)
    ensures var rows := Backfilled(Retire(team, user, stations), att, fails);
            && (forall s :: IsServed(rows, user, s) <==> IsServed(team, user, s))
            && Agrees(rows, att, user)
  {
    var retired := Retire(team, user, stations);
    var rows := Backfilled(retired, att, fails);
    AgreementMeans(team, att, user);
    forall s ensures IsServed(rows, user, s) <==> IsServed(team, user, s) {
      ServedAgain(team, att, user, stations, fails, s);
    }
    hide Backfilled, Retire;
    forall i | 0 <= i < |att| && att[i].userId == user ensures RowAgrees(rows, att, i) {
      assert RowAgrees(team, att, i);
      forall t | t in rows && att[i].isActive && Serves(t, user, att[i].stationId)
        ensures att[i].shift == ShiftOf(t.shift)
      {
        SameShift(team, att, user, stations, fails, i, t);
      }
    }
    forall t | t in rows && t.userId == user ensures Mirrored(t, att) {
      if Serves(t, user, t.stationId) {
        assert IsServed(rows, user, t.stationId);
        assert IsActiveAt(att, user, t.stationId);
      }
    }
  }

  lemma ServedAgain(team: seq<TeamRow>, att: seq<AttendantRow>, user: UserId, stations: set<StationId>,
                    fails: nat -> bool,
                    s: StationId)
    requires Agrees(team, att, user) && forall k :: !fails(k)
    ensures IsServed(Backfilled(Retire(team, user, stations), att, fails), user, s) <==> IsServed(team, user, s)
  {
    var retired := Retire(team, user, stations);
    AgreementMeans(team, att, user);
    RepairedServes(Filled(retired, att, fails), user, s);
    FilledServes(retired, att, fails, user, s);
    if t :| t in retired && Serves(t, user, s) {
      var i :| 0 <= i < |retired| && retired[i] == t;
      assert team[i] == t && team[i] in team;
    }
    assert IsActiveAt(att, user, s) <==> ActiveSourceAt(att, fails, user, s) by {
      if IsActiveAt(att, user, s) {
        var a :| a in att && IsAt(a, user, s) && a.isActive;
        var k :| 0 <= k < |att| && att[k] == a;
        assert !fails(k);
      }
    }
  }

  /** A row of the backfilled table is a row of the old one, or made from a source, whatever its primary flag. */
  lemma RowOrigin(retired: seq<TeamRow>, att: seq<AttendantRow>, fails: nat -> bool, t: TeamRow)
    requires t in Backfilled(retired, att, fails)
    ensures exists x: TeamRow :: x.userId == t.userId && x.stationId == t.stationId && x.isActive == t.isActive
              && x.role == t.role && x.shift == t.shift && (x in retired || FromSource(x, att, fails))
  {
    var filled, rows := Filled(retired, att, fails), Backfilled(retired, att, fails);
    FilledRows(retired, att, fails);
    RepairCompletes(filled);
    hide Repaired, Filled, FromSource;
    var i :| 0 <= i < |rows| && rows[i] == t;
    var x := filled[i];
    assert i < |retired| ==> filled[..|retired|][i] == x && x in retired;
  }

  lemma SameShift(team: seq<TeamRow>, att: seq<AttendantRow>, user: UserId, stations: set<StationId>,
                  fails: nat -> bool,
                  i: nat, t: TeamRow)
    requires Agrees(team, att, user) && i < |att| && att[i].userId == user && att[i].isActive
    requires t in Backfilled(Retire(team, user, stations), att, fails) && Serves(t, user, att[i].stationId)
    ensures att[i].shift == ShiftOf(t.shift)
  {
    var retired := Retire(team, user, stations);
    RowOrigin(retired, att, fails, t);
    assert RowAgrees(team, att, i);
    AgreementMeans(team, att, user);
    var x: TeamRow :| x.userId == t.userId && x.stationId == t.stationId && x.isActive == t.isActive
                      && x.role == t.role && x.shift == t.shift && (x in retired || FromSource(x, att, fails));
    if x in retired {
      var j :| 0 <= j < |retired| && retired[j] == x;
      assert team[j] == x && team[j] in team;
    } else {
      var k :| 0 <= k < |att| && !fails(k) && IsBackfilled(x, att[k]);
      assert att[k].userId == user && att[k].isActive && att[k].stationId == att[i].stationId;
      assert k == i by { assert k < i || i < k || k == i; }
      var own :| own in team && Serves(own, user, att[i].stationId);
      ShiftKept(own.shift, x.shift, att[i].shift);
    }
  }

  /** A shift filled in with its defaults is its own normal form. */
  lemma ShiftKept(s: TeamShift, copy: TeamShift, shift: Shift)
    requires shift == ShiftOf(s)
    requires copy == TeamShift(Some(shift.mode), Some(shift.start), Some(shift.end), Some(shift.timezone))
    ensures ShiftOf(copy) == shift
  {
  }
}
