/** The script that derives team assignments from attendant rows and repairs missing primaries. */
module TeamBackfill {
  import opened Wrappers
  import opened TeamAssignments

  datatype Counters = Counters(processed: int, created: int, skipped: int, failures: int)

  predicate Matches(t: TeamRow, source: AttendantRow) {
    t.userId == source.userId && t.stationId == source.stationId && t.role == ATTENDANT && t.isActive == source.isActive
  }

  predicate IsPrimaryOf(t: TeamRow, user: UserId) {
    t.userId == user && t.isPrimary && t.isActive
  }

  predicate HasMatch(team: seq<TeamRow>, source: AttendantRow) {
    exists i :: 0 <= i < |team| && Matches(team[i], source)
  }

  predicate HasPrimary(team: seq<TeamRow>, user: UserId) {
    exists i :: 0 <= i < |team| && IsPrimaryOf(team[i], user)
  }

  ghost predicate HasActive(team: seq<TeamRow>, user: UserId) {
    exists i :: 0 <= i < |team| && IsActiveOf(team[i], user)
  }

  predicate IsActiveOf(t: TeamRow, user: UserId) {
    t.userId == user && t.isActive
  }

  function BackfilledRow(source: AttendantRow, primary: bool): TeamRow {
    TeamRow(source.userId, source.stationId, ATTENDANT, primary, source.isActive,
            TeamShift(Some(source.shift.mode), Some(source.shift.start), Some(source.shift.end),
                      Some(source.shift.timezone)))
  }

  /** The team table after the first loop; `fails(k)` says whether the k-th source's insert would be refused. */
  ghost function Filled(team: seq<TeamRow>, sources: seq<AttendantRow>, fails: nat -> bool): seq<TeamRow> {
    if sources == [] then team
    else
      var k := |sources| - 1;
      var before, source := Filled(team, sources[..k], fails), sources[k];
      if HasMatch(before, source) || fails(k) then before
      else before + [BackfilledRow(source, !HasPrimary(before, source.userId) && source.isActive)]
  }

  ghost predicate IsFirstActive(team: seq<TeamRow>, i: int)
    requires 0 <= i < |team|
  {
    team[i].isActive && forall j | 0 <= j < i :: !(team[j].isActive && team[j].userId == team[i].userId)
  }

  /** The team table after the repair loop: a user's first active row becomes primary if none of the active ones is. */
  ghost function Repaired(team: seq<TeamRow>): (r: seq<TeamRow>)
    ensures |r| == |team|
  {
    seq(|team|, i requires 0 <= i < |team| =>
      if IsFirstActive(team, i) && !HasPrimary(team, team[i].userId) then team[i].(isPrimary := true) else team[i])
  }

  ghost function Backfilled(team: seq<TeamRow>, sources: seq<AttendantRow>, fails: nat -> bool): seq<TeamRow> {
    Repaired(Filled(team, sources, fails))
  }

  // ---- The script --------------------------------------------------------------------

  /** Users with an active row, each once. */
  method ActiveUsers(team: seq<TeamRow>) returns (users: seq<UserId>)
    ensures forall u :: u in users <==> HasActive(team, u)
    ensures forall i, j | 0 <= i < j < |users| :: users[i] != users[j]
  {
    users := [];
    for i := 0 to |team|
      invariant forall u :: u in users <==> HasActive(team[..i], u)
      invariant forall k, j | 0 <= k < j < |users| :: users[k] != users[j]
    {
      if team[i].isActive && team[i].userId !in users {
        users := users + [team[i].userId];
      }
      ActiveOneMore(team, i);
    }
    assert team[..|team|] == team;
  }

  lemma ActiveOneMore(team: seq<TeamRow>, i: nat)
    requires i < |team|
    ensures forall u :: HasActive(team[..i + 1], u) <==> HasActive(team[..i], u) || IsActiveOf(team[i], u)
  {
    forall u ensures HasActive(team[..i + 1], u) <==> HasActive(team[..i], u) || IsActiveOf(team[i], u) {
      if HasActive(team[..i], u) {
        var k :| 0 <= k < i && IsActiveOf(team[..i][k], u);
        assert IsActiveOf(team[..i + 1][k], u);
      }
      if HasActive(team[..i + 1], u) {
        var k :| 0 <= k < i + 1 && IsActiveOf(team[..i + 1][k], u);
        assert k < i ==> IsActiveOf(team[..i][k], u);
      }
      if IsActiveOf(team[i], u) { assert IsActiveOf(team[..i + 1][i], u); }
    }
  }

  method FindFirstActive(team: seq<TeamRow>, user: UserId) returns (i: nat)
    requires HasActive(team, user)
    ensures i < |team| && team[i].userId == user && IsFirstActive(team, i)
  {
    i := 0;
    assert exists k :: 0 <= k < |team| && IsActiveOf(team[k], user);
    while !(team[i].isActive && team[i].userId == user)
      invariant 0 <= i < |team|
      invariant forall j | 0 <= j < i :: !(team[j].isActive && team[j].userId == user)
      invariant exists k :: i <= k < |team| && IsActiveOf(team[k], user)
      decreases |team| - i
    {
      i := i + 1;
    }
  }

  /** The rows repaired so far: those of the users in `done`. */
  ghost predicate RepairedFor(rows: seq<TeamRow>, team: seq<TeamRow>, done: seq<UserId>) {
    && |rows| == |team|
    && forall i | 0 <= i < |team| :: rows[i] == if team[i].userId in done then Repaired(team)[i] else team[i]
  }

  lemma RepairStep(rows: seq<TeamRow>, team: seq<TeamRow>, done: seq<UserId>, user: UserId, after: seq<TeamRow>)
    requires RepairedFor(rows, team, done) && user !in done
    requires if HasPrimary(rows, user) then after == rows
             else exists i :: 0 <= i < |rows| && rows[i].userId == user && IsFirstActive(rows, i)
                              && after == rows[i := rows[i].(isPrimary := true)]
    ensures RepairedFor(after, team, done + [user])
  {
    SameForUser(team, rows, user);
    if !HasPrimary(rows, user) {
      var first :| 0 <= first < |rows| && rows[first].userId == user && IsFirstActive(rows, first)
                   && after == rows[first := rows[first].(isPrimary := true)];
      assert forall i | 0 <= i < |team| && team[i].userId == user && IsFirstActive(team, i) :: i == first;
    }
  }

  lemma StillActive(rows: seq<TeamRow>, team: seq<TeamRow>, done: seq<UserId>, user: UserId)
    requires RepairedFor(rows, team, done) && user !in done && HasActive(team, user)
    ensures HasActive(rows, user)
  {
    SameForUser(team, rows, user);
  }

  method RepairPrimaries(team: seq<TeamRow>) returns (rows: seq<TeamRow>)
    ensures rows == Repaired(team)
  {
    hide Repaired, HasPrimary, HasActive, IsFirstActive;
    rows := team;
    var users := ActiveUsers(team);
    var n := 0;
    while n < |users|
      invariant 0 <= n <= |users| && RepairedFor(rows, team, users[..n])
    {
      var user := users[n];
      assert user !in users[..n];
      assert user in users;
      StillActive(rows, team, users[..n], user);
      ghost var before := rows;
      var hasPrimary := HasPrimary(rows, user);
      if !hasPrimary {
        var first := FindFirstActive(rows, user);
        rows := rows[first := rows[first].(isPrimary := true)];
      }
      RepairStep(before, team, users[..n], user, rows);
      assert users[..n + 1] == users[..n] + [user];
      n := n + 1;
    }
    assert users[..n] == users;
    AllRepaired(rows, team, users);
  }

  lemma AllRepaired(rows: seq<TeamRow>, team: seq<TeamRow>, users: seq<UserId>)
    requires RepairedFor(rows, team, users) && forall u :: u in users <==> HasActive(team, u)
    ensures rows == Repaired(team)
  {
    forall i | 0 <= i < |team| ensures rows[i] == Repaired(team)[i] {
      if team[i].userId !in users { assert !IsActiveOf(team[i], team[i].userId); }
    }
  }

  /** What is asked about one user depends only on that user's rows. */
  lemma SameForUser(team: seq<TeamRow>, rows: seq<TeamRow>, user: UserId)
    requires |rows| == |team| && forall i | 0 <= i < |team| :: rows[i].userId == team[i].userId
    requires forall i | 0 <= i < |team| && team[i].userId == user :: rows[i] == team[i]
    ensures HasPrimary(rows, user) <==> HasPrimary(team, user)
    ensures forall i | 0 <= i < |team| && team[i].userId == user :: IsFirstActive(rows, i) <==> IsFirstActive(team, i)
    ensures HasActive(rows, user) <==> HasActive(team, user)
  {
    if HasPrimary(rows, user) {
      var i :| 0 <= i < |rows| && IsPrimaryOf(rows[i], user);
      assert IsPrimaryOf(team[i], user);
    }
    if HasPrimary(team, user) {
      var i :| 0 <= i < |team| && IsPrimaryOf(team[i], user);
      assert IsPrimaryOf(rows[i], user);
    }
    forall i | 0 <= i < |team| && team[i].userId == user ensures IsFirstActive(rows, i) <==> IsFirstActive(team, i) {
      assert forall j | 0 <= j < i ::
          (rows[j].isActive && rows[j].userId == user) <==> (team[j].isActive && team[j].userId == user);
    }
    if HasActive(rows, user) {
      var k :| 0 <= k < |rows| && IsActiveOf(rows[k], user);
      assert IsActiveOf(team[k], user);
    }
    if HasActive(team, user) {
      var k :| 0 <= k < |team| && IsActiveOf(team[k], user);
      assert IsActiveOf(rows[k], user);
    }
  }

  method Backfill(sources: seq<AttendantRow>, team: seq<TeamRow>, dryRun: bool, fails: nat -> bool)
      returns (rows: seq<TeamRow>, result: Counters)
    ensures rows == if dryRun then team else Backfilled(team, sources, fails)
    ensures result.processed == |sources| == result.created + result.skipped + result.failures
    ensures !dryRun ==> result.created == |rows| - |team|
    ensures dryRun ==> result.failures == 0
  {
    rows := team;
    var processed, created, skipped, failures := 0, 0, 0, 0;
    var k := 0;
    while k < |sources|
      invariant 0 <= k <= |sources| && processed == k == created + skipped + failures
      invariant rows == if dryRun then team else Filled(team, sources[..k], fails)
      invariant !dryRun ==> created == |rows| - |team|
      invariant dryRun ==> failures == 0
    {
      var source := sources[k];
      assert sources[..k + 1][..k] == sources[..k];
      processed := processed + 1;
      var exists' := HasMatch(rows, source);
      if exists' {
        skipped := skipped + 1;
      } else {
        var hasPrimary := HasPrimary(rows, source.userId);
        if !dryRun {
          if fails(k) {
            failures := failures + 1;
          } else {
            rows := rows + [BackfilledRow(source, !hasPrimary && source.isActive)];
            created := created + 1;
          }
        } else {
          created := created + 1;
        }
      }
      k := k + 1;
    }
    assert sources[..k] == sources;
    if !dryRun {
      rows := RepairPrimaries(rows);
    }
    result := Counters(processed, created, skipped, failures);
  }

  // ---- Exactly one primary -----------------------------------------------------------

  ghost predicate AtMostOnePrimary(team: seq<TeamRow>) {
    forall i, j | 0 <= i < j < |team| && team[i].userId == team[j].userId ::
      !(IsPrimaryOf(team[i], team[i].userId) && IsPrimaryOf(team[j], team[j].userId))
  }

  /** Every user with an active row has an active primary, and nobody has two. */
  ghost predicate ExactlyOnePrimary(team: seq<TeamRow>) {
    AtMostOnePrimary(team) && forall i | 0 <= i < |team| && team[i].isActive :: HasPrimary(team, team[i].userId)
  }

  lemma {:induction false} FilledExtends(team: seq<TeamRow>, sources: seq<AttendantRow>, fails: nat -> bool)
    ensures |Filled(team, sources, fails)| >= |team| && Filled(team, sources, fails)[..|team|] == team
    ensures AtMostOnePrimary(team) ==> AtMostOnePrimary(Filled(team, sources, fails))
  {
    if sources != [] {
      FilledExtends(team, sources[..|sources| - 1], fails);
    }
  }

  lemma RepairCompletes(team: seq<TeamRow>)
    ensures AtMostOnePrimary(team) ==> ExactlyOnePrimary(Repaired(team))
    ensures forall i | 0 <= i < |team| ::
            Repaired(team)[i] == team[i] || Repaired(team)[i] == team[i].(isPrimary := true)
  {
    var rows := Repaired(team);
    forall i | 0 <= i < |rows| && rows[i].isActive ensures HasPrimary(rows, rows[i].userId) {
      var user := rows[i].userId;
      if HasPrimary(team, user) {
        var k :| 0 <= k < |team| && IsPrimaryOf(team[k], user);
        assert IsPrimaryOf(rows[k], user);
      } else {
        var first := FirstActiveUpTo(team, i);
        assert IsPrimaryOf(rows[first], user);
      }
    }
    forall i, j | AtMostOnePrimary(team) && 0 <= i < j < |rows| && rows[i].userId == rows[j].userId
      ensures !(IsPrimaryOf(rows[i], rows[i].userId) && IsPrimaryOf(rows[j], rows[j].userId))
    {
      var user := team[i].userId;
      if IsPrimaryOf(team[i], user) || IsPrimaryOf(team[j], user) {
        assert HasPrimary(team, user);
      } else {
        assert IsFirstActive(team, j) ==> !team[i].isActive;
      }
    }
  }

  lemma FirstActiveUpTo(team: seq<TeamRow>, i: nat) returns (first: nat)
    requires i < |team| && team[i].isActive
    ensures first <= i && team[first].userId == team[i].userId && IsFirstActive(team, first)
    decreases i
  {
    if j :| 0 <= j < i && team[j].isActive && team[j].userId == team[i].userId {
      first := FirstActiveUpTo(team, j);
    } else {
      first := i;
    }
  }

  /** A real run ends with exactly one primary per active user if and only if nobody had two to begin with. */
  lemma BackfillPrimariesIff(team: seq<TeamRow>, sources: seq<AttendantRow>, fails: nat -> bool)
    ensures ExactlyOnePrimary(Backfilled(team, sources, fails)) <==> AtMostOnePrimary(team)
  {
    var filled, rows := Filled(team, sources, fails), Backfilled(team, sources, fails);
    FilledExtends(team, sources, fails);
    RepairCompletes(filled);
    if !AtMostOnePrimary(team) {
      var i, j :| 0 <= i < j < |team| && team[i].userId == team[j].userId
                  && IsPrimaryOf(team[i], team[i].userId) && IsPrimaryOf(team[j], team[j].userId);
      assert filled[..|team|][i] == filled[i] && filled[..|team|][j] == filled[j];
      assert IsPrimaryOf(rows[i], rows[i].userId) && IsPrimaryOf(rows[j], rows[j].userId);
    }
  }

  // ---- Re-running --------------------------------------------------------------------

  lemma {:induction false} FilledMatches(team: seq<TeamRow>, sources: seq<AttendantRow>, fails: nat -> bool)
    requires forall k :: !fails(k)
    ensures forall a | a in sources :: HasMatch(Filled(team, sources, fails), a)
  {
    if sources != [] {
      var k := |sources| - 1;
      FilledMatches(team, sources[..k], fails);
      var before, after := Filled(team, sources[..k], fails), Filled(team, sources, fails);
      forall a | a in sources ensures HasMatch(after, a) {
        if HasMatch(before, a) {
          var i :| 0 <= i < |before| && Matches(before[i], a);
          assert Matches(after[i], a);
        } else {
          assert a in sources[..k] || a == sources[k];
          assert Matches(after[|before|], a);
        }
      }
    }
  }

  lemma {:induction false} NothingToFill(team: seq<TeamRow>, sources: seq<AttendantRow>, fails: nat -> bool)
    requires forall a | a in sources :: HasMatch(team, a)
    ensures Filled(team, sources, fails) == team
  {
    if sources != [] {
      assert forall a | a in sources[..|sources| - 1] :: a in sources;
      NothingToFill(team, sources[..|sources| - 1], fails);
      assert sources[|sources| - 1] in sources;
    }
  }

  /** After a run without failed inserts another run creates nothing and changes no row. */
  lemma SecondRunChangesNothing(team: seq<TeamRow>, sources: seq<AttendantRow>, fails: nat -> bool, later: nat -> bool)
    requires forall k :: !fails(k)
    ensures var once := Backfilled(team, sources, fails);
            Filled(once, sources, later) == once && Backfilled(once, sources, later) == once
  {
    var filled, once := Filled(team, sources, fails), Backfilled(team, sources, fails);
    FilledMatches(team, sources, fails);
    RepairCompletes(filled);
    forall a | a in sources ensures HasMatch(once, a) {
      var i :| 0 <= i < |filled| && Matches(filled[i], a);
      assert Matches(once[i], a);
    }
    NothingToFill(once, sources, later);
    forall i | 0 <= i < |once| && once[i].isActive ensures HasPrimary(once, once[i].userId) {
      RepairGivesPrimary(filled, i);
    }
    assert Repaired(once) == once;
  }

  lemma RepairGivesPrimary(team: seq<TeamRow>, i: nat)
    requires i < |team| && team[i].isActive
    ensures HasPrimary(Repaired(team), team[i].userId)
  {
    var user := team[i].userId;
    var first := FirstActiveUpTo(team, i);
    if HasPrimary(team, user) {
      var k :| 0 <= k < |team| && IsPrimaryOf(team[k], user);
      assert IsPrimaryOf(Repaired(team)[k], user);
    } else {
      assert IsPrimaryOf(Repaired(team)[first], user);
    }
  }
}
