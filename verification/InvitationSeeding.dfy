/** Inviting with initial station assignments, and materialising them when the invitation is activated. */
module InvitationSeeding {
  import opened Wrappers
  import opened Invitations
  import Sequences
  import Team = TeamAssignments

  // ---- The stored list ---------------------------------------------------------------

  /** A normalised assignment as it is stored, which is as a request would give it. */
  function Stored(a: Team.Assignment): Team.AssignmentDto {
    Team.AssignmentDto(a.stationId, Some(a.role), Some(a.isPrimary), Some(a.isActive), a.shift)
  }

  function StoredList(list: seq<Team.Assignment>): (r: seq<Team.AssignmentDto>)
    ensures |r| == |list|
  {
    seq(|list|, i requires 0 <= i < |list| => Stored(list[i]))
  }

  lemma DefaultedAgain(dto: Team.AssignmentDto, primary: bool)
    requires dto.role.Some?
    ensures var a := Team.Defaulted(dto).(isPrimary := primary);
            Team.Defaulted(Stored(a)) == a
  {
  }

  /** Normalising a stored list again accepts it and gives it back: the defaults and the primary are settled. */
  lemma NormalizedStays(dtos: seq<Team.AssignmentDto>, list: seq<Team.Assignment>, again: seq<Team.Assignment>)
    requires Team.NormalForm(dtos, list)
    ensures Team.Acceptable(StoredList(list))
    ensures Team.NormalForm(StoredList(list), again) <==> again == list
  {
    var stored := StoredList(list);
    Team.NormalStations(dtos, list);
    StoredAcceptable(dtos, list);
    forall i | 0 <= i < |list|
      ensures Team.Defaulted(stored[i]) == list[i]
      ensures Team.AskedPrimary(stored, i) == list[i].isPrimary && !Team.PromotedPrimary(stored, i)
    {
      DefaultedAgain(dtos[i], list[i].isPrimary);
      PrimarySettled(dtos, list, i);
    }
    hide Team.Acceptable, Team.AskedPrimary, Team.PromotedPrimary, Team.Defaulted, StoredList;
    if Team.NormalForm(stored, again) {
      assert forall i | 0 <= i < |list| :: again[i] == list[i];
    }
  }

  lemma StoredAcceptable(dtos: seq<Team.AssignmentDto>, list: seq<Team.Assignment>)
    requires Team.NormalForm(dtos, list)
    ensures Team.Acceptable(StoredList(list))
  {
    hide Team.IsBlank, Team.ShiftOf, Team.AskedPrimary, Team.PromotedPrimary;
    var stored := StoredList(list);
    assert forall i | 0 <= i < |dtos| :: stored[i].stationId == dtos[i].stationId && stored[i].role == dtos[i].role;
  }

  lemma PrimarySettled(dtos: seq<Team.AssignmentDto>, list: seq<Team.Assignment>, i: nat)
    requires Team.NormalForm(dtos, list) && i < |list|
    ensures Team.AskedPrimary(StoredList(list), i) == list[i].isPrimary && !Team.PromotedPrimary(StoredList(list), i)
  {
    Team.NormalFormHasPrimary(dtos, list);
    hide Team.NormalForm, Team.Defaulted;
    var stored := StoredList(list);
    assert forall j | 0 <= j < |list| ::
      stored[j].isPrimary == Some(list[j].isPrimary) && stored[j].isActive == Some(list[j].isActive);
    var p :| 0 <= p < |list| && list[p].isPrimary;
    assert stored[p].isPrimary == Some(true);
    if list[i].isActive {
      var q :| 0 <= q < |list| && list[q].isActive && list[q].isPrimary;
      assert Team.AsksActive(stored[q]) && Team.AskedPrimary(stored, q);
    }
  }

  // ---- What is stored stays usable ---------------------------------------------------

  /** What the service accepts as a list of assignments for an organisation. */
  ghost predicate Usable(dtos: seq<Team.AssignmentDto>, stationOrg: map<Team.StationId, OrgId>, org: OrgId) {
    && Team.Acceptable(dtos)
    && forall i | 0 <= i < |dtos| ::
         dtos[i].stationId in stationOrg && stationOrg[dtos[i].stationId] == org
  }

  lemma UsableAcceptable(dtos: seq<Team.AssignmentDto>, stationOrg: map<Team.StationId, OrgId>, org: OrgId)
    ensures Usable(dtos, stationOrg, org) ==> Team.Acceptable(dtos)
  {
  }

  lemma UsableInScope(teams: Team.TeamService, initial: seq<Team.AssignmentDto>, list: seq<Team.Assignment>, org: OrgId)
    requires Team.NormalForm(initial, list)
    ensures Usable(initial, teams.stationOrg, org) <==> teams.InScope(list, org)
  {
    Team.NormalStations(initial, list);
    assert Team.Acceptable(initial);
    hide Team.NormalForm, Team.Acceptable;
  }

  /** A stored list is the normal form of a usable one. */
  ghost predicate FromUsable(stored: seq<Team.AssignmentDto>, stationOrg: map<Team.StationId, OrgId>, org: OrgId) {
    exists initial, list ::
      Usable(initial, stationOrg, org) && Team.NormalForm(initial, list) && stored == StoredList(list)
  }

  /** Every list belongs to an invitation and was made from one that is usable for its organisation. */
  ghost predicate SeedsSound(seeds: map<nat, seq<Team.AssignmentDto>>, rows: seq<Invitation>,
                             stationOrg: map<Team.StationId, OrgId>)
  {
    forall i | i in seeds :: i < |rows| && FromUsable(seeds[i], stationOrg, rows[i].org)
  }

  lemma StoredUsable(stored: seq<Team.AssignmentDto>, stationOrg: map<Team.StationId, OrgId>, org: OrgId)
    requires FromUsable(stored, stationOrg, org)
    ensures Usable(stored, stationOrg, org)
  {
    hide Usable, Team.NormalForm, StoredList;
    var initial, list :| Usable(initial, stationOrg, org) && Team.NormalForm(initial, list)
      && stored == StoredList(list);
    NormalizedStays(initial, list, list);
    Team.NormalStations(initial, list);
    StoredStations(initial, list, stationOrg, org);
  }

  lemma StoredStations(initial: seq<Team.AssignmentDto>, list: seq<Team.Assignment>,
                       stationOrg: map<Team.StationId, OrgId>, org: OrgId)
    requires Usable(initial, stationOrg, org) && Team.Acceptable(StoredList(list))
    requires |list| == |initial| && forall i | 0 <= i < |list| :: list[i].stationId == initial[i].stationId
    ensures Usable(StoredList(list), stationOrg, org)
  {
    hide Team.Acceptable;
    assert forall i | 0 <= i < |list| :: StoredList(list)[i].stationId == initial[i].stationId;
  }

  /** No operation moves an invitation to another organisation or takes one away. */
  lemma OrganizationsKept(db: Tables, op: Op)
    ensures var after := Apply(db, op).db.invitations;
            |db.invitations| <= |after| && forall i | 0 <= i < |db.invitations| :: after[i].org == db.invitations[i].org
  {
    hide FindByToken, FindByEmail, FindUser, NormalizeEmail, SameIgnoringCase;
  }

  /** So the stored lists stay sound whatever is done to invitations, users and memberships. */
  lemma SeedsStaySound(seeds: map<nat, seq<Team.AssignmentDto>>, db: Tables, op: Op,
                       stationOrg: map<Team.StationId, OrgId>)
    requires SeedsSound(seeds, db.invitations, stationOrg)
    ensures SeedsSound(seeds, Apply(db, op).db.invitations, stationOrg)
  {
    OrganizationsKept(db, op);
    hide Apply, FromUsable;
  }

  lemma SeedsWithout(seeds: map<nat, seq<Team.AssignmentDto>>, rows: seq<Invitation>,
                     stationOrg: map<Team.StationId, OrgId>, i: nat)
    requires SeedsSound(seeds, rows, stationOrg)
    ensures SeedsSound(seeds - {i}, rows, stationOrg)
  {
    hide FromUsable;
  }

  lemma SeedsWith(seeds: map<nat, seq<Team.AssignmentDto>>, rows: seq<Invitation>,
                  stationOrg: map<Team.StationId, OrgId>, i: nat, stored: seq<Team.AssignmentDto>)
    requires SeedsSound(seeds, rows, stationOrg) && i < |rows| && FromUsable(stored, stationOrg, rows[i].org)
    ensures SeedsSound(seeds[i := stored], rows, stationOrg)
  {
    hide FromUsable;
  }

  // ---- Invitations and team assignments together -------------------------------------

  /** `seeds` holds the assignments stored with an invitation, if any. */
  class InvitationSeeds {
    const invitations: InvitationService
    const teams: Team.TeamService
    var seeds: map<nat, seq<Team.AssignmentDto>>

    constructor (invitations: InvitationService, teams: Team.TeamService)
      ensures this.invitations == invitations && this.teams == teams && seeds == map[] && Valid()
    {
      this.invitations, this.teams, seeds := invitations, teams, map[];
    }

    function SeedsOf(i: nat): seq<Team.AssignmentDto>
      reads this
    {
      if i in seeds then seeds[i] else []
    }

    ghost predicate Valid()
      reads this, invitations
    {
      SeedsSound(seeds, invitations.db.invitations, teams.stationOrg)
    }

    /** The list is checked before anything is written; what is stored with the invitation is its normal form. */
    method InviteUser(now: int, email: Email, admitted: Option<OrgId>, token: Token, newUser: UserId, committed: bool,
                      initial: seq<Team.AssignmentDto>) returns (r: Result<nat, Error>)
      modifies `seeds, invitations
      ensures old(Valid()) ==> Valid()
      ensures var refused := admitted.Some? && initial != [] && !Usable(initial, teams.stationOrg, admitted.value);
              if refused then r == Err(NotAdmitted) && invitations.db == old(invitations.db) && seeds == old(seeds)
              else
                Outcome(invitations.db, r)
                == Apply(old(invitations.db), Invite(now, email, admitted, token, newUser, committed))
      ensures r.Err? ==> seeds == old(seeds)
      ensures r.Ok? && initial == [] ==> seeds == old(seeds) - {r.value}
      ensures r.Ok? && initial != [] ==>
                && seeds.Keys == old(seeds).Keys + {r.value}
                && (forall i | i in old(seeds) && i != r.value :: seeds[i] == old(seeds)[i])
                && exists list :: Team.NormalForm(initial, list) && SeedsOf(r.value) == StoredList(list)
    {
      hide MadeOutTo, SameAddress;
      ghost var op := Invite(now, email, admitted, token, newUser, committed);
      ghost var before := invitations.db;
      if old(Valid()) {
        SeedsStaySound(seeds, before, op, teams.stationOrg);
      }
      if admitted.Some? {
        InvitedRow(before, now, email, admitted.value, token, newUser, committed);
      } else {
        assert Apply(before, op).result.Err?;
      }
      hide Team.NormalForm, Apply, FromUsable, SeedsSound, Usable, StoredList;
      if admitted.None? || |initial| == 0 {
        r := invitations.InviteUser(now, email, admitted, token, newUser, committed);
        if r.Ok? {
          if old(Valid()) {
            SeedsWithout(seeds, invitations.db.invitations, teams.stationOrg, r.value);
          }
          seeds := seeds - {r.value};
        }
        return;
      }
      var checked := CheckInitial(initial, admitted.value);
      if checked.None? {
        return Err(NotAdmitted);
      }
      var list := checked.value;
      r := invitations.InviteUser(now, email, admitted, token, newUser, committed);
      if r.Ok? {
        MadeFromUsable(initial, list, teams.stationOrg, admitted.value);
        if old(Valid()) {
          SeedsWith(seeds, invitations.db.invitations, teams.stationOrg, r.value, StoredList(list));
        }
        seeds := seeds[r.value := StoredList(list)];
      }
    }

    /** The list normalised, if it is one the organisation can use. */
    method CheckInitial(initial: seq<Team.AssignmentDto>, org: OrgId) returns (r: Option<seq<Team.Assignment>>)
      ensures r.Some? <==> Usable(initial, teams.stationOrg, org)
      ensures r.Some? ==> Team.NormalForm(initial, r.value)
    {
      UsableAcceptable(initial, teams.stationOrg, org);
      hide Usable, Team.NormalForm, Team.Acceptable;
      var normalized := Team.NormalizeTeamAssignments(initial);
      if normalized.Err? {
        return None;
      }
      var list := normalized.value;
      Team.ListedDistinct(initial, list);
      UsableInScope(teams, initial, list, org);
      var problem := teams.ValidateStations(list, org);
      return if problem.Some? then None else Some(list);
    }

    /** One transaction over both: the assignments are materialised, or nothing is written at all. */
    method ActivateInvitationOnLogin(now: int, userId: UserId, token: Token) returns (r: Result<nat, Error>)
      requires teams.Valid()
      modifies invitations, teams
      ensures teams.Valid() && (old(Valid()) ==> Valid())
      // What was stored at the invitation never stands in the way.
      ensures old(Valid()) ==> (r.Ok? <==> DoActivate(old(invitations.db), now, userId, token, true).result.Ok?)
      ensures r.Err? ==>
                && invitations.db == old(invitations.db)
                && teams.team == old(teams.team) && teams.attendants == old(teams.attendants)
                && teams.lastStationAssignment == old(teams.lastStationAssignment)
      ensures var o := DoActivate(old(invitations.db), now, userId, token, true);
              && (r.Ok? <==> o.result.Ok? && SeedsFit(old(invitations.db), o.result.value))
              && (r.Ok? ==> Outcome(invitations.db, r) == o)
              && (r.Ok? && SeedsOf(r.value) == [] ==>
                    teams.team == old(teams.team) && teams.attendants == old(teams.attendants)
                    && teams.lastStationAssignment == old(teams.lastStationAssignment))
              && (r.Ok? && SeedsOf(r.value) != [] ==>
                    && Team.Agrees(teams.team, teams.attendants, userId)
                    && SeededFrom(old(teams.team), teams.team, userId, SeedsOf(r.value)))
      ensures old(teams.AllAgree()) ==> teams.AllAgree()
    {
      if old(Valid()) {
        SeedsStaySound(seeds, invitations.db, Activate(now, userId, token, true), teams.stationOrg);
      }
      ApplyActivate(invitations.db, now, userId, token, true);
      ApplyActivate(invitations.db, now, userId, token, false);
      hide Team.Acceptable, Team.NormalForm, Team.Agrees, Team.EachOneServing, Apply, DoActivate, SeedsSound;
      var tx := invitations.db;
      var checked := DoActivate(tx, now, userId, token, true);
      if checked.result.Err? {
        r := invitations.ActivateInvitationOnLogin(now, userId, token, false);
        RefusedAnyway(tx, now, userId, token);
        return;
      }
      var i := checked.result.value;
      ActivatedIndex(tx, now, userId, token);
      if Valid() && i in seeds {
        SeedUsable(seeds, tx.invitations, teams.stationOrg, i);
      }
      var seeded := teams.SeedTeamAssignments(userId, SeedsOf(i), tx.invitations[i].org);
      r := invitations.ActivateInvitationOnLogin(now, userId, token, seeded.Ok?);
      if seeded.Err? {
        RefusedUnseeded(tx, now, userId, token);
      }
    }

    ghost predicate SeedsFit(db: Tables, i: nat)
      reads this
    {
      i < |db.invitations| && (SeedsOf(i) == [] || Usable(SeedsOf(i), teams.stationOrg, db.invitations[i].org))
    }
  }

  /** The team table with the listed stations retired and the normal form of the list in their place. */
  ghost predicate SeededFrom(was: seq<Team.TeamRow>, now: seq<Team.TeamRow>, user: UserId,
                             dtos: seq<Team.AssignmentDto>) {
    exists list :: Team.NormalForm(dtos, list) && now == Team.Replaced(was, user, Team.StationsListed(list), list)
  }

  /** Seeding what was stored at the invitation gives exactly the rows that were normalised then. */
  lemma SeededAsInvited(initial: seq<Team.AssignmentDto>, list: seq<Team.Assignment>, was: seq<Team.TeamRow>,
                        now: seq<Team.TeamRow>, user: UserId)
    requires Team.NormalForm(initial, list)
    ensures SeededFrom(was, now, user, StoredList(list))
            <==> now == Team.Replaced(was, user, Team.StationsListed(list), list)
  {
    hide Team.NormalForm, Team.Replaced, StoredList;
    NormalizedStays(initial, list, list);
    forall again | Team.NormalForm(StoredList(list), again) ensures again == list {
      NormalizedStays(initial, list, again);
    }
  }

  lemma MadeFromUsable(initial: seq<Team.AssignmentDto>, list: seq<Team.Assignment>,
                       stationOrg: map<Team.StationId, OrgId>, org: OrgId)
    requires Usable(initial, stationOrg, org) && Team.NormalForm(initial, list)
    ensures FromUsable(StoredList(list), stationOrg, org)
  {
  }

  lemma SeedUsable(seeds: map<nat, seq<Team.AssignmentDto>>, rows: seq<Invitation>,
                   stationOrg: map<Team.StationId, OrgId>, i: nat)
    requires SeedsSound(seeds, rows, stationOrg) && i in seeds
    ensures i < |rows| && Usable(seeds[i], stationOrg, rows[i].org)
  {
    StoredUsable(seeds[i], stationOrg, rows[i].org);
  }

  /** The invitation a successful invite adds is the last, for the organisation asked for. */
  lemma InvitedRow(db: Tables, now: int, email: Email, org: OrgId, token: Token, newUser: UserId, committed: bool)
    ensures var o := Apply(db, Invite(now, email, Some(org), token, newUser, committed));
            o.result.Ok? ==> o.result.value == |db.invitations| < |o.db.invitations|
                             && o.db.invitations[o.result.value].org == org
  {
    hide FindByToken, FindByEmail, FindUser, NormalizeEmail, RevokeOpen;
  }

  lemma ApplyActivate(db: Tables, now: int, user: UserId, token: Token, seeded: bool)
    ensures Apply(db, Activate(now, user, token, seeded)) == DoActivate(db, now, user, token, seeded)
  {
  }

  lemma ActivatedIndex(db: Tables, now: int, user: UserId, token: Token)
    requires DoActivate(db, now, user, token, true).result.Ok?
    ensures DoActivate(db, now, user, token, true).result.value < |db.invitations|
  {
  }

  lemma RefusedAnyway(db: Tables, now: int, user: UserId, token: Token)
    requires DoActivate(db, now, user, token, true).result.Err?
    ensures DoActivate(db, now, user, token, false).result.Err? && DoActivate(db, now, user, token, false).db == db
  {
  }

  lemma RefusedUnseeded(db: Tables, now: int, user: UserId, token: Token)
    ensures DoActivate(db, now, user, token, false).result.Err? && DoActivate(db, now, user, token, false).db == db
  {
  }
}
