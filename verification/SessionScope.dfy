/** What a session is scoped to: its organisation, role and station, derived afresh at issue and at every refresh. */
module SessionScope {
  import opened Wrappers

  const REFRESH_TTL_MS: int := 7 * 24 * 60 * 60 * 1000

  datatype UserId = UserId(value: nat)
  datatype OrgId = OrgId(value: nat)
  datatype AssignmentId = AssignmentId(value: nat)
  datatype Role = Role(value: nat)
  datatype CanonicalRole = CanonicalRole(value: nat)
  datatype Name = Name(value: nat)
  datatype Scope = Tenant | Platform

  const SITE_HOST := CanonicalRole(0)

  datatype UserRow = UserRow(role: Role, organizationId: Option<OrgId>, lastStationAssignmentId: Option<AssignmentId>)

  datatype Membership = Membership(user: UserId, org: OrgId, active: bool, role: Role,
                                   canonicalRole: Option<CanonicalRole>,
                                   customRole: Option<nat>, orgName: Option<Name>)

  datatype Assignment = Assignment(id: AssignmentId, user: UserId, active: bool, primary: bool, role: Role,
                                   stationOrg: Option<OrgId>)

  /** What the derivation reads and never writes; the tables are in creation order. */
  datatype Directory = Directory(memberships: seq<Membership>, assignments: seq<Assignment>,
                                 platformRole: UserId -> Option<CanonicalRole>,
                                 customBase: (OrgId, nat) -> Option<CanonicalRole>,
                                 keyOf: Role -> Option<CanonicalRole>,
                                 platformScope: CanonicalRole -> bool)

  datatype SessionOptions = SessionOptions(preferredOrganizationId: Option<OrgId>, scope: Option<Scope>,
                                           acting: Option<bool>,
                                           selectedTenantId: Option<OrgId>, selectedTenantName: Option<Name>)

  datatype Session = Session(org: Option<OrgId>, orgName: Option<Name>, role: Role,
                             canonicalRole: Option<CanonicalRole>,
                             customBase: Option<CanonicalRole>, scope: Scope, acting: bool,
                             selectedTenantId: Option<OrgId>,
                             selectedTenantName: Option<Name>, memberships: seq<Membership>, stations: seq<Assignment>,
                             station: Option<Assignment>)

  datatype AccessClaims = AccessClaims(sub: UserId, role: Role, canonicalRole: CanonicalRole, tenantId: Option<OrgId>,
                                       activeTenantId: Option<OrgId>, organizationId: Option<OrgId>,
                                       activeOrganizationId: Option<OrgId>, scope: Scope, acting: bool,
                                       selectedTenantId: Option<OrgId>, selectedTenantName: Option<Name>)

  datatype RefreshClaims = RefreshClaims(sub: UserId, jti: nat, scope: Scope, acting: bool,
                                         selectedTenantId: Option<OrgId>, selectedTenantName: Option<Name>)

  function Or<T>(a: Option<T>, b: Option<T>): Option<T> { if a.Some? then a else b }

  // ---- Organisation ------------------------------------------------------------------

  function ActiveMemberships(rows: seq<Membership>, user: UserId): seq<Membership> {
    if rows == [] then []
    else
      var rest := ActiveMemberships(rows[1..], user);
      if rows[0].user == user && rows[0].active then [rows[0]] + rest else rest
  }

  function MembershipIn(ms: seq<Membership>, org: OrgId): Option<Membership> {
    if ms == [] then None else if ms[0].org == org then Some(ms[0]) else MembershipIn(ms[1..], org)
  }

  function ResolveActiveOrganizationId(ms: seq<Membership>, fallback: Option<OrgId>,
                                       preferred: Option<OrgId>): Option<OrgId> {
    if preferred.Some? && MembershipIn(ms, preferred.value).Some? then preferred
    else if fallback.Some? && MembershipIn(ms, fallback.value).Some? then fallback
    else if |ms| > 0 then Some(ms[0].org)
    else fallback
  }

  /** The user belongs to the organisation. */
  ghost predicate ActiveMember(rows: seq<Membership>, user: UserId, org: OrgId) {
    exists m :: m in rows && m.user == user && m.active && m.org == org
  }

  lemma {:induction false} ActiveMembershipsAre(rows: seq<Membership>, user: UserId)
    ensures forall m :: m in ActiveMemberships(rows, user) <==> m in rows && m.user == user && m.active
  {
    if rows != [] {
      ActiveMembershipsAre(rows[1..], user);
      assert rows == [rows[0]] + rows[1..];
    }
  }

  lemma {:induction false} MembershipInIff(ms: seq<Membership>, org: OrgId)
    ensures MembershipIn(ms, org).Some? <==> exists m :: m in ms && m.org == org
    ensures MembershipIn(ms, org).Some? ==> MembershipIn(ms, org).value in ms && MembershipIn(ms, org).value.org == org
  {
    if ms != [] {
      MembershipInIff(ms[1..], org);
      assert ms == [ms[0]] + ms[1..];
    }
  }

  /** The earliest active membership of the user in the organisation. */
  ghost predicate FirstMembership(rows: seq<Membership>, user: UserId, org: OrgId, m: Membership) {
    exists i :: 0 <= i < |rows| && rows[i] == m && m.user == user && m.active && m.org == org
                && NoMembershipBefore(rows, i, user, org)
  }

  ghost predicate NoMembershipBefore(rows: seq<Membership>, i: nat, user: UserId, org: OrgId)
    requires i <= |rows|
  {
    forall j | 0 <= j < i :: !(rows[j].user == user && rows[j].active && rows[j].org == org)
  }

  lemma {:induction false} MembershipInIsFirst(rows: seq<Membership>, user: UserId, org: OrgId)
    ensures forall m :: MembershipIn(ActiveMemberships(rows, user), org) == Some(m)
                        <==> FirstMembership(rows, user, org, m)
  {
    var found := MembershipIn(ActiveMemberships(rows, user), org);
    if rows != [] {
      var rest := rows[1..];
      MembershipInIsFirst(rest, user, org);
      if rows[0].user == user && rows[0].active && rows[0].org == org {
        assert NoMembershipBefore(rows, 0, user, org) && FirstMembership(rows, user, org, rows[0]);
      } else {
        forall m ensures FirstMembership(rows, user, org, m) <==> FirstMembership(rest, user, org, m) {
          if i :| 0 <= i < |rows| && rows[i] == m && m.user == user && m.active && m.org == org
                  && NoMembershipBefore(rows, i, user, org) {
            assert rest[i - 1] == m && NoMembershipBefore(rest, i - 1, user, org);
          }
          if i :| 0 <= i < |rest| && rest[i] == m && m.user == user && m.active && m.org == org
                  && NoMembershipBefore(rest, i, user, org) {
            assert rows[i + 1] == m;
            assert forall j | 0 < j < i + 1 :: rows[j] == rest[j - 1];
            assert NoMembershipBefore(rows, i + 1, user, org);
          }
        }
      }
    }
  }

  lemma MembershipInIsActiveMember(rows: seq<Membership>, user: UserId, org: OrgId)
    ensures MembershipIn(ActiveMemberships(rows, user), org).Some? <==> ActiveMember(rows, user, org)
  {
    ActiveMembershipsAre(rows, user);
    MembershipInIff(ActiveMemberships(rows, user), org);
  }

  /** Without a fallback the choice is always an active membership, the preferred one if it is one. */
  lemma ResolvedIsMember(rows: seq<Membership>, user: UserId, preferred: Option<OrgId>)
    ensures var org := ResolveActiveOrganizationId(ActiveMemberships(rows, user), None, preferred);
            && (org.Some? ==> ActiveMember(rows, user, org.value))
            && (org.None? <==> forall o :: !ActiveMember(rows, user, o))
            && (preferred.Some? && ActiveMember(rows, user, preferred.value) ==> org == preferred)
  {
    var ms := ActiveMemberships(rows, user);
    ActiveMembershipsAre(rows, user);
    if preferred.Some? {
      MembershipInIsActiveMember(rows, user, preferred.value);
    }
    if ms != [] {
      assert ms[0] in ms;
      assert ActiveMember(rows, user, ms[0].org);
    }
  }

  /** Nobody's active membership of this user stands before the i-th row. */
  ghost predicate NoneActiveBefore(rows: seq<Membership>, i: nat, user: UserId)
    requires i <= |rows|
  {
    forall j | 0 <= j < i :: !(rows[j].user == user && rows[j].active)
  }

  lemma {:induction false} FirstActiveIs(rows: seq<Membership>, user: UserId)
    ensures var ms := ActiveMemberships(rows, user);
            ms != [] ==> exists i :: 0 <= i < |rows| && rows[i] == ms[0] && ms[0].user == user && ms[0].active
                                     && NoneActiveBefore(rows, i, user)
  {
    if rows != [] {
      var rest := rows[1..];
      FirstActiveIs(rest, user);
      if rows[0].user == user && rows[0].active {
        assert NoneActiveBefore(rows, 0, user);
      } else if ActiveMemberships(rest, user) != [] {
        var first := ActiveMemberships(rest, user)[0];
        var i :| 0 <= i < |rest| && rest[i] == first && first.user == user && first.active
                 && NoneActiveBefore(rest, i, user);
        assert rows[i + 1] == first;
        assert forall j | 0 < j < i + 1 :: rows[j] == rest[j - 1];
        assert NoneActiveBefore(rows, i + 1, user);
      }
    }
  }

  /**
   * The organisation chosen: the preferred one if the user is an active member, else the fallback if so, else that of
   * the earliest active membership, and the fallback whatever it is for a user without any.
   */
  lemma ResolvedIs(rows: seq<Membership>, user: UserId, fallback: Option<OrgId>, preferred: Option<OrgId>)
    ensures var org := ResolveActiveOrganizationId(ActiveMemberships(rows, user), fallback, preferred);
            if preferred.Some? && ActiveMember(rows, user, preferred.value) then org == preferred
            else if fallback.Some? && ActiveMember(rows, user, fallback.value) then org == fallback
            else if forall o :: !ActiveMember(rows, user, o) then org == fallback
            else exists i :: 0 <= i < |rows| && org == Some(rows[i].org) && rows[i].user == user && rows[i].active
                             && NoneActiveBefore(rows, i, user)
  {
    var ms := ActiveMemberships(rows, user);
    if preferred.Some? {
      MembershipInIsActiveMember(rows, user, preferred.value);
    }
    if fallback.Some? {
      MembershipInIsActiveMember(rows, user, fallback.value);
    }
    ActiveMembershipsAre(rows, user);
    FirstActiveIs(rows, user);
    if ms != [] {
      assert ms[0] in ms && ActiveMember(rows, user, ms[0].org);
    }
  }

  // ---- Station -----------------------------------------------------------------------

  predicate Eligible(a: Assignment, user: UserId, org: Option<OrgId>) {
    a.user == user && a.active && (org.Some? ==> a.stationOrg == org)
  }

  function StationRows(rows: seq<Assignment>, user: UserId, org: Option<OrgId>, primary: bool): seq<Assignment> {
    if rows == [] then []
    else
      var rest := StationRows(rows[1..], user, org, primary);
      if Eligible(rows[0], user, org) && rows[0].primary == primary then [rows[0]] + rest else rest
  }

  /** Primary assignments first, each group in creation order. */
  function StationContexts(rows: seq<Assignment>, user: UserId, org: Option<OrgId>): seq<Assignment> {
    StationRows(rows, user, org, true) + StationRows(rows, user, org, false)
  }

  function FindContext(contexts: seq<Assignment>, id: Option<AssignmentId>): Option<Assignment> {
    if contexts == [] then None
    else if Some(contexts[0].id) == id then Some(contexts[0])
    else FindContext(contexts[1..], id)
  }

  function FindPrimary(contexts: seq<Assignment>): Option<Assignment> {
    if contexts == [] then None else if contexts[0].primary then Some(contexts[0]) else FindPrimary(contexts[1..])
  }

  function ActiveStation(contexts: seq<Assignment>, last: Option<AssignmentId>): Option<Assignment> {
    Or(FindContext(contexts, last), Or(FindPrimary(contexts), if contexts != [] then Some(contexts[0]) else None))
  }

  ghost predicate IdsDistinct(rows: seq<Assignment>) {
    forall a, b | a in rows && b in rows && a.id == b.id :: a == b
  }

  /** No eligible row, or none with the given primary flag, stands before x. */
  ghost predicate Earliest(rows: seq<Assignment>, x: Assignment, user: UserId, org: Option<OrgId>, primary: bool) {
    exists i :: 0 <= i < |rows| && rows[i] == x && NoneBefore(rows, i, user, org, primary)
  }

  ghost predicate NoneBefore(rows: seq<Assignment>, i: nat, user: UserId, org: Option<OrgId>, primary: bool)
    requires i <= |rows|
  {
    forall j | 0 <= j < i :: !(Eligible(rows[j], user, org) && rows[j].primary == primary)
  }

  lemma {:induction false} StationRowsAre(rows: seq<Assignment>, user: UserId, org: Option<OrgId>, primary: bool)
    ensures forall a ::
              a in StationRows(rows, user, org, primary)
              <==> a in rows && Eligible(a, user, org) && a.primary == primary
    ensures var found := StationRows(rows, user, org, primary);
            found != [] ==> Earliest(rows, found[0], user, org, primary)
  {
    if rows != [] {
      StationRowsAre(rows[1..], user, org, primary);
      assert rows == [rows[0]] + rows[1..];
      if Eligible(rows[0], user, org) && rows[0].primary == primary {
        assert NoneBefore(rows, 0, user, org, primary);
      } else {
        var found := StationRows(rows[1..], user, org, primary);
        if found != [] {
          var i :| 0 <= i < |rows[1..]| && rows[1..][i] == found[0] && NoneBefore(rows[1..], i, user, org, primary);
          assert forall j | 0 < j < i + 1 :: rows[j] == rows[1..][j - 1];
          assert rows[i + 1] == found[0] && NoneBefore(rows, i + 1, user, org, primary);
        }
      }
    }
  }

  lemma {:induction false} FindContextIff(contexts: seq<Assignment>, id: Option<AssignmentId>)
    ensures FindContext(contexts, id).Some? <==> exists a :: a in contexts && Some(a.id) == id
    ensures FindContext(contexts, id).Some? ==>
            FindContext(contexts, id).value in contexts && Some(FindContext(contexts, id).value.id) == id
  {
    if contexts != [] {
      FindContextIff(contexts[1..], id);
      assert contexts == [contexts[0]] + contexts[1..];
    }
  }

  lemma {:induction false} FindPrimaryInRest(front: seq<Assignment>, rest: seq<Assignment>)
    requires forall a | a in front :: a.primary
    requires forall a | a in rest :: !a.primary
    ensures FindPrimary(front + rest) == if front != [] then Some(front[0]) else None
  {
    if front != [] {
      assert (front + rest)[0] == front[0] && front[0] in front;
    } else if rest != [] {
      assert front + rest == rest && rest[0] in rest;
      assert [] + rest[1..] == rest[1..];
      FindPrimaryInRest([], rest[1..]);
    }
  }

  ghost predicate Remembered(rows: seq<Assignment>, user: UserId, org: Option<OrgId>, last: Option<AssignmentId>) {
    exists a :: a in rows && Eligible(a, user, org) && Some(a.id) == last
  }

  ghost predicate HasStation(rows: seq<Assignment>, user: UserId, org: Option<OrgId>, primary: bool) {
    exists a :: a in rows && Eligible(a, user, org) && a.primary == primary
  }

  /**
   * The station a session starts at: the one last used if it is still active there, otherwise the earliest primary
   * assignment, otherwise the earliest assignment, and none only when there is none.
   */
  lemma StationChosen(rows: seq<Assignment>, user: UserId, org: Option<OrgId>, last: Option<AssignmentId>)
    ensures var s := ActiveStation(StationContexts(rows, user, org), last);
            && (s.None? <==> !HasStation(rows, user, org, true) && !HasStation(rows, user, org, false))
            && (s.Some? ==>
                  && s.value in rows && Eligible(s.value, user, org)
                  && (Remembered(rows, user, org, last) <==> Some(s.value.id) == last)
                  && (!Remembered(rows, user, org, last) ==>
                        && s.value.primary == HasStation(rows, user, org, true)
                        && Earliest(rows, s.value, user, org, s.value.primary)))
  {
    var front, rest := StationRows(rows, user, org, true), StationRows(rows, user, org, false);
    var contexts := StationContexts(rows, user, org);
    StationRowsAre(rows, user, org, true);
    StationRowsAre(rows, user, org, false);
    FindContextIff(contexts, last);
    FindPrimaryInRest(front, rest);
    hide StationRows, FindContext, FindPrimary, Earliest, Eligible;
    assert forall a :: a in contexts <==> a in front || a in rest;
    if front != [] { assert front[0] in front; }
    if rest != [] { assert rest[0] in rest; }
  }

  // ---- The derivation ----------------------------------------------------------------

  predicate PlatformPrincipal(d: Directory, id: UserId, role: Role) {
    var key := Or(d.platformRole(id), d.keyOf(role));
    key.Some? && d.platformScope(key.value)
  }

  /** A platform role decides, whatever the user's own role; only without one does the key of that role. */
  lemma PrincipalIs(d: Directory, id: UserId, role: Role)
    ensures d.platformRole(id).Some? ==>
              (PlatformPrincipal(d, id, role) <==> d.platformScope(d.platformRole(id).value))
    ensures d.platformRole(id).None? ==>
              (PlatformPrincipal(d, id, role) <==> d.keyOf(role).Some? && d.platformScope(d.keyOf(role).value))
  {
  }

  function DeriveOrg(d: Directory, id: UserId, role: Role, o: SessionOptions): Option<OrgId> {
    var input := Or(o.selectedTenantId, o.preferredOrganizationId);
    var requested := o.scope == Some(Tenant) || o.acting == Some(true) || input.Some?;
    if PlatformPrincipal(d, id, role) then (if requested && input.Some? then input else None)
    else ResolveActiveOrganizationId(ActiveMemberships(d.memberships, id), None, input)
  }

  function CustomBase(d: Directory, org: Option<OrgId>, membership: Option<Membership>): Option<CanonicalRole> {
    if org.Some? && membership.Some? && membership.value.customRole.Some? then
      d.customBase(org.value, membership.value.customRole.value)
    else
      None
  }

  function StationsFor(d: Directory, id: UserId, role: Role, org: Option<OrgId>): seq<Assignment> {
    if PlatformPrincipal(d, id, role) && org.None? then [] else StationContexts(d.assignments, id, org)
  }

  /** The session for a user row, without the writes. */
  function Derive(d: Directory, id: UserId, u: UserRow, o: SessionOptions): Session {
    var org := DeriveOrg(d, id, u.role, o);
    var ms := ActiveMemberships(d.memberships, id);
    var stations := StationsFor(d, id, u.role, org);
    var station := ActiveStation(stations, u.lastStationAssignmentId);
    var membership := if org.Some? then MembershipIn(ms, org.value) else None;
    var membershipRole := if membership.Some? then membership.value.role else u.role;
    var role := if station.Some? then station.value.role else membershipRole;
    var customBase := if d.platformRole(id).Some? then None else CustomBase(d, org, membership);
    var canonicalRole := Or(d.platformRole(id), Or(customBase,
                            Or(if membership.Some? then membership.value.canonicalRole else None, d.keyOf(role))));
    var orgName := Or(if membership.Some? then membership.value.orgName else None, o.selectedTenantName);
    Session(org, orgName, role, canonicalRole, customBase, if org.Some? then Tenant else Platform, org.Some?, org,
            if org.Some? then orgName else None, ms, stations, station)
  }

  /** What the derivation writes back to the user. */
  function Remember(u: UserRow, s: Session, platform: bool): UserRow {
    UserRow(u.role,
            if !platform && s.org.Some? then s.org else u.organizationId,
            if s.station.Some? then Some(s.station.value.id) else u.lastStationAssignmentId)
  }

  function AccessOf(d: Directory, id: UserId, s: Session): AccessClaims {
    var org := if s.acting then Or(s.org, s.selectedTenantId) else None;
    var canonicalRole := Or(s.customBase, Or(s.canonicalRole, d.keyOf(s.role)));
    AccessClaims(id, s.role, GetOr(canonicalRole, SITE_HOST), org, org, org, org, s.scope, s.acting, s.selectedTenantId,
                 s.selectedTenantName)
  }

  function RefreshOf(id: UserId, jti: nat, s: Session): RefreshClaims {
    RefreshClaims(id, jti, s.scope, s.acting, s.selectedTenantId, s.selectedTenantName)
  }

  function OptionsOf(c: RefreshClaims): SessionOptions {
    SessionOptions(None, Some(c.scope), Some(c.acting), c.selectedTenantId, c.selectedTenantName)
  }

  /**
   * A session's organisation: for a platform principal the tenant asked for or none, and for everyone else an active
   * membership, the one asked for if it is one, and none only for a user without active memberships.
   */
  lemma SessionOrganization(d: Directory, id: UserId, u: UserRow, o: SessionOptions)
    ensures var s := Derive(d, id, u, o);
            var asked := Or(o.selectedTenantId, o.preferredOrganizationId);
            && (PlatformPrincipal(d, id, u.role) ==> s.org == asked)
            && (!PlatformPrincipal(d, id, u.role) ==>
                  && (s.org.Some? ==> ActiveMember(d.memberships, id, s.org.value))
                  && (s.org.None? <==> forall org :: !ActiveMember(d.memberships, id, org))
                  && (asked.Some? && ActiveMember(d.memberships, id, asked.value) ==> s.org == asked))
            && (s.station.Some? && s.org.Some? ==> s.station.value.stationOrg == s.org)
  {
    var s := Derive(d, id, u, o);
    ResolvedIsMember(d.memberships, id, Or(o.selectedTenantId, o.preferredOrganizationId));
    if s.station.Some? && s.org.Some? {
      StationChosen(d.assignments, id, s.org, u.lastStationAssignmentId);
    }
  }

  /** The active membership with this role is the user's in this organisation. */
  ghost predicate RoleGranted(rows: seq<Membership>, user: UserId, org: OrgId, role: Role) {
    exists m :: m in rows && m.user == user && m.active && m.org == org && m.role == role
  }

  /**
   * A session's role: the station's if it has one, otherwise the one granted by the membership in its organisation,
   * and the user's own only where no membership grants any. A platform role overrides every other canonical role.
   */
  lemma SessionRole(d: Directory, id: UserId, u: UserRow, o: SessionOptions)
    ensures var s := Derive(d, id, u, o);
            && (s.station.Some? ==> s.role == s.station.value.role && s.station.value in d.assignments
                                    && s.station.value.user == id && s.station.value.active)
            && (s.station.None? && s.org.Some? && ActiveMember(d.memberships, id, s.org.value) ==>
                  RoleGranted(d.memberships, id, s.org.value, s.role))
            && (s.station.None? && (s.org.None? || !ActiveMember(d.memberships, id, s.org.value)) ==> s.role == u.role)
            && (d.platformRole(id).Some? ==> s.canonicalRole == d.platformRole(id) && s.customBase.None?)
  {
    var s := Derive(d, id, u, o);
    var ms := ActiveMemberships(d.memberships, id);
    StationChosen(d.assignments, id, s.org, u.lastStationAssignmentId);
    ActiveMembershipsAre(d.memberships, id);
    if s.org.Some? {
      MembershipInIff(ms, s.org.value);
      MembershipInIsActiveMember(d.memberships, id, s.org.value);
    }
    hide DeriveOrg, StationContexts, ActiveStation, MembershipIn, ActiveMemberships, CustomBase, PlatformPrincipal;
    hide Earliest;
  }

  /**
   * The stations a session sees: none for a platform principal without a tenant; otherwise every active assignment of
   * the user in the session's organisation, primary ones first, and it works at the one chosen among them.
   */
  lemma SessionStations(d: Directory, id: UserId, u: UserRow, o: SessionOptions)
    ensures var s := Derive(d, id, u, o);
            if PlatformPrincipal(d, id, u.role) && s.org.None? then s.stations == [] && s.station == None
            else
              && (forall a :: a in s.stations <==> a in d.assignments && Eligible(a, id, s.org))
              && (forall i, j | 0 <= i < j < |s.stations| :: s.stations[j].primary ==> s.stations[i].primary)
              && s.station == ActiveStation(StationContexts(d.assignments, id, s.org), u.lastStationAssignmentId)
  {
    var s := Derive(d, id, u, o);
    var front, rest := StationRows(d.assignments, id, s.org, true), StationRows(d.assignments, id, s.org, false);
    StationRowsAre(d.assignments, id, s.org, true);
    StationRowsAre(d.assignments, id, s.org, false);
    hide DeriveOrg, ActiveMemberships, MembershipIn, StationRows, Earliest, Eligible;
    hide PlatformPrincipal;
    if !(PlatformPrincipal(d, id, u.role) && s.org.None?) {
      assert s.stations == front + rest;
      forall i, j | 0 <= i < j < |s.stations| ensures s.stations[j].primary ==> s.stations[i].primary {
        assert i < |front| ==> front[i] in front;
        assert j >= |front| ==> rest[j - |front|] in rest;
      }
    }
  }

  /** What a session without a platform role takes its canonical role from: the first of these that exists. */
  ghost predicate RoleFromTenant(d: Directory, org: Option<OrgId>, m: Option<Membership>, role: Role,
                                 claimed: CanonicalRole) {
    var base := if org.Some? && m.Some? && m.value.customRole.Some?
                then d.customBase(org.value, m.value.customRole.value) else None;
    if base.Some? then base == Some(claimed)
    else if m.Some? && m.value.canonicalRole.Some? then m.value.canonicalRole == Some(claimed)
    else if d.keyOf(role).Some? then d.keyOf(role) == Some(claimed)
    else claimed == CanonicalRole(0)
  }

  /**
   * The canonical role in an access token: the platform role if there is one, otherwise the base of the custom role of
   * the membership in the session's organisation, otherwise that membership's own canonical role, otherwise the key of
   * the session's role, and the site host's only when none of these exists. The role claimed is the session's.
   */
  lemma TokenRole(d: Directory, id: UserId, u: UserRow, o: SessionOptions)
    ensures var s := Derive(d, id, u, o);
            var claims := AccessOf(d, id, s);
            && claims.role == s.role
            && (d.platformRole(id).Some? ==> Some(claims.canonicalRole) == d.platformRole(id))
            && (d.platformRole(id).None? ==>
                  && (forall m | s.org.Some? && FirstMembership(d.memberships, id, s.org.value, m) ::
                        RoleFromTenant(d, s.org, Some(m), s.role, claims.canonicalRole))
                  && (s.org.None? || !ActiveMember(d.memberships, id, s.org.value) ==>
                        RoleFromTenant(d, s.org, None, s.role, claims.canonicalRole)))
    ensures var org := Derive(d, id, u, o).org;
            org.Some? && ActiveMember(d.memberships, id, org.value) ==>
              exists m :: FirstMembership(d.memberships, id, org.value, m)
  {
    var s := Derive(d, id, u, o);
    if s.org.Some? {
      MembershipInIsFirst(d.memberships, id, s.org.value);
      MembershipInIsActiveMember(d.memberships, id, s.org.value);
    }
    hide DeriveOrg, StationsFor, ActiveStation, MembershipIn, ActiveMemberships, PlatformPrincipal, FirstMembership;
    hide ActiveMember;
  }

  /**
   * What else the tokens say: the user, the session's organisation in every field for one, tenant scope exactly with an
   * organisation, and as its name the membership's, else the one offered.
   */
  lemma TokenScope(d: Directory, id: UserId, u: UserRow, o: SessionOptions, jti: nat)
    ensures var s := Derive(d, id, u, o);
            var claims, refresh := AccessOf(d, id, s), RefreshOf(id, jti, s);
            && claims.sub == refresh.sub == id && refresh.jti == jti
            && claims.tenantId == claims.activeTenantId == claims.organizationId == claims.activeOrganizationId == s.org
            && claims.selectedTenantId == refresh.selectedTenantId == s.org
            && (claims.scope == refresh.scope == if s.org.Some? then Tenant else Platform)
            && claims.acting == refresh.acting == s.org.Some?
            && claims.selectedTenantName == refresh.selectedTenantName
            && (s.org.None? ==> claims.selectedTenantName == None)
            && (s.org.Some? && !ActiveMember(d.memberships, id, s.org.value) ==>
                  claims.selectedTenantName == o.selectedTenantName)
            && (forall m | s.org.Some? && FirstMembership(d.memberships, id, s.org.value, m) ::
                  claims.selectedTenantName == if m.orgName.Some? then m.orgName else o.selectedTenantName)
  {
    var s := Derive(d, id, u, o);
    if s.org.Some? {
      MembershipInIsFirst(d.memberships, id, s.org.value);
      MembershipInIsActiveMember(d.memberships, id, s.org.value);
    }
    hide DeriveOrg, StationsFor, ActiveStation, MembershipIn, ActiveMemberships, PlatformPrincipal, FirstMembership;
    hide ActiveMember, CustomBase;
  }

  lemma RefreshedOrgSame(d: Directory, id: UserId, role: Role, o: SessionOptions, o2: SessionOptions)
    requires o2.selectedTenantId == DeriveOrg(d, id, role, o) && o2.preferredOrganizationId == None
    ensures DeriveOrg(d, id, role, o2) == DeriveOrg(d, id, role, o)
  {
    var org := DeriveOrg(d, id, role, o);
    if !PlatformPrincipal(d, id, role) {
      ResolvedIsMember(d.memberships, id, Or(o.selectedTenantId, o.preferredOrganizationId));
      ResolvedIsMember(d.memberships, id, org);
    }
  }

  /** Remembering the chosen station makes it the choice again. */
  lemma ChosenStays(contexts: seq<Assignment>, last: Option<AssignmentId>)
    requires IdsDistinct(contexts)
    ensures var s := ActiveStation(contexts, last);
            s.Some? ==> s.value in contexts && ActiveStation(contexts, Some(s.value.id)) == s
  {
    FindContextIff(contexts, last);
    FindPrimaryIn(contexts);
    var s := ActiveStation(contexts, last);
    if s.Some? {
      FindContextIff(contexts, Some(s.value.id));
    }
  }

  lemma {:induction false} FindPrimaryIn(contexts: seq<Assignment>)
    ensures FindPrimary(contexts).Some? ==> FindPrimary(contexts).value in contexts
  {
    if contexts != [] {
      FindPrimaryIn(contexts[1..]);
      assert contexts == [contexts[0]] + contexts[1..];
    }
  }

  lemma StationsDistinct(d: Directory, id: UserId, role: Role, org: Option<OrgId>)
    requires IdsDistinct(d.assignments)
    ensures IdsDistinct(StationsFor(d, id, role, org))
  {
    StationRowsAre(d.assignments, id, org, true);
    StationRowsAre(d.assignments, id, org, false);
  }

  /**
   * Refreshing with unchanged tables derives the same session again, in spite of what the first derivation wrote
   * back, and writes nothing further; the access token's claims are the same. Only the organisation's name can
   * differ, and only in a session without a tenant that was offered a tenant name.
   */
  lemma RefreshIsFixedPoint(d: Directory, id: UserId, u: UserRow, o: SessionOptions, jti: nat)
    requires IdsDistinct(d.assignments)
    ensures var platform := PlatformPrincipal(d, id, u.role);
            var s := Derive(d, id, u, o);
            var after := Remember(u, s, platform);
            var again := Derive(d, id, after, OptionsOf(RefreshOf(id, jti, s)));
            && again == s.(orgName := again.orgName)
            && (again.orgName == s.orgName <==> s.acting || o.selectedTenantName.None?)
            && AccessOf(d, id, again) == AccessOf(d, id, s)
            && RefreshOf(id, jti, again) == RefreshOf(id, jti, s)
            && Remember(after, again, platform) == after
  {
    var s := Derive(d, id, u, o);
    var refresh := OptionsOf(RefreshOf(id, jti, s));
    RefreshedOrgSame(d, id, u.role, o, refresh);
    StationsDistinct(d, id, u.role, s.org);
    ChosenStays(s.stations, u.lastStationAssignmentId);
    hide DeriveOrg, StationsFor, ActiveStation, MembershipIn, ActiveMemberships, CustomBase, PlatformPrincipal;
    hide IdsDistinct;
  }

  /**
   * Between refreshes the user's other sessions may rewrite the user row. The organisation never moves; the station
   * stays exactly when the row still remembers it, or remembers none of this organisation's and it is the default.
   */
  lemma RefreshAfterOtherSessions(d: Directory, id: UserId, u: UserRow, o: SessionOptions, jti: nat, other: UserRow)
    requires IdsDistinct(d.assignments) && other.role == u.role
    ensures var s := Derive(d, id, u, o);
            var again := Derive(d, id, other, OptionsOf(RefreshOf(id, jti, s)));
            && again.org == s.org && again.stations == s.stations && again.selectedTenantId == s.selectedTenantId
            && (again.station == s.station
                <==> s.station.None?
                     || other.lastStationAssignmentId == Some(s.station.value.id)
                     || (FindContext(s.stations, other.lastStationAssignmentId).None?
                         && ActiveStation(s.stations, None) == s.station))
            && (again.station == s.station ==> AccessOf(d, id, again) == AccessOf(d, id, s))
  {
    var s := Derive(d, id, u, o);
    RefreshedOrgSame(d, id, u.role, o, OptionsOf(RefreshOf(id, jti, s)));
    StationsDistinct(d, id, u.role, s.org);
    OtherChoice(s.stations, u.lastStationAssignmentId, other.lastStationAssignmentId);
    hide DeriveOrg, StationsFor, ActiveStation, MembershipIn, ActiveMemberships, CustomBase, PlatformPrincipal;
    hide IdsDistinct, FindContext;
  }

  lemma OtherChoice(contexts: seq<Assignment>, last: Option<AssignmentId>, other: Option<AssignmentId>)
    requires IdsDistinct(contexts)
    ensures var s := ActiveStation(contexts, last);
            ActiveStation(contexts, other) == s
            <==> s.None? || other == Some(s.value.id)
                 || (FindContext(contexts, other).None? && ActiveStation(contexts, None) == s)
  {
    FindContextIff(contexts, other);
    FindContextIff(contexts, last);
    FindContextIff(contexts, None);
    FindPrimaryIn(contexts);
    ChosenStays(contexts, last);
    hide FindContext, FindPrimary;
  }

  /** Whoever works at a secondary station is moved to the primary one once the row remembers another organisation's. */
  lemma ForgottenStationMoves(d: Directory, id: UserId, u: UserRow, o: SessionOptions, jti: nat, other: UserRow)
    requires IdsDistinct(d.assignments) && other.role == u.role && !PlatformPrincipal(d, id, u.role)
    requires var s := Derive(d, id, u, o);
             && s.station.Some? && !s.station.value.primary && HasStation(d.assignments, id, s.org, true)
             && !Remembered(d.assignments, id, s.org, other.lastStationAssignmentId)
    ensures var again := Derive(d, id, other, OptionsOf(RefreshOf(id, jti, Derive(d, id, u, o))));
            again.station.Some? && again.station.value.primary
  {
    var s := Derive(d, id, u, o);
    RefreshedOrgSame(d, id, u.role, o, OptionsOf(RefreshOf(id, jti, s)));
    StationChosen(d.assignments, id, s.org, other.lastStationAssignmentId);
    hide DeriveOrg, ActiveStation, StationContexts, Remembered, HasStation, Earliest, MembershipIn, ActiveMemberships;
  }

  /** A session under `o`, then one under `o2`, then a refresh of the first: it has moved to another station. */
  ghost predicate StationMoves(d: Directory, id: UserId, u: UserRow, o: SessionOptions, o2: SessionOptions) {
    var s := Derive(d, id, u, o);
    var first := Remember(u, s, false);
    var second := Remember(first, Derive(d, id, first, o2), false);
    Derive(d, id, second, OptionsOf(RefreshOf(id, 0, s))).station != s.station
  }

  /** A primary and a secondary station in one organisation, and a single station in the other. */
  ghost predicate TwoSites(rows: seq<Assignment>, id: UserId, one: OrgId, two: OrgId, primary: Assignment,
                           used: Assignment,
                           elsewhere: Assignment)
  {
    && primary in rows && primary.primary && Eligible(primary, id, Some(one))
    && used in rows && !used.primary && Eligible(used, id, Some(one))
    && elsewhere in rows && !Eligible(elsewhere, id, Some(one))
    && (forall x | x in rows :: Eligible(x, id, Some(two)) <==> x == elsewhere)
  }

  lemma TwoSessions(d: Directory, id: UserId, u: UserRow, o: SessionOptions, o2: SessionOptions, one: OrgId, two: OrgId,
                    primary: Assignment, used: Assignment, elsewhere: Assignment)
    requires IdsDistinct(d.assignments) && !PlatformPrincipal(d, id, u.role)
    requires ActiveMember(d.memberships, id, one) && ActiveMember(d.memberships, id, two)
    requires TwoSites(d.assignments, id, one, two, primary, used, elsewhere)
             && u.lastStationAssignmentId == Some(used.id)
    requires o == SessionOptions(Some(one), None, None, None, None)
             && o2 == SessionOptions(Some(two), None, None, None, None)
    ensures StationMoves(d, id, u, o, o2)
  {
    hide Derive, Eligible, ActiveMember;
    var s := Derive(d, id, u, o);
    UsedStation(d, id, u, o, used, one);
    var first := Remember(u, s, false);
    UsedStationOf(d, id, first, o2, two, elsewhere);
    var second := Remember(first, Derive(d, id, first, o2), false);
    assert HasStation(d.assignments, id, s.org, true);
    ForgottenStationMoves(d, id, u, o, 0, second);
  }

  /** No platform roles and no custom roles. */
  ghost function TenantsOnly(ms: seq<Membership>, rows: seq<Assignment>): (d: Directory)
    ensures d.memberships == ms && d.assignments == rows && forall id, role :: !PlatformPrincipal(d, id, role)
  {
    Directory(ms, rows, (x: UserId) => None, (x: OrgId, y: nat) => None, (x: Role) => None, (x: CanonicalRole) => false)
  }

  /** A run that shows it: a user of two organisations, with one session in each. */
  lemma OtherSessionMovesStation(id: UserId, role: Role, one: OrgId, two: OrgId)
    requires one != two
    ensures exists d: Directory, u: UserRow, o: SessionOptions, o2: SessionOptions ::
              IdsDistinct(d.assignments) && StationMoves(d, id, u, o, o2)
  {
    var primary := Assignment(AssignmentId(0), id, true, true, role, Some(one));
    var used := Assignment(AssignmentId(1), id, true, false, role, Some(one));
    var elsewhere := Assignment(AssignmentId(2), id, true, true, role, Some(two));
    var m1, m2 := Membership(id, one, true, role, None, None, None), Membership(id, two, true, role, None, None, None);
    var d := TenantsOnly([m1, m2], [primary, used, elsewhere]);
    var u := UserRow(role, Some(one), Some(used.id));
    var o, o2 := SessionOptions(Some(one), None, None, None, None), SessionOptions(Some(two), None, None, None, None);
    BothMember(m1, m2);
    SitesOf(id, one, two, primary, used, elsewhere);
    hide StationMoves, TenantsOnly, PlatformPrincipal, TwoSites, IdsDistinct, ActiveMember, Derive;
    TwoSessions(d, id, u, o, o2, one, two, primary, used, elsewhere);
  }

  lemma BothMember(m1: Membership, m2: Membership)
    requires m1.active && m2.active && m1.user == m2.user
    ensures ActiveMember([m1, m2], m1.user, m1.org) && ActiveMember([m1, m2], m1.user, m2.org)
  {
    assert m1 in [m1, m2] && m2 in [m1, m2];
  }

  lemma SitesOf(id: UserId, one: OrgId, two: OrgId, primary: Assignment, used: Assignment, elsewhere: Assignment)
    requires one != two && primary.primary && !used.primary
    requires Eligible(primary, id, Some(one)) && Eligible(used, id, Some(one)) && Eligible(elsewhere, id, Some(two))
    requires primary.id != used.id && primary.id != elsewhere.id && used.id != elsewhere.id
    ensures TwoSites([primary, used, elsewhere], id, one, two, primary, used, elsewhere)
            && IdsDistinct([primary, used, elsewhere])
  {
  }

  lemma UsedStation(d: Directory, id: UserId, u: UserRow, o: SessionOptions, a: Assignment, org: OrgId)
    requires IdsDistinct(d.assignments) && !PlatformPrincipal(d, id, u.role) && ActiveMember(d.memberships, id, org)
    requires o.selectedTenantId.None? && o.preferredOrganizationId == Some(org)
    requires a in d.assignments && Eligible(a, id, Some(org)) && u.lastStationAssignmentId == Some(a.id)
    ensures var s := Derive(d, id, u, o); s.org == Some(org) && s.station == Some(a)
  {
    SessionOrganization(d, id, u, o);
    StationChosen(d.assignments, id, Some(org), u.lastStationAssignmentId);
  }

  lemma UsedStationOf(d: Directory, id: UserId, u: UserRow, o: SessionOptions, org: OrgId, a: Assignment)
    requires !PlatformPrincipal(d, id, u.role) && ActiveMember(d.memberships, id, org)
    requires o.selectedTenantId.None? && o.preferredOrganizationId == Some(org)
    requires a in d.assignments && forall x | x in d.assignments :: Eligible(x, id, Some(org)) <==> x == a
    ensures var s := Derive(d, id, u, o); s.org == Some(org) && s.station == Some(a)
  {
    SessionOrganization(d, id, u, o);
    StationChosen(d.assignments, id, Some(org), u.lastStationAssignmentId);
    assert Eligible(a, id, Some(org));
  }

  // ---- Tokens ------------------------------------------------------------------------

  datatype StoredToken = StoredToken(token: RefreshClaims, user: UserId, expiresAt: int, revoked: bool)

  datatype Error = InvalidToken | TokenNotFound | UserNotFound

  predicate Usable(tokens: seq<StoredToken>, token: RefreshClaims, now: int) {
    exists t :: t in tokens && t.token == token && t.user == token.sub && t.expiresAt > now && !t.revoked
  }

  class AuthService {
    var dir: Directory
    var users: map<UserId, UserRow>
    var refreshTokens: seq<StoredToken>

    constructor (dir: Directory, users: map<UserId, UserRow>)
      ensures this.dir == dir && this.users == users && refreshTokens == []
    {
      this.dir, this.users, refreshTokens := dir, users, [];
    }

    method BuildAuthUserContext(id: UserId, o: SessionOptions) returns (s: Session)
      requires id in users
      modifies `users
      ensures s == Derive(dir, id, old(users[id]), o)
      ensures users == old(users)[id := Remember(old(users[id]), s, PlatformPrincipal(dir, id, old(users[id]).role))]
      ensures users.Keys == old(users).Keys && forall x | x in users && x != id :: users[x] == old(users)[x]
      ensures var was, now := old(users[id]), users[id];
              && now.role == was.role
              && now.organizationId == (if s.org.None? || PlatformPrincipal(dir, id, was.role) then was.organizationId
                                        else s.org)
              && now.lastStationAssignmentId == (match s.station case Some(a) => Some(a.id)
                                                 case None => was.lastStationAssignmentId)
    {
      hide DeriveOrg, StationsFor, ActiveStation, MembershipIn, ActiveMemberships, CustomBase, PlatformPrincipal;
      var user := users[id];
      s := Derive(dir, id, user, o);
      if !PlatformPrincipal(dir, id, user.role) {
        if s.org.Some? && user.organizationId != s.org {
          users := users[id := users[id].(organizationId := s.org)];
        }
      }
      if s.station.Some? && user.lastStationAssignmentId != Some(s.station.value.id) {
        users := users[id := users[id].(lastStationAssignmentId := Some(s.station.value.id))];
      }
    }

    method IssueTokens(id: UserId, o: SessionOptions, jti: nat, now: int)
      returns (access: AccessClaims, refresh: RefreshClaims, s: Session)
      requires id in users
      modifies `users, `refreshTokens
      ensures s == Derive(dir, id, old(users[id]), o)
      ensures users == old(users)[id := Remember(old(users[id]), s, PlatformPrincipal(dir, id, old(users[id]).role))]
      ensures access == AccessOf(dir, id, s) && refresh == RefreshOf(id, jti, s)
      // It can be used for seven days.
      ensures refreshTokens == old(refreshTokens) + [StoredToken(refresh, id, now + 7 * 86_400_000, false)]
      ensures forall t | t < now + 7 * 86_400_000 :: Usable(refreshTokens, refresh, t)
    {
      s := BuildAuthUserContext(id, o);
      access := AccessOf(dir, id, s);
      refresh := RefreshOf(id, jti, s);
      refreshTokens := refreshTokens + [StoredToken(refresh, id, now + REFRESH_TTL_MS, false)];
      assert refreshTokens[|refreshTokens| - 1] in refreshTokens;
    }

    /** `verified` is the outcome of checking the token's signature; the token itself is kept and not reissued. */
    method Refresh(token: RefreshClaims, verified: bool, now: int) returns (r: Result<(AccessClaims, Session), Error>)
      modifies `users
      ensures r.Ok? <==> verified && token.sub in old(users)
                         && exists t :: t in refreshTokens && t.token == token && t.user == token.sub && !t.revoked
                                        && now < t.expiresAt
      ensures r.Err? ==> users == old(users)
      ensures r.Ok? ==>
                var u := old(users)[token.sub];
                && r.value.1 == Derive(dir, token.sub, u, OptionsOf(token))
                && r.value.0 == AccessOf(dir, token.sub, r.value.1)
                && users == old(users)[token.sub := Remember(u, r.value.1, PlatformPrincipal(dir, token.sub, u.role))]
    {
      if !verified {
        return Err(InvalidToken);
      }
      if !Usable(refreshTokens, token, now) {
        return Err(TokenNotFound);
      }
      if token.sub !in users {
        return Err(UserNotFound);
      }
      var s := BuildAuthUserContext(token.sub, OptionsOf(token));
      return Ok((AccessOf(dir, token.sub, s), s));
    }
  }

  /** What repeated refreshes of one token do to the user row, with unchanged tables. */
  function RowAfterRefreshes(d: Directory, u: UserRow, token: RefreshClaims, n: nat): UserRow {
    if n == 0 then u
    else
      var row := RowAfterRefreshes(d, u, token, n - 1);
      Remember(row, Derive(d, token.sub, row, OptionsOf(token)), PlatformPrincipal(d, token.sub, row.role))
  }

  /** Issue once, refresh any number of times: every access token carries the claims of the first. */
  lemma {:induction false} EveryRefreshSame(d: Directory, id: UserId, u: UserRow, o: SessionOptions, jti: nat, n: nat)
    requires IdsDistinct(d.assignments)
    ensures var s := Derive(d, id, u, o);
            var token := RefreshOf(id, jti, s);
            var issued := Remember(u, s, PlatformPrincipal(d, id, u.role));
            && RowAfterRefreshes(d, issued, token, n) == issued
            && AccessOf(d, id, Derive(d, id, RowAfterRefreshes(d, issued, token, n), OptionsOf(token)))
               == AccessOf(d, id, s)
  {
    hide Derive, IdsDistinct, PlatformPrincipal, AccessOf;
    RefreshIsFixedPoint(d, id, u, o, jti);
    if n > 0 {
      EveryRefreshSame(d, id, u, o, jti, n - 1);
    }
  }
}
