/** The request guard: from access-token claims to the tenant a request is served for. */
module TenantGuard {
  import opened Wrappers
  import opened SessionScope

  /** The claims of any token the guard may be shown, older formats included. */
  datatype JwtUserClaims = JwtUserClaims(canonicalRole: Option<CanonicalRole>,
                                         profileCanonicalRole: Option<CanonicalRole>,
                                         scope: Option<Scope>, acting: Option<bool>, selectedTenantId: Option<OrgId>,
                                         activeTenantId: Option<OrgId>, tenantId: Option<OrgId>,
                                         activeOrganizationId: Option<OrgId>,
                                         organizationId: Option<OrgId>, orgId: Option<OrgId>)

  datatype Tier = SharedTier | SchemaTier | DedicatedTier

  datatype Routing = Routing(enabled: bool, tier: Option<Tier>)

  datatype Selection = Shared | Schema | DedicatedDb

  datatype Source = HostSubdomain | HostCustomDomain | JwtClaim

  /** The request's tenant context, as far as the guard sets it. */
  datatype TenantContext = TenantContext(hostOrganizationId: Option<OrgId>, authenticatedOrganizationId: Option<OrgId>,
                                         effectiveOrganizationId: Option<OrgId>, mismatchRejected: bool,
                                         source: Option<Source>, routing: Option<Routing>)

  /** A verified access token as the guard reads it. */
  function Decoded(c: AccessClaims): JwtUserClaims {
    JwtUserClaims(Some(c.canonicalRole), None, Some(c.scope), Some(c.acting), c.selectedTenantId, c.activeTenantId,
                  c.tenantId,
                  c.activeOrganizationId, c.organizationId, None)
  }

  function Legacy(c: JwtUserClaims): Option<OrgId> {
    Or(c.activeTenantId, Or(c.tenantId, Or(c.activeOrganizationId, Or(c.organizationId, c.orgId))))
  }

  /** `platformRole` says which canonical roles are platform-wide. */
  function AuthenticatedOrganization(c: JwtUserClaims, platformRole: CanonicalRole -> bool): Option<OrgId> {
    var canonicalRole := Or(c.canonicalRole, c.profileCanonicalRole);
    var isPlatformCanonicalRole := canonicalRole.Some? && platformRole(canonicalRole.value);
    var hasExplicitTenantSession := c.scope == Some(Tenant) || c.acting == Some(true);
    var allowLegacyTenantResolution := c.scope != Some(Platform) && c.acting != Some(false) && !isPlatformCanonicalRole;
    if hasExplicitTenantSession then Or(c.selectedTenantId, Legacy(c))
    else if allowLegacyTenantResolution then Legacy(c)
    else None
  }

  function SelectionOf(routing: Option<Routing>): Selection {
    if routing.Some? && routing.value.enabled then
      (if routing.value.tier == Some(DedicatedTier) then DedicatedDb
       else if routing.value.tier == Some(SchemaTier) then Schema else Shared)
    else Shared
  }

  function RoutingOf(directory: OrgId -> Option<Routing>, org: Option<OrgId>): Option<Routing> {
    if org.Some? then directory(org.value) else None
  }

  function SourceOf(host: Option<OrgId>, custom: bool): Source {
    if host.None? then JwtClaim else if custom then HostCustomDomain else HostSubdomain
  }

  function Counted(counts: map<Selection, nat>, s: Selection): map<Selection, nat> {
    counts[s := (if s in counts then counts[s] else 0) + 1]
  }

  /** The first of these that is there. */
  ghost predicate IsFirst(claims: seq<Option<OrgId>>, found: Option<OrgId>) {
    if found.None? then forall i | 0 <= i < |claims| :: claims[i].None?
    else exists i :: 0 <= i < |claims| && claims[i] == found && forall j | 0 <= j < i :: claims[j].None?
  }

  /**
   * The organisation a token of any format is taken to be for. In a tenant session it is the tenant selected or the
   * first of the other claims; otherwise, unless the token says it is a platform session, that it is not acting as a
   * tenant, or that its role is platform-wide, the first of the other claims; and none in the end.
   */
  lemma ClaimedOrganization(c: JwtUserClaims, platformRole: CanonicalRole -> bool)
    ensures var org := AuthenticatedOrganization(c, platformRole);
            var older := [c.activeTenantId, c.tenantId, c.activeOrganizationId, c.organizationId, c.orgId];
            var role := if c.canonicalRole.Some? then c.canonicalRole else c.profileCanonicalRole;
            if c.scope == Some(Tenant) || c.acting == Some(true) then IsFirst([c.selectedTenantId] + older, org)
            else if c.scope == Some(Platform) || c.acting == Some(false)
                    || (role.Some? && platformRole(role.value)) then org == None
            else IsFirst(older, org)
  {
    var org := AuthenticatedOrganization(c, platformRole);
    var older := [c.activeTenantId, c.tenantId, c.activeOrganizationId, c.organizationId, c.orgId];
    LegacyIsFirst(c);
    if c.scope == Some(Tenant) || c.acting == Some(true) {
      var all := [c.selectedTenantId] + older;
      assert all[0] == c.selectedTenantId && forall i | 0 <= i < 5 :: all[i + 1] == older[i];
      hide Legacy;
      if c.selectedTenantId.None? && org.Some? {
        var i :| 0 <= i < |older| && older[i] == org && forall j | 0 <= j < i :: older[j].None?;
        assert all[i + 1] == org && forall j | 0 < j < i + 1 :: all[j] == older[j - 1];
      }
    }
  }

  lemma LegacyIsFirst(c: JwtUserClaims)
    ensures IsFirst([c.activeTenantId, c.tenantId, c.activeOrganizationId, c.organizationId, c.orgId], Legacy(c))
  {
    var older := [c.activeTenantId, c.tenantId, c.activeOrganizationId, c.organizationId, c.orgId];
    assert older[0] == c.activeTenantId && older[1] == c.tenantId && older[2] == c.activeOrganizationId;
    assert older[3] == c.organizationId && older[4] == c.orgId;
  }

  /** What an admitted request is recorded as: where its tenant came from and which database tier it was counted for. */
  lemma RecordedAs(host: Option<OrgId>, custom: bool, routing: Option<Routing>, counts: map<Selection, nat>)
    ensures SourceOf(host, custom) == JwtClaim <==> host == None
    ensures SourceOf(host, custom) == HostCustomDomain <==> host != None && custom
    ensures SelectionOf(routing) == DedicatedDb <==> routing == Some(Routing(true, Some(DedicatedTier)))
    ensures SelectionOf(routing) == Schema <==> routing == Some(Routing(true, Some(SchemaTier)))
    ensures var s := SelectionOf(routing);
            var after := Counted(counts, s);
            && after.Keys == counts.Keys + {s} && after[s] == (if s in counts then counts[s] + 1 else 1)
            && forall x | x in counts && x != s :: after[x] == counts[x]
  {
  }

  class JwtAuthGuard {
    const platformRole: CanonicalRole -> bool
    const directory: OrgId -> Option<Routing>
    var context: TenantContext
    var mismatchRejects: nat
    var selections: map<Selection, nat>

    constructor (platformRole: CanonicalRole -> bool, directory: OrgId -> Option<Routing>, host: Option<OrgId>)
      ensures this.platformRole == platformRole && this.directory == directory
      ensures context.hostOrganizationId == host && mismatchRejects == 0 && selections == map[]
    {
      this.platformRole, this.directory := platformRole, directory;
      context := TenantContext(host, None, None, false, None, None);
      mismatchRejects, selections := 0, map[];
    }

    /** `custom` says whether the host was resolved from a custom domain. */
    method CanActivate(claims: JwtUserClaims, custom: bool) returns (admitted: bool)
      modifies this
      ensures var authenticated := AuthenticatedOrganization(claims, platformRole);
              var was := old(context);
              && (admitted <==> was.hostOrganizationId.None? || was.hostOrganizationId == authenticated)
              && (!admitted ==> context == was.(authenticatedOrganizationId := authenticated, mismatchRejected := true))
              && (admitted ==> context == TenantContext(was.hostOrganizationId, authenticated, authenticated, false,
                                                        Some(SourceOf(was.hostOrganizationId, custom)),
                                                        RoutingOf(directory, authenticated)))
      ensures mismatchRejects == old(mismatchRejects) + (if admitted then 0 else 1)
      ensures selections == if admitted then Counted(old(selections), SelectionOf(context.routing)) else old(selections)
    {
      var authenticated := AuthenticatedOrganization(claims, platformRole);
      var host := context.hostOrganizationId;
      if host.Some? && authenticated != host {
        mismatchRejects := mismatchRejects + 1;
        context := context.(authenticatedOrganizationId := authenticated, mismatchRejected := true);
        return false;
      }
      var effective := Or(host, authenticated);
      var routing := RoutingOf(directory, effective);
      var selection := SelectionOf(routing);
      selections := Counted(selections, selection);
      context := context.(authenticatedOrganizationId := authenticated, effectiveOrganizationId := effective,
                          mismatchRejected := false,
                          source := Some(SourceOf(host, custom)),
                          routing := routing);
      return true;
    }
  }

  /** The guard recovers exactly the session's organisation from the access token issued for it, whatever the role. */
  lemma GuardRecoversSession(d: Directory, id: UserId, u: UserRow, o: SessionOptions,
                             platformRole: CanonicalRole -> bool)
    ensures var s := Derive(d, id, u, o);
            AuthenticatedOrganization(Decoded(AccessOf(d, id, s)), platformRole) == s.org
  {
  }

  /** So a tenant's host serves a session exactly when the session is that tenant's, before and after any refresh. */
  lemma HostServesItsOwn(d: Directory, id: UserId, u: UserRow, o: SessionOptions, jti: nat, host: OrgId, other: UserRow,
                         platformRole: CanonicalRole -> bool)
    requires IdsDistinct(d.assignments) && other.role == u.role
    ensures var s := Derive(d, id, u, o);
            var again := Derive(d, id, other, OptionsOf(RefreshOf(id, jti, s)));
            && (Some(host) == AuthenticatedOrganization(Decoded(AccessOf(d, id, s)), platformRole)
               <==> s.org == Some(host))
            && (Some(host) == AuthenticatedOrganization(Decoded(AccessOf(d, id, again)), platformRole)
               <==> s.org == Some(host))
  {
  }

  /** For someone who is not a platform principal, the tenant a request is served for is one they actively belong to. */
  lemma ServedTenantIsMembership(d: Directory, id: UserId, u: UserRow, o: SessionOptions,
                                 platformRole: CanonicalRole -> bool)
    requires !PlatformPrincipal(d, id, u.role)
    ensures var org := AuthenticatedOrganization(Decoded(AccessOf(d, id, Derive(d, id, u, o))), platformRole);
            org.Some? ==> ActiveMember(d.memberships, id, org.value)
  {
    GuardRecoversSession(d, id, u, o, platformRole);
    SessionOrganization(d, id, u, o);
    hide Derive;
  }
}
