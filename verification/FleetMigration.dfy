/** The vehicle and fleet telemetry backfill, and the profile that predicts what it leaves unresolved. */
module FleetMigration {
  import opened Wrappers
  import Text

  datatype UserId = UserId(value: string)
  datatype OrgId = OrgId(value: string)

  datatype Ownership = PERSONAL | ORGANIZATION | FLEET

  datatype Vehicle = Vehicle(userId: UserId, ownershipType: Option<Ownership>, organizationId: Option<OrgId>,
                             fleetAccountId: Option<string>)

  datatype Membership = Membership(userId: UserId, organizationId: OrgId, active: bool)

  /**
   * The tables the script reads and writes; `users` gives each user's organisation, `commands` each command's domain.
   */
  datatype Db = Db(vehicles: seq<Vehicle>, users: map<UserId, Option<OrgId>>, memberships: seq<Membership>,
                   commands: seq<Option<string>>)

  // ---- The conditions of the queries -------------------------------------------------

  function ActiveOrganizations(memberships: seq<Membership>, user: UserId): seq<OrgId> {
    if memberships == [] then []
    else
      var front, m := ActiveOrganizations(memberships[..|memberships| - 1], user), memberships[|memberships| - 1];
      if m.userId == user && m.active then front + [m.organizationId] else front
  }

  /** The organisation of a user with exactly one active membership. */
  function OneActiveMembership(memberships: seq<Membership>, user: UserId): Option<OrgId> {
    var organizations := ActiveOrganizations(memberships, user);
    if |organizations| == 1 then Some(organizations[0]) else None
  }

  function UserOrganization(db: Db, user: UserId): Option<OrgId> {
    if user in db.users then db.users[user] else None
  }

  predicate IsOrgOrFleet(v: Vehicle) {
    v.ownershipType == Some(ORGANIZATION) || v.ownershipType == Some(FLEET)
  }

  predicate MayTakeOrganization(v: Vehicle) {
    v.organizationId.None? && (v.ownershipType.None? || IsOrgOrFleet(v))
  }

  function Normalized(domain: string): string {
    Text.Upper(Text.Trim(domain, Text.SQL_BLANKS))
  }

  predicate IsMissing(domain: Option<string>) {
    domain.None? || Text.Trim(domain.value, Text.SQL_BLANKS) == ""
  }

  predicate IsSupported(domain: string) {
    Normalized(domain) == "CHARGE_POINT" || Normalized(domain) == "VEHICLE"
  }

  predicate IsNonCanonical(domain: Option<string>) {
    !IsMissing(domain) && domain.value != Normalized(domain.value) && IsSupported(domain.value)
  }

  predicate IsUnsupported(domain: Option<string>) {
    !IsMissing(domain) && !IsSupported(domain.value)
  }

  /** The organisation comes from the user's only active membership, wherever it stands in the table. */
  lemma {:induction false} OnlyMembership(memberships: seq<Membership>, user: UserId)
    ensures ActiveOrganizations(memberships, user) == []
            <==> forall i | 0 <= i < |memberships| :: !Belongs(memberships, i, user)
    ensures forall org :: OneActiveMembership(memberships, user) == Some(org)
                          <==> exists i :: IsOnly(memberships, i, user) && memberships[i].organizationId == org
    ensures |ActiveOrganizations(memberships, user)| > 1
            <==> exists i, j :: 0 <= i < j < |memberships|
                                && Belongs(memberships, i, user) && Belongs(memberships, j, user)
  {
    if memberships != [] {
      var n := |memberships| - 1;
      var front := memberships[..n];
      OnlyMembership(front, user);
      assert forall i | 0 <= i < n :: Belongs(memberships, i, user) <==> Belongs(front, i, user);
      if Belongs(memberships, n, user) {
        if ActiveOrganizations(front, user) == [] {
          assert IsOnly(memberships, n, user);
        } else {
          var i :| 0 <= i < n && Belongs(front, i, user);
          assert Belongs(memberships, i, user);
        }
      } else {
        forall i ensures IsOnly(memberships, i, user) <==> IsOnly(front, i, user) {}
      }
    }
  }

  ghost predicate Belongs(memberships: seq<Membership>, i: int, user: UserId)
    requires 0 <= i < |memberships|
  {
    memberships[i].userId == user && memberships[i].active
  }

  ghost predicate IsOnly(memberships: seq<Membership>, i: int, user: UserId) {
    && 0 <= i < |memberships| && Belongs(memberships, i, user)
    && forall j | 0 <= j < |memberships| && Belongs(memberships, j, user) :: j == i
  }

  /** What the queries ask of a command's domain, up to case and the spaces around it. */
  lemma DomainsAre(domain: Option<string>)
    ensures IsMissing(domain) <==> domain.None? || Text.AllIn(domain.value, {' '})
    ensures IsUnsupported(domain) <==> domain.Some? && !Text.AllIn(domain.value, {' '})
                                       && !Text.Spells(domain.value, "CHARGE_POINT", {' '})
                                       && !Text.Spells(domain.value, "VEHICLE", {' '})
    ensures IsNonCanonical(domain)
            <==> domain.Some? && domain.value != "CHARGE_POINT" && domain.value != "VEHICLE"
                 && (Text.Spells(domain.value, "CHARGE_POINT", {' '}) || Text.Spells(domain.value, "VEHICLE", {' '}))
  {
    if domain.Some? {
      Text.BlankIff(domain.value, Text.SQL_BLANKS);
      DomainReads(domain.value, "CHARGE_POINT");
      DomainReads(domain.value, "VEHICLE");
      CanonicalText("CHARGE_POINT");
      CanonicalText("VEHICLE");
      hide Text.Trim, Text.Upper, Text.Spells, Text.AllIn;
    }
  }

  lemma DomainReads(domain: string, word: string)
    requires word != "" && forall i | 0 <= i < |word| :: !('a' <= word[i] <= 'z')
    ensures Text.Spells(domain, word, Text.SQL_BLANKS) <==> Normalized(domain) == word
    ensures Normalized(domain) == word ==> Text.Trim(domain, Text.SQL_BLANKS) != ""
  {
    Text.SpellsIff(domain, word, Text.SQL_BLANKS);
    assert Text.Upper(word) == word;
  }

  // ---- The profile -------------------------------------------------------------------

  function Count<T>(rows: seq<T>, p: T -> bool): nat {
    if rows == [] then 0
    else Count(rows[..|rows| - 1], p) + if p(rows[|rows| - 1]) then 1 else 0
  }

  function MissingOwnership(): Vehicle -> bool { (v: Vehicle) => v.ownershipType.None? }

  function OrgOrFleetMissingOrganization(): Vehicle -> bool {
    (v: Vehicle) => v.organizationId.None? && IsOrgOrFleet(v)
  }

  function WithoutCandidate(db: Db): Vehicle -> bool {
    (v: Vehicle) => v.organizationId.None? && IsOrgOrFleet(v)
                    && UserOrganization(db, v.userId).None? && OneActiveMembership(db.memberships, v.userId).None?
  }

  function AnyVehicle(): Vehicle -> bool { (v: Vehicle) => true }
  function AnyCommand(): Option<string> -> bool { (d: Option<string>) => true }

  function PersonalWithOrganization(): Vehicle -> bool {
    (v: Vehicle) => v.organizationId.Some? && v.ownershipType == Some(PERSONAL)
  }

  function BackfillableFromUser(db: Db): Vehicle -> bool {
    (v: Vehicle) => v.organizationId.None? && IsOrgOrFleet(v) && UserOrganization(db, v.userId).Some?
  }

  function BackfillableFromMembership(db: Db): Vehicle -> bool {
    (v: Vehicle) => v.organizationId.None? && IsOrgOrFleet(v) && OneActiveMembership(db.memberships, v.userId).Some?
  }

  function AmbiguousMembership(db: Db): Vehicle -> bool {
    (v: Vehicle) => v.organizationId.None? && IsOrgOrFleet(v) && |ActiveOrganizations(db.memberships, v.userId)| > 1
  }

  function MissingDomain(): Option<string> -> bool { (d: Option<string>) => IsMissing(d) }
  function NonCanonicalDomain(): Option<string> -> bool { (d: Option<string>) => IsNonCanonical(d) }
  function UnsupportedDomain(): Option<string> -> bool { (d: Option<string>) => IsUnsupported(d) }

  datatype Profile = Profile(
    vehiclesTotal: nat,
    vehiclesMissingOwnershipType: nat,
    vehiclesOrgOrFleetMissingOrganization: nat,
    vehiclesPersonalWithOrganization: nat,
    vehiclesCanBackfillOrgFromUser: nat,
    vehiclesCanBackfillOrgFromSingleActiveMembership: nat,
    vehiclesOrgMissingOrgWithAmbiguousMembership: nat,
    vehiclesOrgOrFleetMissingOrgWithoutCandidate: nat,
    commandsTotal: nat,
    commandsMissingDomain: nat,
    commandsNonCanonicalDomain: nat,
    commandsUnsupportedDomain: nat)

  function BuildProfile(db: Db): Profile {
    Profile(Count(db.vehicles, AnyVehicle()),
            Count(db.vehicles, MissingOwnership()),
            Count(db.vehicles, OrgOrFleetMissingOrganization()),
            Count(db.vehicles, PersonalWithOrganization()),
            Count(db.vehicles, BackfillableFromUser(db)),
            Count(db.vehicles, BackfillableFromMembership(db)),
            Count(db.vehicles, AmbiguousMembership(db)),
            Count(db.vehicles, WithoutCandidate(db)),
            Count(db.commands, AnyCommand()),
            Count(db.commands, MissingDomain()),
            Count(db.commands, NonCanonicalDomain()),
            Count(db.commands, UnsupportedDomain()))
  }

  /** How many rows satisfy the condition: that is what each count of the profile is. */
  lemma {:induction false} CountIsCardinality<T>(rows: seq<T>, p: T -> bool)
    ensures Count(rows, p) == |set i | 0 <= i < |rows| && p(rows[i])|
  {
    var found := set i | 0 <= i < |rows| && p(rows[i]);
    if rows == [] {
      assert found == {};
    } else {
      var n := |rows| - 1;
      CountIsCardinality(rows[..n], p);
      var before := set i | 0 <= i < n && p(rows[..n][i]);
      assert found == if p(rows[n]) then before + {n} else before;
    }
  }

  /** The profile's conditions on a vehicle, in terms of its columns, its user's row and the memberships. */
  lemma VehicleQueries(db: Db, v: Vehicle)
    ensures var open := v.organizationId == None && v.ownershipType in {Some(ORGANIZATION), Some(FLEET)};
            var fromUser := v.userId in db.users && db.users[v.userId].Some?;
            var only := exists i :: IsOnly(db.memberships, i, v.userId);
            var many := exists i, j :: 0 <= i < j < |db.memberships| && Belongs(db.memberships, i, v.userId)
                                       && Belongs(db.memberships, j, v.userId);
            && AnyVehicle()(v) && (MissingOwnership()(v) <==> v.ownershipType == None)
            && (OrgOrFleetMissingOrganization()(v) <==> open)
            && (PersonalWithOrganization()(v) <==> v.organizationId != None && v.ownershipType == Some(PERSONAL))
            && (BackfillableFromUser(db)(v) <==> open && fromUser)
            && (BackfillableFromMembership(db)(v) <==> open && only)
            && (AmbiguousMembership(db)(v) <==> open && many)
            && (WithoutCandidate(db)(v) <==> open && !fromUser && !only)
  {
    OnlyMembership(db.memberships, v.userId);
    hide ActiveOrganizations, OneActiveMembership, Belongs;
    if i :| IsOnly(db.memberships, i, v.userId) {
      assert OneActiveMembership(db.memberships, v.userId) == Some(db.memberships[i].organizationId);
    }
  }

  // ---- The five updates --------------------------------------------------------------

  function Update<T>(rows: seq<T>, where: T -> bool, set': T -> T): (r: seq<T>)
    ensures |r| == |rows|
  {
    seq(|rows|, i requires 0 <= i < |rows| => if where(rows[i]) then set'(rows[i]) else rows[i])
  }

  function TakesUserOrganization(db: Db): Vehicle -> bool {
    (v: Vehicle) => MayTakeOrganization(v) && UserOrganization(db, v.userId).Some?
  }

  function WithUserOrganization(db: Db): Vehicle -> Vehicle {
    (v: Vehicle) => v.(organizationId := UserOrganization(db, v.userId))
  }

  function TakesMembership(db: Db): Vehicle -> bool {
    (v: Vehicle) => MayTakeOrganization(v) && OneActiveMembership(db.memberships, v.userId).Some?
  }

  function WithMembership(db: Db): Vehicle -> Vehicle {
    (v: Vehicle) => v.(organizationId := OneActiveMembership(db.memberships, v.userId))
  }

  function WithOwnership(): Vehicle -> Vehicle {
    (v: Vehicle) => v.(ownershipType := Some(
      if v.organizationId.Some? && v.fleetAccountId.Some? then FLEET
      else if v.organizationId.Some? then ORGANIZATION
      else PERSONAL))
  }

  function DefaultDomain(): Option<string> -> Option<string> { (d: Option<string>) => Some("CHARGE_POINT") }

  function CanonicalDomain(): Option<string> -> Option<string> {
    (d: Option<string>) => match d case Some(s) => Some(Normalized(s)) case None => None
  }

  datatype ApplySummary = ApplySummary(
    ownershipTypeBackfilled: nat,
    organizationFromUserBackfilled: nat,
    organizationFromMembershipBackfilled: nat,
    commandDomainDefaultBackfilled: nat,
    commandDomainCanonicalized: nat)

  /** What one vehicle becomes. */
  function MigratedVehicle(db: Db, v: Vehicle): Vehicle {
    var a := if TakesUserOrganization(db)(v) then WithUserOrganization(db)(v) else v;
    var b := if TakesMembership(db)(a) then WithMembership(db)(a) else a;
    if b.ownershipType.None? then WithOwnership()(b) else b
  }

  function MigratedDomain(d: Option<string>): Option<string> {
    var a := if IsMissing(d) then Some("CHARGE_POINT") else d;
    if IsNonCanonical(a) then CanonicalDomain()(a) else a
  }

  /** The database after a successful apply. */
  ghost function Migrated(db: Db): Db {
    db.(vehicles := seq(|db.vehicles|, i requires 0 <= i < |db.vehicles| => MigratedVehicle(db, db.vehicles[i])),
        commands := seq(|db.commands|, i requires 0 <= i < |db.commands| => MigratedDomain(db.commands[i])))
  }

  /** The client and its transaction: `failsAt` is the statement that throws, if any of the five does. */
  class Migration {
    var db: Db

    constructor (db: Db)
      ensures this.db == db
    {
      this.db := db;
    }

    method ApplyBackfill(failsAt: Option<nat>) returns (summary: Option<ApplySummary>)
      modifies this
      ensures summary.None? <==> failsAt.Some? && failsAt.value < 5
      ensures db == if summary.None? then old(db) else Migrated(old(db))
      ensures summary.Some? ==> summary.value == Summary(old(db))
    {
      UpdatesCompose(db);
      hide TakesUserOrganization, WithUserOrganization, TakesMembership, WithMembership, MissingOwnership;
      hide WithOwnership;
      hide MissingDomain, DefaultDomain, NonCanonicalDomain, CanonicalDomain, Migrated, Update;
      var vehicles, commands := db.vehicles, db.commands;
      if failsAt == Some(0) { return None; }
      var fromUser := Count(vehicles, TakesUserOrganization(db));
      vehicles := Update(vehicles, TakesUserOrganization(db), WithUserOrganization(db));
      if failsAt == Some(1) { return None; }
      var fromMembership := Count(vehicles, TakesMembership(db));
      vehicles := Update(vehicles, TakesMembership(db), WithMembership(db));
      if failsAt == Some(2) { return None; }
      var ownership := Count(vehicles, MissingOwnership());
      vehicles := Update(vehicles, MissingOwnership(), WithOwnership());
      if failsAt == Some(3) { return None; }
      var defaulted := Count(commands, MissingDomain());
      commands := Update(commands, MissingDomain(), DefaultDomain());
      if failsAt == Some(4) { return None; }
      var canonicalized := Count(commands, NonCanonicalDomain());
      commands := Update(commands, NonCanonicalDomain(), CanonicalDomain());
      db := db.(vehicles := vehicles, commands := commands);
      return Some(ApplySummary(ownership, fromUser, fromMembership, defaulted, canonicalized));
    }
  }

  // The vehicle and command tables between the statements.
  function AfterUsers(db: Db): seq<Vehicle> { Update(db.vehicles, TakesUserOrganization(db), WithUserOrganization(db)) }
  function AfterMemberships(db: Db): seq<Vehicle> { Update(AfterUsers(db), TakesMembership(db), WithMembership(db)) }
  function AfterOwnership(db: Db): seq<Vehicle> { Update(AfterMemberships(db), MissingOwnership(), WithOwnership()) }
  function AfterDefault(db: Db): seq<Option<string>> { Update(db.commands, MissingDomain(), DefaultDomain()) }
  function AfterCanonical(db: Db): seq<Option<string>> {
    Update(AfterDefault(db), NonCanonicalDomain(), CanonicalDomain())
  }

  /** The row counts the five statements report. */
  function Summary(db: Db): ApplySummary {
    ApplySummary(Count(AfterMemberships(db), MissingOwnership()), Count(db.vehicles, TakesUserOrganization(db)),
                 Count(AfterUsers(db), TakesMembership(db)), Count(db.commands, MissingDomain()),
                 Count(AfterDefault(db), NonCanonicalDomain()))
  }

  lemma UpdatesCompose(db: Db)
    ensures Migrated(db) == db.(vehicles := AfterOwnership(db), commands := AfterCanonical(db))
  {
  }

  /** The reported counts are honest about idleness: all are zero exactly when the apply changed nothing. */
  lemma IdleIffUnchanged(db: Db)
    ensures Summary(db) == ApplySummary(0, 0, 0, 0, 0) <==> Migrated(db) == db
  {
    UpdatesCompose(db);
    if Summary(db) == ApplySummary(0, 0, 0, 0, 0) {
      UpdateNone(db.vehicles, TakesUserOrganization(db), WithUserOrganization(db));
      UpdateNone(db.vehicles, TakesMembership(db), WithMembership(db));
      UpdateNone(db.vehicles, MissingOwnership(), WithOwnership());
      UpdateNone(db.commands, MissingDomain(), DefaultDomain());
      UpdateNone(db.commands, NonCanonicalDomain(), CanonicalDomain());
    }
    if Migrated(db) == db {
      SecondApplyUpdatesNothing(db);
      UpdateNone(db.vehicles, TakesUserOrganization(db), WithUserOrganization(db));
      UpdateNone(db.vehicles, TakesMembership(db), WithMembership(db));
      UpdateNone(db.commands, MissingDomain(), DefaultDomain());
    }
  }

  lemma {:induction false} CountNone<T>(rows: seq<T>, p: T -> bool)
    ensures Count(rows, p) == 0 <==> forall r | r in rows :: !p(r)
  {
    if rows != [] {
      CountNone(rows[..|rows| - 1], p);
      assert rows == rows[..|rows| - 1] + [rows[|rows| - 1]];
    }
  }

  lemma UpdateNone<T>(rows: seq<T>, where: T -> bool, set': T -> T)
    requires Count(rows, where) == 0
    ensures Update(rows, where, set') == rows
  {
  }

  lemma {:induction false} CountCorresponds<T>(rows: seq<T>, p: T -> bool, after: seq<T>, q: T -> bool)
    requires |after| == |rows| && forall i | 0 <= i < |rows| :: p(rows[i]) <==> q(after[i])
    ensures Count(rows, p) == Count(after, q)
  {
    if rows != [] {
      CountCorresponds(rows[..|rows| - 1], p, after[..|after| - 1], q);
    }
  }

  // ---- The prediction ----------------------------------------------------------------

  lemma VehicleSettles(db: Db, v: Vehicle)
    ensures var m := MigratedVehicle(db, v);
            && m.ownershipType.Some? && m.userId == v.userId
            && (OrgOrFleetMissingOrganization()(m) <==> WithoutCandidate(db)(v))
            && (WithoutCandidate(db)(m) <==> WithoutCandidate(db)(v))
            && !TakesUserOrganization(db)(m) && !TakesMembership(db)(m)
            && !BackfillableFromUser(db)(m) && !BackfillableFromMembership(db)(m)
            && (AmbiguousMembership(db)(m) <==> AmbiguousMembership(db)(v) && UserOrganization(db, v.userId).None?)
            && (PersonalWithOrganization()(m) <==> PersonalWithOrganization()(v))
            && (v.organizationId.Some? ==> m.organizationId == v.organizationId)
            && (v.ownershipType.Some? ==> m.ownershipType == v.ownershipType)
  {
  }

  /**
   * Field by field what a vehicle becomes: an organisation set stays; otherwise, unless it is personal, it takes the
   * user's organisation, or else that of the user's only active membership; and where no ownership was set, it is
   * personal without an organisation, and with one a fleet's or the organisation's depending on the fleet account.
   */
  lemma VehicleBecomes(db: Db, v: Vehicle)
    ensures var m := MigratedVehicle(db, v);
            && m.userId == v.userId && m.fleetAccountId == v.fleetAccountId
            && (v.organizationId.Some? || v.ownershipType == Some(PERSONAL) ==> m.organizationId == v.organizationId)
            && (v.organizationId.None? && v.ownershipType != Some(PERSONAL) ==>
                  if v.userId in db.users && db.users[v.userId].Some? then m.organizationId == db.users[v.userId]
                  else m.organizationId == OneActiveMembership(db.memberships, v.userId))
            && (match v.ownershipType
                case Some(o) => m.ownershipType == Some(o)
                case None =>
                  && (m.ownershipType == Some(PERSONAL) <==> m.organizationId.None?)
                  && (m.ownershipType == Some(FLEET) <==> m.organizationId.Some? && v.fleetAccountId.Some?)
                  && (m.ownershipType == Some(ORGANIZATION) <==> m.organizationId.Some? && v.fleetAccountId.None?))
  {
    match v.ownershipType
    case None =>
    case Some(o) =>
      match o
      case PERSONAL =>
      case ORGANIZATION =>
      case FLEET =>
  }

  /** A missing domain becomes that of a charge point, a misspelt one the word it spells, and any other stays. */
  lemma DomainBecomes(d: Option<string>)
    ensures IsMissing(d) ==> MigratedDomain(d) == Some("CHARGE_POINT")
    ensures !IsMissing(d) && Text.Spells(d.value, "CHARGE_POINT", {' '}) ==> MigratedDomain(d) == Some("CHARGE_POINT")
    ensures !IsMissing(d) && Text.Spells(d.value, "VEHICLE", {' '}) ==> MigratedDomain(d) == Some("VEHICLE")
    ensures IsUnsupported(d) ==> MigratedDomain(d) == d
  {
    CanonicalText("CHARGE_POINT");
    if d.Some? {
      DomainReads(d.value, "CHARGE_POINT");
      DomainReads(d.value, "VEHICLE");
    }
  }

  lemma DomainSettles(d: Option<string>)
    ensures var m := MigratedDomain(d);
            && !IsMissing(m) && !IsNonCanonical(m)
            && (IsUnsupported(m) <==> IsUnsupported(d))
            && (IsUnsupported(d) ==> m == d)
  {
    CanonicalText("CHARGE_POINT");
    if d.Some? {
      Text.UpperTrimIdempotent(d.value);
    }
  }

  lemma CanonicalText(s: string)
    requires s == "CHARGE_POINT" || s == "VEHICLE"
    ensures Normalized(s) == s && Text.Trim(s, Text.SQL_BLANKS) == s
  {
  }

  /** Vehicles that more than one active membership leaves undecided, and whose user has no organisation either. */
  function Undecided(db: Db): Vehicle -> bool {
    (v: Vehicle) => AmbiguousMembership(db)(v) && UserOrganization(db, v.userId).None?
  }

  /**
   * After an apply nothing is missing, non-canonical or left to backfill, the unsupported domains are as many as
   * before, no row is gained or lost, and the vehicles left without an organisation are exactly as many as the profile
   * had called "without candidate".
   */
  lemma ProfilePredicts(db: Db)
    ensures var before, after := BuildProfile(db), BuildProfile(Migrated(db));
            && after.vehiclesTotal == before.vehiclesTotal == |db.vehicles|
            && after.vehiclesMissingOwnershipType == 0
            && after.vehiclesOrgOrFleetMissingOrganization == before.vehiclesOrgOrFleetMissingOrgWithoutCandidate
            && after.vehiclesPersonalWithOrganization == before.vehiclesPersonalWithOrganization
            && after.vehiclesCanBackfillOrgFromUser == after.vehiclesCanBackfillOrgFromSingleActiveMembership == 0
            && after.vehiclesOrgMissingOrgWithAmbiguousMembership == Count(db.vehicles, Undecided(db))
            && after.vehiclesOrgOrFleetMissingOrgWithoutCandidate == before.vehiclesOrgOrFleetMissingOrgWithoutCandidate
            && after.commandsTotal == before.commandsTotal == |db.commands|
            && after.commandsMissingDomain == 0
            && after.commandsNonCanonicalDomain == 0
            && after.commandsUnsupportedDomain == before.commandsUnsupportedDomain
  {
    VehiclesPredicted(db, Migrated(db).vehicles);
    CommandsPredicted(db, Migrated(db).commands);
    hide WithoutCandidate, OrgOrFleetMissingOrganization, BackfillableFromUser, BackfillableFromMembership;
    hide AmbiguousMembership;
    hide Count, UserOrganization, OneActiveMembership, MigratedVehicle, MigratedDomain;
  }

  lemma VehiclesPredicted(db: Db, after: seq<Vehicle>)
    requires after == Migrated(db).vehicles
    ensures Count(after, AnyVehicle()) == Count(db.vehicles, AnyVehicle()) == |db.vehicles|
    ensures Count(after, MissingOwnership()) == 0
    ensures Count(after, OrgOrFleetMissingOrganization()) == Count(db.vehicles, WithoutCandidate(db))
    ensures Count(after, PersonalWithOrganization()) == Count(db.vehicles, PersonalWithOrganization())
    ensures Count(after, BackfillableFromUser(Migrated(db))) == 0
    ensures Count(after, BackfillableFromMembership(Migrated(db))) == 0
    ensures Count(after, AmbiguousMembership(Migrated(db))) == Count(db.vehicles, Undecided(db))
    ensures Count(after, WithoutCandidate(Migrated(db))) == Count(db.vehicles, WithoutCandidate(db))
  {
    var later := Migrated(db);
    forall i | 0 <= i < |db.vehicles|
      ensures !MissingOwnership()(after[i])
      ensures OrgOrFleetMissingOrganization()(after[i]) <==> WithoutCandidate(db)(db.vehicles[i])
      ensures PersonalWithOrganization()(db.vehicles[i]) <==> PersonalWithOrganization()(after[i])
      ensures !BackfillableFromUser(later)(after[i]) && !BackfillableFromMembership(later)(after[i])
      ensures Undecided(db)(db.vehicles[i]) <==> AmbiguousMembership(later)(after[i])
      ensures WithoutCandidate(later)(after[i]) <==> WithoutCandidate(db)(db.vehicles[i])
    {
      VehicleSettles(db, db.vehicles[i]);
    }
    CountAll(db.vehicles, AnyVehicle());
    CountAll(after, AnyVehicle());
    CountNone(after, MissingOwnership());
    CountNone(after, BackfillableFromUser(later));
    CountNone(after, BackfillableFromMembership(later));
    CountCorresponds(db.vehicles, PersonalWithOrganization(), after, PersonalWithOrganization());
    CountCorresponds(db.vehicles, Undecided(db), after, AmbiguousMembership(later));
    CountCorresponds(db.vehicles, WithoutCandidate(db), after, OrgOrFleetMissingOrganization());
    CountCorresponds(db.vehicles, WithoutCandidate(db), after, WithoutCandidate(later));
  }

  lemma CommandsPredicted(db: Db, after: seq<Option<string>>)
    requires after == Migrated(db).commands
    ensures Count(after, AnyCommand()) == Count(db.commands, AnyCommand()) == |db.commands|
    ensures Count(after, MissingDomain()) == Count(after, NonCanonicalDomain()) == 0
    ensures Count(after, UnsupportedDomain()) == Count(db.commands, UnsupportedDomain())
  {
    forall i | 0 <= i < |db.commands|
      ensures !MissingDomain()(after[i]) && !NonCanonicalDomain()(after[i])
      ensures UnsupportedDomain()(after[i]) <==> UnsupportedDomain()(db.commands[i])
    {
      DomainSettles(db.commands[i]);
    }
    CountAll(db.commands, AnyCommand());
    CountAll(after, AnyCommand());
    CountNone(after, MissingDomain());
    CountNone(after, NonCanonicalDomain());
    CountCorresponds(db.commands, UnsupportedDomain(), after, UnsupportedDomain());
  }

  lemma {:induction false} CountAll<T>(rows: seq<T>, p: T -> bool)
    requires forall r :: p(r)
    ensures Count(rows, p) == |rows|
  {
    if rows != [] {
      CountAll(rows[..|rows| - 1], p);
    }
  }

  // ---- What the first two updates report ---------------------------------------------

  /** Vehicles without an ownership type that an update takes although the profile does not count them. */
  function UntypedFromUser(db: Db): Vehicle -> bool {
    (v: Vehicle) => v.ownershipType.None? && v.organizationId.None? && UserOrganization(db, v.userId).Some?
  }

  function UntypedFromMembership(db: Db): Vehicle -> bool {
    (v: Vehicle) => v.ownershipType.None? && v.organizationId.None? && UserOrganization(db, v.userId).None?
                    && OneActiveMembership(db.memberships, v.userId).Some?
  }

  /** Vehicles the profile counts under both sources, and the first update has already settled. */
  function InBothSources(db: Db): Vehicle -> bool {
    (v: Vehicle) => BackfillableFromUser(db)(v) && BackfillableFromMembership(db)(v)
  }

  /**
   * The first update reports the profile's count and the untyped vehicles besides; the second also falls short of its
   * count by the vehicles the first one took.
   */
  lemma BackfillCounts(db: Db)
    ensures Summary(db).organizationFromUserBackfilled
            == BuildProfile(db).vehiclesCanBackfillOrgFromUser + Count(db.vehicles, UntypedFromUser(db))
    ensures Summary(db).organizationFromMembershipBackfilled + Count(db.vehicles, InBothSources(db))
            == BuildProfile(db).vehiclesCanBackfillOrgFromSingleActiveMembership
               + Count(db.vehicles, UntypedFromMembership(db))
  {
    CountSplit(db.vehicles, TakesUserOrganization(db), BackfillableFromUser(db), UntypedFromUser(db));
    CountSplit(db.vehicles, BackfillableFromMembership(db), InBothSources(db), LeftToMembership(db));
    forall v: Vehicle
      ensures StillTakesMembership(db)(v) <==> LeftToMembership(db)(v) || UntypedFromMembership(db)(v)
      ensures !(LeftToMembership(db)(v) && UntypedFromMembership(db)(v))
    {
      SecondUpdateTakes(db, v);
    }
    CountSplit(db.vehicles, StillTakesMembership(db), LeftToMembership(db), UntypedFromMembership(db));
    CountCorresponds(db.vehicles, StillTakesMembership(db), AfterUsers(db), TakesMembership(db));
  }

  function LeftToMembership(db: Db): Vehicle -> bool {
    (v: Vehicle) => BackfillableFromMembership(db)(v) && UserOrganization(db, v.userId).None?
  }

  function StillTakesMembership(db: Db): Vehicle -> bool {
    (v: Vehicle) => TakesMembership(db)(v) && UserOrganization(db, v.userId).None?
  }

  /** After the first update the second takes typed vehicles without a user organisation, and untyped ones. */
  lemma SecondUpdateTakes(db: Db, v: Vehicle)
    ensures StillTakesMembership(db)(v) <==> LeftToMembership(db)(v) || UntypedFromMembership(db)(v)
    ensures !(LeftToMembership(db)(v) && UntypedFromMembership(db)(v))
  {
    assert TakesMembership(db)(v) <==> MayTakeOrganization(v) && OneActiveMembership(db.memberships, v.userId).Some?;
    assert BackfillableFromMembership(db)(v)
      <==> v.organizationId.None? && IsOrgOrFleet(v) && OneActiveMembership(db.memberships, v.userId).Some?;
    assert StillTakesMembership(db)(v) <==> TakesMembership(db)(v) && UserOrganization(db, v.userId).None?;
    assert LeftToMembership(db)(v) <==> BackfillableFromMembership(db)(v) && UserOrganization(db, v.userId).None?;
    assert UntypedFromMembership(db)(v)
      <==> v.ownershipType.None? && v.organizationId.None? && UserOrganization(db, v.userId).None?
           && OneActiveMembership(db.memberships, v.userId).Some?;
  }

  lemma {:induction false} CountSplit<T>(rows: seq<T>, whole: T -> bool, p: T -> bool, q: T -> bool)
    requires forall r | r in rows :: (whole(r) <==> p(r) || q(r)) && !(p(r) && q(r))
    ensures Count(rows, whole) == Count(rows, p) + Count(rows, q)
  {
    if rows != [] {
      assert forall r | r in rows[..|rows| - 1] :: r in rows;
      CountSplit(rows[..|rows| - 1], whole, p, q);
      assert rows[|rows| - 1] in rows;
    }
  }

  /**
   * So the profile predicts the first update exactly when no untyped vehicle can take its user's organisation, and the
   * second exactly when as many untyped vehicles join it as vehicles have both sources.
   */
  lemma BackfillPredictedIff(db: Db)
    ensures Summary(db).organizationFromUserBackfilled == BuildProfile(db).vehiclesCanBackfillOrgFromUser
            <==> forall v | v in db.vehicles :: v.ownershipType.None? && v.organizationId.None? ==>
                   UserOrganization(db, v.userId).None?
    ensures Summary(db).organizationFromMembershipBackfilled
            == BuildProfile(db).vehiclesCanBackfillOrgFromSingleActiveMembership
            <==> Count(db.vehicles, UntypedFromMembership(db)) == Count(db.vehicles, InBothSources(db))
  {
    BackfillCounts(db);
    CountNone(db.vehicles, UntypedFromUser(db));
    hide Summary, BuildProfile, Count;
  }

  /** One untyped vehicle and one with both sources are enough to miss both predictions. */
  lemma BackfillMispredicted(user: UserId, member: UserId, org: OrgId)
    requires user != member
    ensures var untyped := Vehicle(user, None, None, None);
            var both := Vehicle(member, Some(FLEET), None, None);
            var users, memberships := map[user := Some(org), member := Some(org)], [Membership(member, org, true)];
            var db := Db([untyped, both], users, memberships, []);
            && BuildProfile(db).vehiclesCanBackfillOrgFromUser == 1
            && BuildProfile(db).vehiclesCanBackfillOrgFromSingleActiveMembership == 1
            && Summary(db).organizationFromUserBackfilled == 2
            && Summary(db).organizationFromMembershipBackfilled == 0
  {
    var untyped, both := Vehicle(user, None, None, None), Vehicle(member, Some(FLEET), None, None);
    var m := Membership(member, org, true);
    var db := Db([untyped, both], map[user := Some(org), member := Some(org)], [m], []);
    BackfillCounts(db);
    assert [m][..0] == [];
    assert ActiveOrganizations([], member) == [];
    assert ActiveOrganizations([m], member) == [org];
    assert OneActiveMembership(db.memberships, member) == Some(org);
    CountTwo(untyped, both, BackfillableFromUser(db));
    CountTwo(untyped, both, BackfillableFromMembership(db));
    CountTwo(untyped, both, UntypedFromUser(db));
    CountTwo(untyped, both, UntypedFromMembership(db));
    CountTwo(untyped, both, InBothSources(db));
    hide Count, Summary;
  }

  lemma CountTwo<T>(a: T, b: T, p: T -> bool)
    ensures Count([a, b], p) == (if p(a) then 1 else 0) + (if p(b) then 1 else 0)
  {
    assert [a, b][..1] == [a] && [a][..0] == [];
    assert Count([a], p) == if p(a) then 1 else 0;
  }

  /** A second apply finds no row to update, statement by statement. */
  lemma SecondApplyUpdatesNothing(db: Db)
    ensures var once := Migrated(db);
            && Migrated(once) == once
            && Count(once.vehicles, TakesUserOrganization(once)) == 0
            && Count(once.vehicles, TakesMembership(once)) == 0
            && Count(once.vehicles, MissingOwnership()) == 0
            && Count(once.commands, MissingDomain()) == 0
            && Count(once.commands, NonCanonicalDomain()) == 0
  {
    var once := Migrated(db);
    forall i | 0 <= i < |once.vehicles|
      ensures MigratedVehicle(once, once.vehicles[i]) == once.vehicles[i]
      ensures !TakesUserOrganization(once)(once.vehicles[i]) && !TakesMembership(once)(once.vehicles[i])
      ensures !MissingOwnership()(once.vehicles[i])
    {
      VehicleSettles(db, db.vehicles[i]);
    }
    forall i | 0 <= i < |once.commands|
      ensures MigratedDomain(once.commands[i]) == once.commands[i]
      ensures !MissingDomain()(once.commands[i]) && !NonCanonicalDomain()(once.commands[i])
    {
      DomainSettles(db.commands[i]);
    }
    assert Migrated(once).vehicles == once.vehicles;
    assert Migrated(once).commands == once.commands;
    CountNone(once.vehicles, TakesUserOrganization(once));
    CountNone(once.vehicles, TakesMembership(once));
    CountNone(once.vehicles, MissingOwnership());
    CountNone(once.commands, MissingDomain());
    CountNone(once.commands, NonCanonicalDomain());
  }
}
