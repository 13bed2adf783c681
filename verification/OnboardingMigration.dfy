/** The script that moves open onboarding records to the canonical stages. */
module OnboardingMigration {
  import opened Wrappers
  import opened Onboarding
  import Text

  /** A record of the retired sign-up form. */
  datatype LegacyApplication = LegacyApplication(userId: string, status: string, accountType: Option<string>)

  datatype Counters = Counters(tenantApplicationsScanned: int, tenantApplicationsUpdated: int,
                               userApplicationsScanned: int, userApplicationsConverted: int, skipped: int)

  function ToTenantType(value: Option<string>): TenantType {
    var given := if value.Some? && value.value != "" then value.value else "COMPANY";
    var normalized := Text.Upper(Text.Trim(given, Text.JS_BLANKS));
    if normalized == "INDIVIDUAL" then Individual
    else if normalized == "STATE" then State
    else if normalized == "ORGANIZATION" then Organization
    else Company
  }

  function StageFromLegacyStatus(status: Status): Stage {
    match status
    case PENDING_REVIEW | DRAFT => Submitted
    case INFO_REQUESTED | UNDER_REVIEW => UnderReview
    case APPROVED => ApprovedPendingTier
    case NEGOTIATING | TERMS_AGREED | AWAITING_DEPOSIT => TierConfirmedPendingPayment
    case DEPOSIT_PAID | LEASE_DRAFTING | LEASE_PENDING_SIGNATURE | LEASE_SIGNED | COMPLIANCE_CHECK =>
      PaymentConfirmedPendingActivation
    case COMPLETED => Completed
    case REJECTED | CANCELLED | EXPIRED | WITHDRAWN => Rejected
  }

  predicate IsOpenLegacy(l: LegacyApplication) {
    l.status != "APPROVED" && l.status != "REJECTED"
  }

  function OpenLegacy(legacy: seq<LegacyApplication>): seq<LegacyApplication> {
    if legacy == [] then []
    else
      var front, last := OpenLegacy(legacy[..|legacy| - 1]), legacy[|legacy| - 1];
      if IsOpenLegacy(last) then front + [last] else front
  }

  /** A missing or empty account type reads as a company, and so does any text that names none of the other types. */
  lemma TypeRead(value: Option<string>)
    ensures var text := GetOr(value, "");
            && (ToTenantType(value) == Individual <==> Text.Spells(text, "INDIVIDUAL", Text.JS_BLANKS))
            && (ToTenantType(value) == State <==> Text.Spells(text, "STATE", Text.JS_BLANKS))
            && (ToTenantType(value) == Organization <==> Text.Spells(text, "ORGANIZATION", Text.JS_BLANKS))
  {
    var text := GetOr(value, "");
    var given := if text != "" then text else "COMPANY";
    TypeSpelt(given, "INDIVIDUAL");
    TypeSpelt(given, "STATE");
    TypeSpelt(given, "ORGANIZATION");
    if text == "" {
      CompanyIsCompany();
      NothingSpelt("INDIVIDUAL");
      NothingSpelt("STATE");
      NothingSpelt("ORGANIZATION");
    }
    hide Text.Spells, Text.Trim, Text.Upper;
    assert "INDIVIDUAL"[0] == 'I' && "STATE"[0] == 'S' && "ORGANIZATION"[0] == 'O' && "COMPANY"[0] == 'C';
  }

  lemma CompanyIsCompany()
    ensures Text.Upper(Text.Trim("COMPANY", Text.JS_BLANKS)) == "COMPANY"
  {
    Text.TrimOfPadded("", "COMPANY", "", Text.JS_BLANKS);
    assert "" + "COMPANY" + "" == "COMPANY";
  }

  lemma NothingSpelt(word: string)
    requires word != ""
    ensures !Text.Spells("", word, Text.JS_BLANKS)
  {
  }

  lemma TypeSpelt(text: string, word: string)
    requires word != "" && forall i | 0 <= i < |word| :: 'A' <= word[i] <= 'Z'
    ensures Text.Spells(text, word, Text.JS_BLANKS) <==> Text.Upper(Text.Trim(text, Text.JS_BLANKS)) == word
  {
    Text.SpellsIff(text, word, Text.JS_BLANKS);
    assert Text.Upper(word) == word;
  }

  /** Each retired status is taken for the one of the service that stands nearest, and none is taken for a quote. */
  lemma StatusTakenFor(status: Status)
    ensures StageToLegacyStatus(StageFromLegacyStatus(status))
            == match status
               case DRAFT => PENDING_REVIEW
               case INFO_REQUESTED => UNDER_REVIEW
               case NEGOTIATING | TERMS_AGREED => AWAITING_DEPOSIT
               case LEASE_DRAFTING | LEASE_PENDING_SIGNATURE | LEASE_SIGNED | COMPLIANCE_CHECK => DEPOSIT_PAID
               case CANCELLED | EXPIRED | WITHDRAWN => REJECTED
               case _ => status
    ensures StageFromLegacyStatus(status) !in {QuotePending, QuoteAcceptedPendingActivation}
  {
  }

  // ---- What the two loops leave behind -----------------------------------------------

  function Restaged(apps: seq<Application>): (r: seq<Application>)
    ensures |r| == |apps|
  {
    seq(|apps|, i requires 0 <= i < |apps| => apps[i].(stage := StageFromLegacyStatus(apps[i].status)))
  }

  predicate Stale(app: Application) {
    app.stage != StageFromLegacyStatus(app.status)
  }

  ghost function CountStale(apps: seq<Application>): nat {
    if apps == [] then 0
    else CountStale(apps[..|apps| - 1]) + if Stale(apps[|apps| - 1]) then 1 else 0
  }

  /** The rows counted as stale are those whose stage differs from the one their status stands for. */
  lemma {:induction false} StaleAre(apps: seq<Application>)
    ensures CountStale(apps) == |StaleAt(apps)|
  {
    if apps == [] {
      assert StaleAt(apps) == {};
    } else {
      var front, last := apps[..|apps| - 1], apps[|apps| - 1];
      StaleAre(front);
      StaleOneMore(front, last);
      assert apps == front + [last];
    }
  }

  ghost function StaleAt(apps: seq<Application>): set<int> {
    set i | 0 <= i < |apps| && apps[i].stage != StageFromLegacyStatus(apps[i].status)
  }

  lemma StaleOneMore(front: seq<Application>, last: Application)
    ensures |StaleAt(front + [last])|
            == |StaleAt(front)| + if last.stage != StageFromLegacyStatus(last.status) then 1 else 0
  {
    hide StageFromLegacyStatus;
    var all := front + [last];
    assert forall i | 0 <= i < |front| :: all[i] == front[i];
    var added := if last.stage != StageFromLegacyStatus(last.status) then {|front|} else {};
    assert StaleAt(all) == StaleAt(front) + added;
  }

  ghost function Converted(apps: seq<Application>, open: seq<LegacyApplication>): seq<Application> {
    if open == [] then apps
    else
      var before, l := Converted(apps, open[..|open| - 1]), open[|open| - 1];
      if HasOpen(before, l.userId) then before else before + [NewApplication(l.userId, ToTenantType(l.accountType))]
  }

  /** How many of the records have no open application in a fixed table: the dry run's answer. */
  ghost function CountUnserved(apps: seq<Application>, open: seq<LegacyApplication>): nat {
    if open == [] then 0
    else CountUnserved(apps, open[..|open| - 1]) + if HasOpen(apps, open[|open| - 1].userId) then 0 else 1
  }

  ghost function Migrated(apps: seq<Application>, legacy: seq<LegacyApplication>): seq<Application> {
    Converted(Restaged(apps), OpenLegacy(legacy))
  }

  method FindOpen(apps: seq<Application>, userId: string) returns (found: bool)
    ensures found <==> HasOpen(apps, userId)
  {
    var i := 0;
    while i < |apps|
      invariant 0 <= i <= |apps|
      invariant forall j | 0 <= j < i :: !(apps[j].applicantId == userId && !Terminal(apps[j].stage))
    {
      if apps[i].applicantId == userId && !Terminal(apps[i].stage) {
        return true;
      }
      i := i + 1;
    }
    return false;
  }

  /** The first loop: every row gets the stage its legacy status stands for. */
  method RestageAll(apps: seq<Application>, dryRun: bool)
      returns (rows: seq<Application>, scanned: nat, updated: nat, skipped: nat)
    ensures rows == if dryRun then apps else Restaged(apps)
    ensures scanned == |apps| && updated == CountStale(apps) && skipped == scanned - updated
  {
    rows := apps;
    scanned, updated, skipped := 0, 0, 0;
    var i := 0;
    while i < |apps|
      invariant 0 <= i <= |apps| == |rows| && scanned == i
      invariant updated == CountStale(apps[..i]) && skipped == i - updated
      invariant rows[i..] == apps[i..]
      invariant dryRun ==> rows == apps
      invariant !dryRun ==> forall j | 0 <= j < i :: rows[j] == Restaged(apps)[j]
    {
      scanned := scanned + 1;
      assert apps[..i + 1][..i] == apps[..i];
      assert rows[i] == rows[i..][0] == apps[i];
      var derivedStage := StageFromLegacyStatus(rows[i].status);
      if rows[i].stage == derivedStage {
        skipped := skipped + 1;
      } else {
        if !dryRun {
          rows := rows[i := rows[i].(stage := derivedStage)];
        }
        updated := updated + 1;
      }
      i := i + 1;
    }
    assert apps[..i] == apps;
  }

  /** The second loop: every open legacy record whose applicant has no open application gets one. */
  method ConvertAll(apps: seq<Application>, open: seq<LegacyApplication>, dryRun: bool)
      returns (rows: seq<Application>, scanned: nat, converted: int, skipped: int)
    ensures rows == if dryRun then apps else Converted(apps, open)
    ensures scanned == |open| && skipped == scanned - converted
    ensures converted == if dryRun then CountUnserved(apps, open) else |rows| - |apps|
  {
    hide HasOpen, ToTenantType;
    rows := apps;
    scanned, converted, skipped := 0, 0, 0;
    while scanned < |open|
      invariant 0 <= scanned <= |open|
      invariant rows == if dryRun then apps else Converted(apps, open[..scanned])
      invariant converted == if dryRun then CountUnserved(apps, open[..scanned]) else |rows| - |apps|
      invariant skipped == scanned - converted
    {
      var legacy := open[scanned];
      scanned := scanned + 1;
      assert open[..scanned][..scanned - 1] == open[..scanned - 1];
      var existing := FindOpen(rows, legacy.userId);
      if existing {
        skipped := skipped + 1;
      } else {
        if !dryRun {
          rows := rows + [NewApplication(legacy.userId, ToTenantType(legacy.accountType))];
        }
        converted := converted + 1;
      }
    }
    assert open[..scanned] == open;
  }

  method Migrate(apps: seq<Application>, legacy: seq<LegacyApplication>, dryRun: bool)
      returns (rows: seq<Application>, result: Counters)
    ensures rows == if dryRun then apps else Migrated(apps, legacy)
    ensures result.tenantApplicationsScanned == |apps| && result.userApplicationsScanned == |OpenLegacy(legacy)|
    ensures result.tenantApplicationsUpdated == CountStale(apps)
    ensures result.userApplicationsConverted
            == if dryRun then CountUnserved(apps, OpenLegacy(legacy)) else |rows| - |apps|
    ensures result.skipped == result.tenantApplicationsScanned - result.tenantApplicationsUpdated
                              + result.userApplicationsScanned - result.userApplicationsConverted
  {
    var restaged, scanned, updated, upToDate := RestageAll(apps, dryRun);
    var open := OpenLegacy(legacy);
    var userScanned, converted, served;
    rows, userScanned, converted, served := ConvertAll(restaged, open, dryRun);
    result := Counters(scanned, updated, userScanned, converted, upToDate + served);
  }

  // ---- Safety ------------------------------------------------------------------------

  ghost predicate StatusFollowsStage(app: Application) {
    app.status == StageToLegacyStatus(app.stage)
  }

  ghost predicate Consistent(apps: seq<Application>) {
    forall i | 0 <= i < |apps| :: StatusFollowsStage(apps[i])
  }

  /** The statuses that stand for an application still under way, and those the service itself writes. */
  predicate OpenStatus(status: Status) {
    status !in {COMPLETED, REJECTED, CANCELLED, EXPIRED, WITHDRAWN}
  }

  predicate ServiceStatus(status: Status) {
    status in {PENDING_REVIEW, UNDER_REVIEW, APPROVED, AWAITING_DEPOSIT, DEPOSIT_PAID, COMPLETED, REJECTED}
  }

  ghost predicate HasOpenStatus(apps: seq<Application>, applicantId: string) {
    exists i :: 0 <= i < |apps| && apps[i].applicantId == applicantId && OpenStatus(apps[i].status)
  }

  ghost predicate AtMostOneOpenStatus(apps: seq<Application>) {
    forall i, j | 0 <= i < j < |apps| && apps[i].applicantId == apps[j].applicantId ::
      !(OpenStatus(apps[i].status) && OpenStatus(apps[j].status))
  }

  function Moved(app: Application): Application {
    app.(stage := StageFromLegacyStatus(app.status))
  }

  lemma MovedRow(app: Application)
    ensures !Terminal(Moved(app).stage) <==> OpenStatus(app.status)
    ensures StatusFollowsStage(Moved(app)) <==> ServiceStatus(app.status)
  {
  }

  /**
   * On rows written by the service the derived stage keeps the status equation, the openness, and all but quote stages.
   */
  lemma RestageKeepsRow(app: Application)
    requires StatusFollowsStage(app)
    ensures var moved := app.(stage := StageFromLegacyStatus(app.status));
            && StatusFollowsStage(moved)
            && (Terminal(moved.stage) <==> Terminal(app.stage))
            && (moved == app <==> app.stage !in {QuotePending, QuoteAcceptedPendingActivation})
  {
  }

  lemma {:induction false} ConvertedShape(apps: seq<Application>, open: seq<LegacyApplication>)
    ensures |Converted(apps, open)| >= |apps| && Converted(apps, open)[..|apps|] == apps
    ensures forall i | |apps| <= i < |Converted(apps, open)| :: Converted(apps, open)[i].stage == Submitted
              && StatusFollowsStage(Converted(apps, open)[i])
    ensures forall l | l in open :: HasOpen(Converted(apps, open), l.userId)
    ensures AtMostOneOpen(apps) ==> AtMostOneOpen(Converted(apps, open))
  {
    if open != [] {
      var front, l := open[..|open| - 1], open[|open| - 1];
      ConvertedShape(apps, front);
      var before, after := Converted(apps, front), Converted(apps, open);
      forall u | HasOpen(before, u) ensures HasOpen(after, u) {
        var i :| 0 <= i < |before| && before[i].applicantId == u && !Terminal(before[i].stage);
        assert after[i] == before[i];
      }
      if !HasOpen(before, l.userId) {
        assert after[|before|].applicantId == l.userId && !Terminal(after[|before|].stage);
      }
      assert forall x | x in open :: x in front || x == l;
    }
  }

  /** A new application of a user with a legacy record that was neither approved nor rejected. */
  ghost predicate MadeFrom(app: Application, legacy: seq<LegacyApplication>) {
    exists l :: l in legacy && l.status != "APPROVED" && l.status != "REJECTED"
                && app == Application(l.userId, ToTenantType(l.accountType), Submitted, PENDING_REVIEW,
                                      None, None, None, None, None, None, None, None)
  }

  lemma {:induction false} ConvertedFrom(apps: seq<Application>, open: seq<LegacyApplication>,
                                         legacy: seq<LegacyApplication>)
    requires forall l | l in open :: l in legacy && IsOpenLegacy(l)
    ensures |Converted(apps, open)| >= |apps|
    ensures forall i | |apps| <= i < |Converted(apps, open)| :: MadeFrom(Converted(apps, open)[i], legacy)
  {
    if open != [] {
      var front, l := open[..|open| - 1], open[|open| - 1];
      assert l in open && forall x | x in front :: x in open;
      ConvertedFrom(apps, front, legacy);
      hide HasOpen, ToTenantType;
      assert MadeFrom(NewApplication(l.userId, ToTenantType(l.accountType)), legacy);
    }
  }

  lemma RestagedOpen(apps: seq<Application>)
    ensures forall u :: HasOpen(Restaged(apps), u) <==> HasOpenStatus(apps, u)
    ensures AtMostOneOpen(Restaged(apps)) <==> AtMostOneOpenStatus(apps)
  {
    var restaged := Restaged(apps);
    forall i | 0 <= i < |apps|
      ensures restaged[i].applicantId == apps[i].applicantId
      ensures !Terminal(restaged[i].stage) <==> OpenStatus(apps[i].status)
    {
      MovedRow(apps[i]);
      assert restaged[i] == Moved(apps[i]);
    }
    hide Restaged, Terminal, OpenStatus;
    forall u ensures HasOpen(restaged, u) <==> HasOpenStatus(apps, u) {
      if i :| 0 <= i < |apps| && apps[i].applicantId == u && OpenStatus(apps[i].status) {
        assert restaged[i].applicantId == u && !Terminal(restaged[i].stage);
      }
    }
  }

  /**
   * On every table, whatever stages its rows carry: each row is open afterwards exactly when its status stands for an
   * application under way, follows the status equation exactly when its status is one the service writes, and is
   * otherwise as it was; and every applicant with an open legacy record holds an open application.
   */
  lemma MigratedRows(apps: seq<Application>, legacy: seq<LegacyApplication>)
    ensures |Migrated(apps, legacy)| >= |apps|
    ensures forall i | 0 <= i < |apps| ::
              var row := Migrated(apps, legacy)[i];
              && row == apps[i].(stage := row.stage)
              && (!Terminal(row.stage) <==> OpenStatus(apps[i].status))
              && (StatusFollowsStage(row) <==> ServiceStatus(apps[i].status))
    ensures Consistent(Migrated(apps, legacy)) <==> forall i | 0 <= i < |apps| :: ServiceStatus(apps[i].status)
    ensures forall l | l in legacy && l.status != "APPROVED" && l.status != "REJECTED" ::
              HasOpen(Migrated(apps, legacy), l.userId)
    ensures forall i | |apps| <= i < |Migrated(apps, legacy)| :: MadeFrom(Migrated(apps, legacy)[i], legacy)
  {
    var restaged, after := Restaged(apps), Migrated(apps, legacy);
    ConvertedShape(restaged, OpenLegacy(legacy));
    OpenLegacyMembers(legacy);
    ConvertedFrom(restaged, OpenLegacy(legacy), legacy);
    forall i | 0 <= i < |apps|
      ensures after[i] == Moved(apps[i])
      ensures !Terminal(after[i].stage) <==> OpenStatus(apps[i].status)
      ensures StatusFollowsStage(after[i]) <==> ServiceStatus(apps[i].status)
    {
      assert after[..|apps|][i] == after[i];
      MovedRow(apps[i]);
    }
  }

  /** The script leaves nobody with two open applications if and only if nobody had two rows with an open status. */
  lemma OneOpenAfterIff(apps: seq<Application>, legacy: seq<LegacyApplication>)
    ensures AtMostOneOpen(Migrated(apps, legacy)) <==> AtMostOneOpenStatus(apps)
  {
    var restaged, after := Restaged(apps), Migrated(apps, legacy);
    RestagedOpen(apps);
    ConvertedShape(restaged, OpenLegacy(legacy));
    hide Restaged, AtMostOneOpenStatus;
    if AtMostOneOpen(after) {
      forall i, j | 0 <= i < j < |restaged| && restaged[i].applicantId == restaged[j].applicantId
        ensures Terminal(restaged[i].stage) || Terminal(restaged[j].stage)
      {
        assert after[..|apps|][i] == after[i] && after[..|apps|][j] == after[j];
      }
    }
  }

  /** So it can open a second one: two rows of one applicant, of which only the first is at an open stage beforehand. */
  lemma MigrationOpensASecond(who: string, kind: TenantType, legacy: seq<LegacyApplication>)
    ensures var draft := NewApplication(who, kind).(status := DRAFT);
            var signed := NewApplication(who, kind).(stage := Rejected, status := LEASE_SIGNED);
            AtMostOneOpen([draft, signed]) && !AtMostOneOpen(Migrated([draft, signed], legacy))
  {
    var draft := NewApplication(who, kind).(status := DRAFT);
    var signed := NewApplication(who, kind).(stage := Rejected, status := LEASE_SIGNED);
    var apps := [draft, signed];
    assert apps[0].applicantId == apps[1].applicantId && OpenStatus(apps[0].status) && OpenStatus(apps[1].status);
    OneOpenAfterIff(apps, legacy);
    hide Migrated;
  }

  /** On rows the service wrote the stages already say what the statuses do. */
  lemma ConsistentOpen(apps: seq<Application>)
    requires Consistent(apps)
    ensures forall i | 0 <= i < |apps| ::
              ServiceStatus(apps[i].status) && (!Terminal(apps[i].stage) <==> OpenStatus(apps[i].status))
    ensures forall u :: HasOpen(apps, u) <==> HasOpenStatus(apps, u)
    ensures AtMostOneOpen(apps) <==> AtMostOneOpenStatus(apps)
  {
    forall i | 0 <= i < |apps|
      ensures ServiceStatus(apps[i].status) && (!Terminal(apps[i].stage) <==> OpenStatus(apps[i].status))
    {
      assert StatusFollowsStage(apps[i]);
    }
    hide Terminal, OpenStatus, StatusFollowsStage;
    forall u ensures HasOpen(apps, u) <==> HasOpenStatus(apps, u) {
      if i :| 0 <= i < |apps| && apps[i].applicantId == u && OpenStatus(apps[i].status) {
        assert !Terminal(apps[i].stage);
      }
    }
  }

  /**
   * For rows the service wrote this means that the migration keeps them consistent and each row's openness, and never
   * gives an applicant a second open application.
   */
  lemma MigrationSafe(apps: seq<Application>, legacy: seq<LegacyApplication>)
    requires Consistent(apps)
    ensures Consistent(Migrated(apps, legacy))
    ensures |Migrated(apps, legacy)| >= |apps|
    ensures forall i | 0 <= i < |apps| :: Terminal(Migrated(apps, legacy)[i].stage) <==> Terminal(apps[i].stage)
    ensures AtMostOneOpen(apps) ==> AtMostOneOpen(Migrated(apps, legacy))
    ensures forall l | l in legacy && IsOpenLegacy(l) :: HasOpen(Migrated(apps, legacy), l.userId)
  {
    MigratedRows(apps, legacy);
    OneOpenAfterIff(apps, legacy);
    ConsistentOpen(apps);
    hide Migrated, AtMostOneOpen, AtMostOneOpenStatus, HasOpen, Terminal, OpenStatus, ServiceStatus;
  }

  /** The open records keep their order. */
  lemma {:induction false} OpenLegacyInOrder(legacy: seq<LegacyApplication>) returns (places: seq<nat>)
    ensures |places| == |OpenLegacy(legacy)| && forall k | 0 < k < |places| :: places[k - 1] < places[k]
    ensures forall k | 0 <= k < |places| :: places[k] < |legacy| && OpenLegacy(legacy)[k] == legacy[places[k]]
  {
    places := [];
    if legacy != [] {
      var n := |legacy| - 1;
      places := OpenLegacyInOrder(legacy[..n]);
      if IsOpenLegacy(legacy[n]) {
        places := places + [n];
      }
    }
  }

  lemma {:induction false} OpenLegacyMembers(legacy: seq<LegacyApplication>)
    ensures forall l :: l in OpenLegacy(legacy) <==> l in legacy && IsOpenLegacy(l)
  {
    if legacy != [] {
      OpenLegacyMembers(legacy[..|legacy| - 1]);
      assert legacy == legacy[..|legacy| - 1] + [legacy[|legacy| - 1]];
    }
  }

  // ---- Idempotence -------------------------------------------------------------------

  lemma {:induction false} NothingStale(apps: seq<Application>)
    requires forall i | 0 <= i < |apps| :: !Stale(apps[i])
    ensures CountStale(apps) == 0 && Restaged(apps) == apps
  {
    if apps != [] {
      NothingStale(apps[..|apps| - 1]);
      assert forall i | 0 <= i < |apps| :: Restaged(apps)[i] == apps[i];
    }
  }

  lemma {:induction false} NothingToConvert(apps: seq<Application>, open: seq<LegacyApplication>)
    requires forall l | l in open :: HasOpen(apps, l.userId)
    ensures Converted(apps, open) == apps
  {
    if open != [] {
      assert forall l | l in open[..|open| - 1] :: l in open;
      NothingToConvert(apps, open[..|open| - 1]);
    }
  }

  /** Whatever the rows were, a second run finds nothing stale and nothing to convert. */
  lemma SecondRunSkipsAll(apps: seq<Application>, legacy: seq<LegacyApplication>)
    ensures var once := Migrated(apps, legacy);
            CountStale(once) == 0 && Migrated(once, legacy) == once
  {
    var once, restaged := Migrated(apps, legacy), Restaged(apps);
    ConvertedShape(restaged, OpenLegacy(legacy));
    forall i | 0 <= i < |once| ensures !Stale(once[i]) {
      if i < |apps| { assert once[..|apps|][i] == restaged[i]; }
    }
    NothingStale(once);
    NothingToConvert(once, OpenLegacy(legacy));
  }

  // ---- The dry run -------------------------------------------------------------------

  ghost predicate DistinctUsers(open: seq<LegacyApplication>) {
    forall i, j | 0 <= i < j < |open| :: open[i].userId != open[j].userId
  }

  lemma {:induction false} ConvertedCount(rows: seq<Application>, open: seq<LegacyApplication>)
    requires DistinctUsers(open)
    ensures |Converted(rows, open)| - |rows| == CountUnserved(rows, open)
    ensures forall u ::
              HasOpen(Converted(rows, open), u) <==> HasOpen(rows, u) || exists l :: l in open && l.userId == u
  {
    if open != [] {
      var front, l := open[..|open| - 1], open[|open| - 1];
      FrontDistinct(open);
      ConvertedCount(rows, front);
      var before := Converted(rows, front);
      assert open == front + [l];
      assert HasOpen(before, l.userId) <==> HasOpen(rows, l.userId);
      HasOpenAppend(before, NewApplication(l.userId, ToTenantType(l.accountType)));
      hide HasOpen, ToTenantType, NewApplication;
      assert forall x :: x in open <==> x in front || x == l;
    }
  }

  lemma HasOpenAppend(rows: seq<Application>, app: Application)
    ensures forall u :: HasOpen(rows + [app], u) <==> HasOpen(rows, u) || (app.applicantId == u && !Terminal(app.stage))
  {
    var after := rows + [app];
    forall u ensures HasOpen(after, u) <==> HasOpen(rows, u) || (app.applicantId == u && !Terminal(app.stage)) {
      if i :| 0 <= i < |rows| && rows[i].applicantId == u && !Terminal(rows[i].stage) {
        assert after[i] == rows[i];
      }
      assert after[|rows|] == app;
    }
  }

  lemma FrontDistinct(open: seq<LegacyApplication>)
    requires open != [] && DistinctUsers(open)
    ensures DistinctUsers(open[..|open| - 1])
    ensures forall x | x in open[..|open| - 1] :: x.userId != open[|open| - 1].userId
  {
    var front := open[..|open| - 1];
    assert forall i | 0 <= i < |front| :: front[i] == open[i];
  }

  /** How many of the records belong to a user with the property. */
  ghost function CountUsers(open: seq<LegacyApplication>, p: string -> bool): nat {
    if open == [] then 0
    else CountUsers(open[..|open| - 1], p) + if p(open[|open| - 1].userId) then 1 else 0
  }

  /** The user has an application at an open stage, but none with an open status; or the other way round. */
  ghost function OpenByStageOnly(apps: seq<Application>): string -> bool {
    (u: string) => HasOpen(apps, u) && !HasOpenStatus(apps, u)
  }

  ghost function OpenByStatusOnly(apps: seq<Application>): string -> bool {
    (u: string) => HasOpenStatus(apps, u) && !HasOpen(apps, u)
  }

  lemma {:induction false} UnservedDiffer(apps: seq<Application>, rows: seq<Application>, open: seq<LegacyApplication>)
    requires forall u :: HasOpen(rows, u) <==> HasOpenStatus(apps, u)
    ensures CountUnserved(apps, open) + CountUsers(open, OpenByStageOnly(apps))
            == CountUnserved(rows, open) + CountUsers(open, OpenByStatusOnly(apps))
  {
    if open != [] {
      UnservedDiffer(apps, rows, open[..|open| - 1]);
      hide HasOpen, HasOpenStatus;
    }
  }

  /**
   * With one legacy record per user, as the table's unique index demands, a real run creates as many applications as
   * there are records whose user has no application with an open status. The dry run looks at the old stages instead,
   * so it misses the users open by stage only and counts those open by status only.
   */
  lemma RealRunCreates(apps: seq<Application>, legacy: seq<LegacyApplication>)
    requires DistinctUsers(OpenLegacy(legacy))
    ensures var open := OpenLegacy(legacy);
            var created := |Migrated(apps, legacy)| - |apps|;
            && created == CountUnserved(Restaged(apps), open)
            && CountUnserved(apps, open) + CountUsers(open, OpenByStageOnly(apps))
               == created + CountUsers(open, OpenByStatusOnly(apps))
  {
    ConvertedCount(Restaged(apps), OpenLegacy(legacy));
    RestagedOpen(apps);
    UnservedDiffer(apps, Restaged(apps), OpenLegacy(legacy));
  }

  /** The dry run's count is right if and only if the users open by stage only are as many as those by status only. */
  lemma DryRunRightIff(apps: seq<Application>, legacy: seq<LegacyApplication>)
    requires DistinctUsers(OpenLegacy(legacy))
    ensures var open := OpenLegacy(legacy);
            |Migrated(apps, legacy)| - |apps| == CountUnserved(apps, open)
            <==> CountUsers(open, OpenByStageOnly(apps)) == CountUsers(open, OpenByStatusOnly(apps))
  {
    RealRunCreates(apps, legacy);
    hide Migrated, CountUnserved, CountUsers;
  }

  /** On a table whose stages are still the column's default the dry run promises too little, or just enough. */
  lemma DefaultStagesUndercount(apps: seq<Application>, legacy: seq<LegacyApplication>)
    requires DistinctUsers(OpenLegacy(legacy)) && forall i | 0 <= i < |apps| :: apps[i].stage == Submitted
    ensures var open := OpenLegacy(legacy);
            |Migrated(apps, legacy)| - |apps|
            == CountUnserved(apps, open) + CountUsers(open, OpenByStageOnly(apps))
  {
    RealRunCreates(apps, legacy);
    forall u ensures !OpenByStatusOnly(apps)(u) {
      if i :| 0 <= i < |apps| && apps[i].applicantId == u && OpenStatus(apps[i].status) {
        assert !Terminal(apps[i].stage) && HasOpen(apps, u);
      }
    }
    hide Migrated, OpenByStatusOnly, OpenByStageOnly;
    NoUsers(OpenLegacy(legacy), OpenByStatusOnly(apps));
  }

  lemma {:induction false} NoUsers(open: seq<LegacyApplication>, p: string -> bool)
    requires forall u :: !p(u)
    ensures CountUsers(open, p) == 0
  {
    if open != [] {
      NoUsers(open[..|open| - 1], p);
    }
  }

  /** The smallest case: a withdrawn application at the default stage hides its applicant from the dry run. */
  lemma DryRunMissesWithdrawn(who: string, kind: TenantType, account: Option<string>, status: string)
    requires status != "APPROVED" && status != "REJECTED"
    ensures var apps := [NewApplication(who, kind).(status := WITHDRAWN)];
            var legacy := [LegacyApplication(who, status, account)];
            CountUnserved(apps, OpenLegacy(legacy)) == 0 && |Migrated(apps, legacy)| == |apps| + 1
  {
    var apps, l := [NewApplication(who, kind).(status := WITHDRAWN)], LegacyApplication(who, status, account);
    assert apps[0].applicantId == who && apps[0].stage == Submitted && HasOpen(apps, who);
    assert !HasOpenStatus(apps, who) && OpenByStageOnly(apps)(who);
    hide HasOpen, HasOpenStatus, NewApplication, OpenByStageOnly;
    OneRecord(apps, l, OpenByStageOnly(apps));
    hide OpenLegacy, CountUnserved, CountUsers, Migrated;
    DefaultStagesUndercount(apps, [l]);
  }

  lemma OneRecord(apps: seq<Application>, l: LegacyApplication, p: string -> bool)
    requires IsOpenLegacy(l)
    ensures OpenLegacy([l]) == [l] && DistinctUsers([l])
    ensures CountUnserved(apps, [l]) == if HasOpen(apps, l.userId) then 0 else 1
    ensures CountUsers([l], p) == if p(l.userId) then 1 else 0
  {
    hide HasOpen, IsOpenLegacy;
    assert [l][..0] == [];
    assert OpenLegacy([]) == [] && CountUnserved(apps, []) == 0 && CountUsers([], p) == 0;
  }

  /** On service-written rows the dry run's count is exactly what the real run creates. */
  lemma DryRunPredicts(apps: seq<Application>, legacy: seq<LegacyApplication>)
    requires Consistent(apps) && DistinctUsers(OpenLegacy(legacy))
    ensures |Migrated(apps, legacy)| - |apps| == CountUnserved(apps, OpenLegacy(legacy))
  {
    ConsistentOpen(apps);
    DryRunRightIff(apps, legacy);
    forall u ensures !OpenByStageOnly(apps)(u) && !OpenByStatusOnly(apps)(u) {}
    hide Migrated, OpenByStageOnly, OpenByStatusOnly;
    NoUsers(OpenLegacy(legacy), OpenByStageOnly(apps));
    NoUsers(OpenLegacy(legacy), OpenByStatusOnly(apps));
  }

  // ---- What the migration costs ------------------------------------------------------

  predicate Settled(app: Application) {
    app.paymentStatus == Some("SETTLED") && app.paymentSettledAt.Some?
  }

  /** Any row: it is left "payment confirmed" without a settled payment exactly for these statuses. */
  lemma UnpaidConfirmedIff(app: Application)
    ensures Moved(app).stage == PaymentConfirmedPendingActivation && !Settled(Moved(app))
            <==> app.status in {DEPOSIT_PAID, LEASE_DRAFTING, LEASE_PENDING_SIGNATURE, LEASE_SIGNED, COMPLIANCE_CHECK}
                 && !Settled(app)
  {
  }

  /** Any row: when it satisfies the service's invariant afterwards, in terms of what it carried before. */
  lemma MovedCoherentIff(app: Application)
    ensures Coherent(Moved(app))
            <==> && ServiceStatus(app.status)
                 && (app.status == DEPOSIT_PAID ==> Settled(app))
                 && (app.status == APPROVED || app.selectedTierCode.Some? ==>
                       app.approvedAt.Some? && app.status !in {PENDING_REVIEW, UNDER_REVIEW})
  {
  }

  /**
   * The migration does not keep the service's payment invariant: an accepted enterprise quote becomes
   * "payment confirmed". A coherent row stays coherent exactly when it is not such a row, or is settled anyway.
   */
  lemma RestageKeepsCoherentIff(app: Application)
    requires Coherent(app)
    ensures Coherent(Moved(app)) <==> app.stage != QuoteAcceptedPendingActivation || Settled(app)
  {
    MovedCoherentIff(app);
  }

  lemma AcceptedQuoteLosesCoherence()
    ensures exists app ::
              && Coherent(app) && app.stage == QuoteAcceptedPendingActivation && app.paymentStatus == None
              && !Coherent(Moved(app))
  {
    var app := At(NewApplication("ann", Company), QuoteAcceptedPendingActivation).(
      approvedAt := Some(1), selectedTierCode := Some("T4"), pricingSnapshot := Some(PricingSnapshot("T4", true, None)),
      enterpriseQuoteStatus := Some("ACCEPTED"));
    assert Coherent(app);
    RestageKeepsCoherentIff(app);
  }

  /**
   * A quote stays honoured exactly when the row has no custom price or an accepted quote: the script takes every row
   * out of the stage in which a quote may be pending.
   */
  lemma MovedQuoteIff(app: Application)
    ensures QuoteHonoured(Moved(app)) <==> !CustomPriced(app) || app.enterpriseQuoteStatus == Some("ACCEPTED")
    ensures QuoteHonoured(app) ==>
              (QuoteHonoured(Moved(app))
               <==> !(app.stage == QuotePending && CustomPriced(app) && app.enterpriseQuoteStatus != Some("ACCEPTED")))
  {
  }

  lemma PendingQuoteDropped(who: string, kind: TenantType, tier: string, now: int)
    ensures var app := At(NewApplication(who, kind), QuotePending).(
              approvedAt := Some(now), selectedTierCode := Some(tier),
              pricingSnapshot := Some(PricingSnapshot(tier, true, None)), enterpriseQuoteStatus := Some("PENDING"));
            Coherent(app) && QuoteHonoured(app) && !QuoteHonoured(Moved(app))
  {
  }

  /**
   * A service-written application with a pending quote is stranded by the script: nothing gets it further but a payment
   * sync, and a sync does whenever a payment is linked and known.
   */
  lemma PendingQuoteStranded(app: Application, op: Op)
    requires Coherent(app) && app.stage == QuotePending && !op.Create?
    ensures RowStep(Moved(app), op).Ok?
            <==> && op.SyncPaymentStatus?
                 && GetOr(FirstNonEmpty(op.intentId, app.paymentIntentId), "") != ""
                 && op.answer.Some?
  {
    hide Text.Trim, Text.Upper;
  }
}
