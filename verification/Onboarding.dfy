/** The tenant onboarding stage machine: the operations of the applications service on one table of applications. */
module Onboarding {
  import opened Wrappers
  import Text

  datatype Stage =
    | Submitted | UnderReview | ApprovedPendingTier | Rejected | TierConfirmedPendingPayment | QuotePending
    | PaymentConfirmedPendingActivation | QuoteAcceptedPendingActivation | Completed

  datatype Status =
    | DRAFT | PENDING_REVIEW | INFO_REQUESTED | UNDER_REVIEW | APPROVED | REJECTED | NEGOTIATING | TERMS_AGREED
    | AWAITING_DEPOSIT | DEPOSIT_PAID | LEASE_DRAFTING | LEASE_PENDING_SIGNATURE | LEASE_SIGNED
    | COMPLIANCE_CHECK | COMPLETED | WITHDRAWN | CANCELLED | EXPIRED

  datatype TenantType = Individual | Company | State | Organization

  datatype BillingCycle = Monthly | Annual

  /** Amounts are in cents. */
  datatype PricingSnapshot = PricingSnapshot(tierCode: string, isCustomPricing: bool, dueNowAmount: Option<int>)

  /** The active price list entry of a tier; `dueNow` gives the sum due per billing cycle that has a price. */
  datatype Pricing = Pricing(isCustomPricing: bool, accountTypes: set<TenantType>, whiteLabelAvailable: bool,
                             dueNow: map<BillingCycle, int>)

  datatype PaymentIntent = PaymentIntent(id: string, status: string)

  /** The fields of an application that its stage machine reads or writes. */
  datatype Application = Application(
    applicantId: string,
    tenantType: TenantType,
    stage: Stage,
    status: Status,
    approvedAt: Option<int>,
    selectedTierCode: Option<string>,
    pricingSnapshot: Option<PricingSnapshot>,
    paymentIntentId: Option<string>,
    paymentStatus: Option<string>,
    paymentSettledAt: Option<int>,
    enterpriseQuoteStatus: Option<string>,
    provisionedOrganizationId: Option<string>)

  datatype Error =
    | NotFound | NotOwner | AlreadyActive | SiteNotFound | WrongStage | ReasonRequired | InvalidRole | DomainTaken
    | NoActivePricing | UnsupportedTenantType | WhiteLabelUnavailable | BillingCycleRequired | PriceMissing
    | PaymentUnavailable | NoLinkedIntent | IntentNotFound | TierRequired | UnsupportedTier | ExternalFailure

  function StageToLegacyStatus(stage: Stage): Status {
    match stage
    case Submitted => PENDING_REVIEW
    case UnderReview => UNDER_REVIEW
    case ApprovedPendingTier => APPROVED
    case TierConfirmedPendingPayment | QuotePending => AWAITING_DEPOSIT
    case PaymentConfirmedPendingActivation | QuoteAcceptedPendingActivation => DEPOSIT_PAID
    case Completed => COMPLETED
    case Rejected => REJECTED
  }

  predicate Terminal(stage: Stage) {
    stage == Completed || stage == Rejected
  }

  predicate IsReviewable(stage: Stage) {
    stage == Submitted || stage == UnderReview
  }

  function FirstNonEmpty(a: Option<string>, b: Option<string>): Option<string> {
    if a.Some? && a.value != "" then a else b
  }

  function At(app: Application, stage: Stage): Application {
    app.(stage := stage, status := StageToLegacyStatus(stage))
  }

  // ---- What each operation does to its row -------------------------------------------

  function NewApplication(applicantId: string, tenantType: TenantType): Application {
    Application(applicantId, tenantType, Submitted, StageToLegacyStatus(Submitted),
                None, None, None, None, None, None, None, None)
  }

  function UpdatedOwn(app: Application, tenantType: Option<TenantType>, siteFound: bool): Result<Application, Error> {
    if app.stage !in {Submitted, UnderReview, ApprovedPendingTier} then Err(WrongStage)
    else if !siteFound then Err(SiteNotFound)
    else Ok(app.(tenantType := GetOr(tenantType, app.tenantType)))
  }

  datatype ReviewAction = TakeUp | Reject(reason: Option<string>, notes: Option<string>)
                        | Approve(roleValid: bool, domainFree: bool, now: int)

  function Reviewed(app: Application, action: ReviewAction): Result<Application, Error> {
    if app.stage == Completed then Err(WrongStage)
    else if !IsReviewable(app.stage) then Err(WrongStage)
    else
      match action
      case TakeUp => Ok(At(app, UnderReview))
      case Reject(reason, notes) =>
        if Text.NormalizeOptional(FirstNonEmpty(reason, notes)).None? then Err(ReasonRequired)
        else Ok(At(app, Rejected).(approvedAt := None))
      case Approve(roleValid, domainFree, now) =>
        if !roleValid then Err(InvalidRole)
        else if !domainFree then Err(DomainTaken)
        else Ok(At(app, ApprovedPendingTier).(approvedAt := Some(now)))
  }

  /** `pricingOf` is the newest active price list entry of each tier code. */
  function TierConfirmed(app: Application, code: string, pricingOf: map<string, Pricing>, cycle: Option<BillingCycle>,
                         whiteLabel: bool): Result<Application, Error> {
    var tierCode := Text.Upper(Text.Trim(code, Text.JS_BLANKS));
    if app.stage != ApprovedPendingTier then Err(WrongStage)
    else if tierCode !in pricingOf then Err(NoActivePricing)
    else
      var pricing := pricingOf[tierCode];
      var custom := pricing.isCustomPricing || tierCode == "T4";
      if pricing.accountTypes != {} && app.tenantType !in pricing.accountTypes then Err(UnsupportedTenantType)
      else if whiteLabel && !pricing.whiteLabelAvailable then Err(WhiteLabelUnavailable)
      else if !custom && cycle.None? then Err(BillingCycleRequired)
      else if !custom && cycle.value !in pricing.dueNow then Err(PriceMissing)
      else
        var snapshot := PricingSnapshot(tierCode, custom, if custom then None else Some(pricing.dueNow[cycle.value]));
        Ok(At(app, if custom then QuotePending else TierConfirmedPendingPayment).(
          selectedTierCode := Some(tierCode), pricingSnapshot := Some(snapshot), paymentIntentId := None,
          paymentStatus := if custom then None else Some("PENDING"), paymentSettledAt := None,
          enterpriseQuoteStatus := if custom then Some("PENDING") else None))
  }

  function Paid(app: Application, intent: PaymentIntent, otherwise: Stage, now: int): Application {
    var settled := intent.status == "SETTLED";
    At(app, if settled then PaymentConfirmedPendingActivation else otherwise).(
      paymentIntentId := Some(intent.id), paymentStatus := Some(intent.status),
      paymentSettledAt := if settled then Some(now) else None)
  }

  /** `existing` is what commerce knows of the linked intent, `created` what it answers to a new one. */
  function IntentCreated(app: Application, existing: Option<PaymentIntent>, created: Option<PaymentIntent>, now: int)
    : Result<Application, Error> {
    if app.stage != TierConfirmedPendingPayment then Err(WrongStage)
    else if app.pricingSnapshot.None? || app.pricingSnapshot.value.isCustomPricing
            || app.pricingSnapshot.value.dueNowAmount.None? then Err(PaymentUnavailable)
    else if app.paymentIntentId.Some? && app.paymentIntentId.value != "" && existing.Some?
            && existing.value.status !in {"FAILED", "CANCELED", "EXPIRED"} then Ok(app)
    else if created.None? then Err(ExternalFailure)
    else Ok(Paid(app, created.value, app.stage, now))
  }

  /** No stage is checked here: the payment decides the stage whatever it was. */
  function PaymentSynced(app: Application, intentId: Option<string>, answer: Option<PaymentIntent>, now: int)
    : Result<Application, Error> {
    var linked := FirstNonEmpty(intentId, app.paymentIntentId);
    if linked.None? || linked.value == "" then Err(NoLinkedIntent)
    else if answer.None? then Err(IntentNotFound)
    else Ok(Paid(app, answer.value, TierConfirmedPendingPayment, now))
  }

  function QuoteAccepted(app: Application): Result<Application, Error> {
    if app.stage != QuotePending then Err(WrongStage)
    else Ok(At(app, QuoteAcceptedPendingActivation).(enterpriseQuoteStatus := Some("ACCEPTED")))
  }

  /** `provisioned` is the organisation created, if provisioning and the membership and user writes all succeed. */
  function Activated(app: Application, roleValid: bool, domainFree: bool,
                     provisioned: Option<string>): Result<Application, Error> {
    if app.stage !in {PaymentConfirmedPendingActivation, QuoteAcceptedPendingActivation} then Err(WrongStage)
    else if app.selectedTierCode.None? || app.selectedTierCode.value == "" then Err(TierRequired)
    else if !roleValid then Err(InvalidRole)
    else if !domainFree then Err(DomainTaken)
    else if app.selectedTierCode.value !in {"T1", "T2", "T3", "T4"} then Err(UnsupportedTier)
    else if provisioned.None? then Err(ExternalFailure)
    else Ok(At(app, Completed).(provisionedOrganizationId := provisioned))
  }

  // ---- Operations on the table -------------------------------------------------------

  datatype Op =
    | Create(applicantId: string, tenantType: TenantType, siteFound: bool)
    | UpdateOwn(id: nat, applicantId: string, newType: Option<TenantType>, siteFound: bool)
    | Review(id: nat, action: ReviewAction)
    | ConfirmTier(id: nat, applicantId: string, code: string, pricingOf: map<string, Pricing>,
                  cycle: Option<BillingCycle>, whiteLabel: bool)
    | CreatePaymentIntent(id: nat, applicantId: string, existing: Option<PaymentIntent>,
                          created: Option<PaymentIntent>, now: int)
    | SyncPaymentStatus(id: nat, applicantId: string, intentId: Option<string>, answer: Option<PaymentIntent>, now: int)
    | AcceptEnterpriseQuote(id: nat, applicantId: string)
    | Activate(id: nat, roleValid: bool, domainFree: bool, provisioned: Option<string>)

  ghost predicate HasOpen(apps: seq<Application>, applicantId: string) {
    exists i :: 0 <= i < |apps| && apps[i].applicantId == applicantId && !Terminal(apps[i].stage)
  }

  /** Ownership is checked for the operations of the applicant, not for those of administrators. */
  function Owner(op: Op): Option<string> {
    match op
    case Create(_, _, _) | Review(_, _) | Activate(_, _, _, _) => None
    case _ => Some(op.applicantId)
  }

  function RowStep(app: Application, op: Op): Result<Application, Error>
    requires !op.Create?
  {
    match op
    case UpdateOwn(_, _, newType, siteFound) => UpdatedOwn(app, newType, siteFound)
    case Review(_, action) => Reviewed(app, action)
    case ConfirmTier(_, _, code, pricingOf, cycle, whiteLabel) => TierConfirmed(app, code, pricingOf, cycle, whiteLabel)
    case CreatePaymentIntent(_, _, existing, created, now) => IntentCreated(app, existing, created, now)
    case SyncPaymentStatus(_, _, intentId, answer, now) => PaymentSynced(app, intentId, answer, now)
    case AcceptEnterpriseQuote(_, _) => QuoteAccepted(app)
    case Activate(_, roleValid, domainFree, provisioned) => Activated(app, roleValid, domainFree, provisioned)
  }

  ghost function Step(apps: seq<Application>, op: Op): Result<seq<Application>, Error> {
    match op
    case Create(applicantId, tenantType, siteFound) =>
      if HasOpen(apps, applicantId) then Err(AlreadyActive)
      else if !siteFound then Err(SiteNotFound)
      else Ok(apps + [NewApplication(applicantId, tenantType)])
    case _ =>
      if op.id >= |apps| then Err(NotFound)
      else if Owner(op).Some? && Owner(op).value != apps[op.id].applicantId then Err(NotOwner)
      else
        match RowStep(apps[op.id], op)
        case Err(e) => Err(e)
        case Ok(row) => Ok(apps[op.id := row])
  }

  ghost function After(apps: seq<Application>, op: Op): seq<Application> {
    match Step(apps, op) case Ok(next) => next case Err(_) => apps
  }

  /** The applications service over its table. */
  class ApplicationsService {
    var applications: seq<Application>

    constructor ()
      ensures applications == []
    {
      applications := [];
    }

    method Create(applicantId: string, tenantType: TenantType, siteFound: bool) returns (r: Result<nat, Error>)
      modifies this
      ensures applications == After(old(applications), Op.Create(applicantId, tenantType, siteFound))
      ensures r.Err? <==> Step(old(applications), Op.Create(applicantId, tenantType, siteFound)).Err?
      ensures r.Ok? ==> r.value == old(|applications|)
    {
      var i := 0;
      while i < |applications|
        invariant 0 <= i <= |applications|
        invariant forall j | 0 <= j < i ::
          !(applications[j].applicantId == applicantId && !Terminal(applications[j].stage))
      {
        if applications[i].applicantId == applicantId && !Terminal(applications[i].stage) {
          return Err(AlreadyActive);
        }
        i := i + 1;
      }
      if !siteFound {
        return Err(SiteNotFound);
      }
      applications := applications + [NewApplication(applicantId, tenantType)];
      return Ok(|applications| - 1);
    }

    /** Every other operation reads its row, checks it, and overwrites it. */
    method Change(op: Op) returns (r: Result<Application, Error>)
      requires !op.Create?
      modifies this
      ensures applications == After(old(applications), op)
      ensures match Step(old(applications), op)
              case Err(e) => r == Err(e)
              case Ok(_) => r == Ok(applications[op.id])
    {
      if op.id >= |applications| {
        return Err(NotFound);
      }
      var current := applications[op.id];
      if Owner(op).Some? && Owner(op).value != current.applicantId {
        return Err(NotOwner);
      }
      r := RowStep(current, op);
      if r.Ok? {
        applications := applications[op.id := r.value];
      }
    }
  }

  // ---- What admits an operation, and what it leaves ----------------------------------

  /** A reason is given: the first of the two texts that is not empty is not blank either. */
  ghost predicate ReasonGiven(reason: Option<string>, notes: Option<string>) {
    if reason.Some? && reason.value != "" then !Text.AllIn(reason.value, Text.JS_BLANKS)
    else notes.Some? && !Text.AllIn(notes.value, Text.JS_BLANKS)
  }

  ghost predicate TierOffered(app: Application, pricing: Pricing, custom: bool, cycle: Option<BillingCycle>,
                              whiteLabel: bool) {
    && (pricing.accountTypes == {} || app.tenantType in pricing.accountTypes)
    && (whiteLabel ==> pricing.whiteLabelAvailable)
    && (!custom ==> cycle.Some? && cycle.value in pricing.dueNow)
  }

  /** When an operation goes through on a row, whoever asks for it. */
  ghost predicate Admits(app: Application, op: Op)
    requires !op.Create?
  {
    match op
    case UpdateOwn(_, _, _, siteFound) => app.stage in {Submitted, UnderReview, ApprovedPendingTier} && siteFound
    case Review(_, TakeUp) => app.stage in {Submitted, UnderReview}
    case Review(_, Reject(reason, notes)) => app.stage in {Submitted, UnderReview} && ReasonGiven(reason, notes)
    case Review(_, Approve(roleValid, domainFree, _)) =>
      app.stage in {Submitted, UnderReview} && roleValid && domainFree
    case ConfirmTier(_, _, code, pricingOf, cycle, whiteLabel) =>
      var tier := Text.Upper(Text.Trim(code, Text.JS_BLANKS));
      && app.stage == ApprovedPendingTier && tier in pricingOf
      && TierOffered(app, pricingOf[tier], pricingOf[tier].isCustomPricing || tier == "T4", cycle, whiteLabel)
    case CreatePaymentIntent(_, _, existing, created, _) =>
      && app.stage == TierConfirmedPendingPayment
      && app.pricingSnapshot.Some? && !app.pricingSnapshot.value.isCustomPricing
      && app.pricingSnapshot.value.dueNowAmount.Some?
      && (IntentLive(app, existing) || created.Some?)
    case SyncPaymentStatus(_, _, intentId, answer, _) =>
      (GetOr(intentId, "") != "" || GetOr(app.paymentIntentId, "") != "") && answer.Some?
    case AcceptEnterpriseQuote(_, _) => app.stage == QuotePending
    case Activate(_, roleValid, domainFree, provisioned) =>
      && app.stage in {PaymentConfirmedPendingActivation, QuoteAcceptedPendingActivation}
      && app.selectedTierCode in {Some("T1"), Some("T2"), Some("T3"), Some("T4")}
      && roleValid && domainFree && provisioned.Some?
  }

  /** The payment linked to the row is one commerce still works on, or has settled. */
  ghost predicate IntentLive(app: Application, existing: Option<PaymentIntent>) {
    && GetOr(app.paymentIntentId, "") != "" && existing.Some?
    && existing.value.status != "FAILED" && existing.value.status != "CANCELED" && existing.value.status != "EXPIRED"
  }

  lemma AdmittedIff(app: Application, op: Op)
    requires !op.Create?
    ensures RowStep(app, op).Ok? <==> Admits(app, op)
  {
    match op
    case Review(_, Reject(reason, notes)) =>
      if FirstNonEmpty(reason, notes).Some? {
        Text.BlankIff(FirstNonEmpty(reason, notes).value, Text.JS_BLANKS);
      }
    case _ =>
  }

  /** The first thing wrong is what a refused operation is answered. */
  lemma RefusedFor(app: Application, op: Op)
    requires !op.Create? && RowStep(app, op).Err?
    ensures var e := RowStep(app, op).error;
            match op
            case UpdateOwn(_, _, _, _) =>
              e == if app.stage in {Submitted, UnderReview, ApprovedPendingTier} then SiteNotFound else WrongStage
            case Review(_, action) =>
              if app.stage !in {Submitted, UnderReview} then e == WrongStage
              else !action.TakeUp? && (action.Reject? ==> e == ReasonRequired)
                   && (action.Approve? ==> e == if action.roleValid then DomainTaken else InvalidRole)
            case ConfirmTier(_, _, code, pricingOf, cycle, whiteLabel) =>
              if app.stage != ApprovedPendingTier then e == WrongStage
              else TierRefusedFor(app, Text.Upper(Text.Trim(code, Text.JS_BLANKS)), pricingOf, cycle, whiteLabel, e)
            case CreatePaymentIntent(_, _, _, _, _) =>
              e == if app.stage != TierConfirmedPendingPayment then WrongStage
                   else if app.pricingSnapshot.Some? && !app.pricingSnapshot.value.isCustomPricing
                           && app.pricingSnapshot.value.dueNowAmount.Some? then ExternalFailure
                   else PaymentUnavailable
            case SyncPaymentStatus(_, _, intentId, _, _) =>
              e == if GetOr(intentId, "") == "" && GetOr(app.paymentIntentId, "") == "" then NoLinkedIntent
                   else IntentNotFound
            case AcceptEnterpriseQuote(_, _) => e == WrongStage
            case Activate(_, roleValid, domainFree, _) =>
              e == if app.stage !in {PaymentConfirmedPendingActivation, QuoteAcceptedPendingActivation} then WrongStage
                   else if GetOr(app.selectedTierCode, "") == "" then TierRequired
                   else if !roleValid then InvalidRole
                   else if !domainFree then DomainTaken
                   else if app.selectedTierCode in {Some("T1"), Some("T2"), Some("T3"), Some("T4")} then ExternalFailure
                   else UnsupportedTier
  {
    hide Text.Trim, Text.Upper, Text.NormalizeOptional;
  }

  ghost predicate TierRefusedFor(app: Application, tier: string, pricingOf: map<string, Pricing>,
                                 cycle: Option<BillingCycle>, whiteLabel: bool, e: Error) {
    if tier !in pricingOf then e == NoActivePricing
    else
      var pricing := pricingOf[tier];
      if pricing.accountTypes != {} && app.tenantType !in pricing.accountTypes then e == UnsupportedTenantType
      else if whiteLabel && !pricing.whiteLabelAvailable then e == WhiteLabelUnavailable
      else e == if cycle.None? then BillingCycleRequired else PriceMissing
  }

  /** Only the applicant may act for the applicant; administrators review and activate; a new row needs nobody's. */
  lemma AllowedIff(apps: seq<Application>, op: Op)
    ensures Step(apps, op).Ok?
            <==> match op
                 case Create(who, _, siteFound) => !HasOpen(apps, who) && siteFound
                 case Review(id, _) => id < |apps| && Admits(apps[id], op)
                 case Activate(id, _, _, _) => id < |apps| && Admits(apps[id], op)
                 case _ => op.id < |apps| && op.applicantId == apps[op.id].applicantId && Admits(apps[op.id], op)
    ensures !op.Create? && !op.Review? && !op.Activate? && op.id < |apps|
            && op.applicantId != apps[op.id].applicantId ==>
              Step(apps, op) == Err(NotOwner)
    ensures !op.Create? && op.id >= |apps| ==> Step(apps, op) == Err(NotFound)
    ensures op.Create? && Step(apps, op).Err? ==>
              Step(apps, op) == Err(if HasOpen(apps, op.applicantId) then AlreadyActive else SiteNotFound)
  {
    if !op.Create? && op.id < |apps| {
      AdmittedIff(apps[op.id], op);
    }
    hide RowStep, Admits, HasOpen;
  }

  /** The row afterwards, with the fields each operation sets and no others. */
  lemma RowBecomes(app: Application, op: Op)
    requires !op.Create? && RowStep(app, op).Ok?
    ensures var row := RowStep(app, op).value;
            match op
            case UpdateOwn(_, _, newType, _) =>
              row == if newType.Some? then app.(tenantType := newType.value) else app
            case Review(_, TakeUp) => row == app.(stage := UnderReview, status := UNDER_REVIEW)
            case Review(_, Reject(_, _)) => row == app.(stage := Rejected, status := REJECTED, approvedAt := None)
            case Review(_, Approve(_, _, now)) =>
              row == app.(stage := ApprovedPendingTier, status := APPROVED, approvedAt := Some(now))
            case ConfirmTier(_, _, code, pricingOf, cycle, _) =>
              var tier := Text.Upper(Text.Trim(code, Text.JS_BLANKS));
              tier in pricingOf && TierTaken(app, tier, pricingOf[tier], cycle, row)
            case CreatePaymentIntent(_, _, existing, created, now) =>
              if IntentLive(app, existing) then row == app
              else created.Some? && Charged(app, created.value, now, row)
            case SyncPaymentStatus(_, _, _, answer, now) =>
              answer.Some? && Charged(app, answer.value, now, row)
            case AcceptEnterpriseQuote(_, _) =>
              row == app.(stage := QuoteAcceptedPendingActivation, status := DEPOSIT_PAID,
                enterpriseQuoteStatus := Some("ACCEPTED"))
            case Activate(_, _, _, provisioned) =>
              row == app.(stage := Completed, status := COMPLETED, provisionedOrganizationId := provisioned)
  {
    hide Text.Trim, Text.Upper;
  }

  /** A custom price leads to a quote, any other to a payment of what the billing cycle costs. */
  ghost predicate TierTaken(app: Application, tier: string, pricing: Pricing, cycle: Option<BillingCycle>,
                            row: Application) {
    var taken := app.(status := AWAITING_DEPOSIT, selectedTierCode := Some(tier), paymentIntentId := None,
      paymentSettledAt := None);
    if pricing.isCustomPricing || tier == "T4" then
      row == taken.(stage := QuotePending, pricingSnapshot := Some(PricingSnapshot(tier, true, None)),
        paymentStatus := None, enterpriseQuoteStatus := Some("PENDING"))
    else
      && cycle.Some? && cycle.value in pricing.dueNow
      && row == taken.(stage := TierConfirmedPendingPayment,
           pricingSnapshot := Some(PricingSnapshot(tier, false, Some(pricing.dueNow[cycle.value]))),
           paymentStatus := Some("PENDING"), enterpriseQuoteStatus := None)
  }

  /** Linked to the payment, and confirmed from now on if it is settled. */
  ghost predicate Charged(app: Application, intent: PaymentIntent, now: int, row: Application) {
    var linked := app.(paymentIntentId := Some(intent.id), paymentStatus := Some(intent.status));
    if intent.status == "SETTLED" then
      row == linked.(stage := PaymentConfirmedPendingActivation, status := DEPOSIT_PAID, paymentSettledAt := Some(now))
    else
      row == linked.(stage := TierConfirmedPendingPayment, status := AWAITING_DEPOSIT, paymentSettledAt := None)
  }

  lemma CreatedRow(apps: seq<Application>, who: string, kind: TenantType, siteFound: bool)
    requires Step(apps, Create(who, kind, siteFound)).Ok?
    ensures Step(apps, Create(who, kind, siteFound)).value
            == apps + [Application(who, kind, Submitted, PENDING_REVIEW,
                                   None, None, None, None, None, None, None, None)]
  {
  }

  // ---- Safety of every run -----------------------------------------------------------

  /** What every row satisfies, however the operations interleave. */
  ghost predicate Coherent(app: Application) {
    && app.status == StageToLegacyStatus(app.stage)
    && (app.stage == PaymentConfirmedPendingActivation ==>
          app.paymentStatus == Some("SETTLED") && app.paymentSettledAt.Some?)
    && (app.stage in {QuotePending, QuoteAcceptedPendingActivation} ==>
          app.pricingSnapshot.Some? && app.pricingSnapshot.value.isCustomPricing)
    && (app.stage == ApprovedPendingTier || app.selectedTierCode.Some? ==>
          app.approvedAt.Some? && !IsReviewable(app.stage))
    && (app.stage == QuoteAcceptedPendingActivation ==> app.enterpriseQuoteStatus == Some("ACCEPTED"))
  }

  /** A completed row was approved, has a tier and an organisation, and was paid for or contracted. */
  ghost predicate Entitled(app: Application) {
    app.stage == Completed ==>
      && app.selectedTierCode.Some? && app.selectedTierCode.value in {"T1", "T2", "T3", "T4"}
      && app.approvedAt.Some? && app.provisionedOrganizationId.Some?
      && ((app.paymentStatus == Some("SETTLED") && app.paymentSettledAt.Some?)
          || app.enterpriseQuoteStatus == Some("ACCEPTED"))
  }

  ghost predicate AtMostOneOpen(apps: seq<Application>) {
    forall i, j | 0 <= i < j < |apps| && apps[i].applicantId == apps[j].applicantId ::
      Terminal(apps[i].stage) || Terminal(apps[j].stage)
  }

  ghost predicate AllCoherent(apps: seq<Application>) {
    forall i | 0 <= i < |apps| :: Coherent(apps[i])
  }

  ghost predicate AllEntitled(apps: seq<Application>) {
    forall i | 0 <= i < |apps| :: Entitled(apps[i])
  }

  /** A payment sync by the applicant on an application with a linked payment that commerce knows. */
  predicate SyncAdmitted(apps: seq<Application>, op: Op) {
    && op.SyncPaymentStatus? && op.id < |apps|
    && op.applicantId == apps[op.id].applicantId
    && GetOr(FirstNonEmpty(op.intentId, apps[op.id].paymentIntentId), "") != ""
    && op.answer.Some?
  }

  /** The one way out of a terminal stage: such a sync on a completed or rejected application. */
  predicate ReopensBySync(apps: seq<Application>, op: Op) {
    SyncAdmitted(apps, op) && Terminal(apps[op.id].stage)
  }

  ghost function Run(apps: seq<Application>, ops: seq<Op>): seq<Application>
    decreases ops
  {
    if ops == [] then apps else Run(After(apps, ops[0]), ops[1..])
  }

  ghost predicate NeverReopens(apps: seq<Application>, ops: seq<Op>)
    decreases ops
  {
    ops == [] || (!ReopensBySync(apps, ops[0]) && NeverReopens(After(apps, ops[0]), ops[1..]))
  }

  lemma RowKeepsCoherent(app: Application, op: Op)
    requires !op.Create? && Coherent(app) && RowStep(app, op).Ok?
    ensures Coherent(RowStep(app, op).value)
  {
    hide Text.Trim, Text.Upper;
  }

  lemma {:induction false} RunKeepsCoherent(apps: seq<Application>, ops: seq<Op>)
    requires AllCoherent(apps)
    ensures AllCoherent(Run(apps, ops))
    decreases ops
  {
    if ops != [] {
      var op := ops[0];
      if !op.Create? && Step(apps, op).Ok? {
        RowKeepsCoherent(apps[op.id], op);
      }
      RunKeepsCoherent(After(apps, op), ops[1..]);
    }
  }

  /** Rows change only by their own operation; the applicant never changes. */
  lemma RowIdentity(app: Application, op: Op)
    requires !op.Create? && RowStep(app, op).Ok?
    ensures RowStep(app, op).value.applicantId == app.applicantId
    ensures Terminal(app.stage) ==> op.SyncPaymentStatus?
    ensures op.SyncPaymentStatus? ==> !Terminal(RowStep(app, op).value.stage)
  {
  }

  /** A step leaves every terminal row exactly as it was, if and only if it does not reopen one by a payment sync. */
  lemma TerminalFrozenIff(apps: seq<Application>, op: Op)
    ensures (forall i | 0 <= i < |apps| && Terminal(apps[i].stage) :: After(apps, op)[i] == apps[i])
            <==> !ReopensBySync(apps, op)
    ensures |After(apps, op)| >= |apps|
  {
    if !op.Create? && Step(apps, op).Ok? {
      RowIdentity(apps[op.id], op);
      if ReopensBySync(apps, op) {
        assert After(apps, op)[op.id] != apps[op.id];
      }
    }
  }

  /** In a run that never reopens by sync, a terminal row stays as it is for ever. */
  lemma {:induction false} TerminalForever(apps: seq<Application>, ops: seq<Op>, i: nat)
    requires i < |apps| && Terminal(apps[i].stage) && NeverReopens(apps, ops)
    ensures i < |Run(apps, ops)| && Run(apps, ops)[i] == apps[i]
    decreases ops
  {
    if ops != [] {
      TerminalFrozenIff(apps, ops[0]);
      TerminalForever(After(apps, ops[0]), ops[1..], i);
    }
  }

  /** How far along the stages are. */
  function Progress(stage: Stage): nat {
    match stage
    case Submitted => 0
    case UnderReview => 1
    case ApprovedPendingTier => 2
    case TierConfirmedPendingPayment | QuotePending => 3
    case PaymentConfirmedPendingActivation | QuoteAcceptedPendingActivation => 4
    case Completed | Rejected => 5
  }

  /**
   * Outside payment syncs an application only moves forward, one milestone at a time, or out by rejection;
   * it stands still only in an edit, a repeated take-up, or a payment that has not settled.
   */
  lemma OnlyForward(app: Application, op: Op)
    requires !op.Create? && !op.SyncPaymentStatus? && RowStep(app, op).Ok?
    ensures var next := RowStep(app, op).value;
            || (next.stage == app.stage
                && (op.UpdateOwn? || op.CreatePaymentIntent? || (op.Review? && op.action.TakeUp?)))
            || Progress(next.stage) == Progress(app.stage) + 1
            || (op.Review? && IsReviewable(app.stage) &&
                  (next.stage == Rejected || (app.stage == Submitted && next.stage == ApprovedPendingTier)))
  {
    hide Text.Trim, Text.Upper;
  }

  lemma RowKeepsEntitled(app: Application, op: Op)
    requires !op.Create? && Coherent(app) && Entitled(app) && RowStep(app, op).Ok?
    ensures Entitled(RowStep(app, op).value)
  {
  }

  /** A step keeps "at most one open application each" unless it reopens a row whose applicant has another one open. */
  lemma StepKeepsOneOpenIff(apps: seq<Application>, op: Op)
    requires AtMostOneOpen(apps)
    ensures AtMostOneOpen(After(apps, op)) <==> !(ReopensBySync(apps, op) && HasOpen(apps, apps[op.id].applicantId))
  {
    var after := After(apps, op);
    if !op.Create? && Step(apps, op).Ok? {
      RowIdentity(apps[op.id], op);
      if ReopensBySync(apps, op) && HasOpen(apps, apps[op.id].applicantId) {
        var i :| 0 <= i < |apps| && apps[i].applicantId == apps[op.id].applicantId && !Terminal(apps[i].stage);
        assert after[i] == apps[i] && i != op.id;
        var a, b := if i < op.id then i else op.id, if i < op.id then op.id else i;
        assert a < b && after[a].applicantId == after[b].applicantId;
        assert !Terminal(after[a].stage) && !Terminal(after[b].stage);
      }
    }
  }

  /**
   * Runs without such a sync: completed rows are entitled, nobody has two open applications, and
   * rows stay coherent.
   */
  lemma {:induction false} GuardedRunSafe(apps: seq<Application>, ops: seq<Op>)
    requires AllCoherent(apps) && AllEntitled(apps) && AtMostOneOpen(apps) && NeverReopens(apps, ops)
    ensures AllCoherent(Run(apps, ops)) && AllEntitled(Run(apps, ops)) && AtMostOneOpen(Run(apps, ops))
    decreases ops
  {
    if ops != [] {
      var op := ops[0];
      if !op.Create? && Step(apps, op).Ok? {
        RowKeepsCoherent(apps[op.id], op);
        RowKeepsEntitled(apps[op.id], op);
      }
      StepKeepsOneOpenIff(apps, op);
      GuardedRunSafe(After(apps, op), ops[1..]);
    }
  }

  /** Calling sync only in the two payment stages is enough for that guard. */
  lemma PaymentStagesSuffice(apps: seq<Application>, op: Op)
    requires op.SyncPaymentStatus? && op.id < |apps| ==>
               apps[op.id].stage in {TierConfirmedPendingPayment, PaymentConfirmedPendingActivation}
    ensures !ReopensBySync(apps, op)
  {
  }

  // ---- Enterprise quotes -------------------------------------------------------------

  predicate CustomPriced(app: Application) {
    app.pricingSnapshot.Some? && app.pricingSnapshot.value.isCustomPricing
  }

  /** A custom-priced application past its quote, and a completed one above all, has had the quote accepted. */
  ghost predicate QuoteHonoured(app: Application) {
    CustomPriced(app) && app.stage != QuotePending ==> app.enterpriseQuoteStatus == Some("ACCEPTED")
  }

  ghost predicate AllQuotesHonoured(apps: seq<Application>) {
    forall i | 0 <= i < |apps| :: QuoteHonoured(apps[i])
  }

  /** A payment sync on a custom-priced application whose quote has not been accepted. */
  predicate SyncSkipsQuote(apps: seq<Application>, op: Op) {
    SyncAdmitted(apps, op) && CustomPriced(apps[op.id]) && apps[op.id].enterpriseQuoteStatus != Some("ACCEPTED")
  }

  ghost predicate NeverSkipsQuote(apps: seq<Application>, ops: seq<Op>)
    decreases ops
  {
    ops == [] || (!SyncSkipsQuote(apps, ops[0]) && NeverSkipsQuote(After(apps, ops[0]), ops[1..]))
  }

  lemma RowKeepsQuote(app: Application, op: Op)
    requires !op.Create? && QuoteHonoured(app) && RowStep(app, op).Ok?
    ensures QuoteHonoured(RowStep(app, op).value)
            <==> !(op.SyncPaymentStatus? && CustomPriced(app) && app.enterpriseQuoteStatus != Some("ACCEPTED"))
  {
    hide Text.Trim, Text.Upper;
  }

  /** A step keeps every quote honoured if and only if it is not such a sync. */
  lemma StepKeepsQuotesIff(apps: seq<Application>, op: Op)
    requires AllQuotesHonoured(apps)
    ensures AllQuotesHonoured(After(apps, op)) <==> !SyncSkipsQuote(apps, op)
  {
    if !op.Create? && Step(apps, op).Ok? {
      RowKeepsQuote(apps[op.id], op);
      hide QuoteHonoured, RowStep;
      assert After(apps, op)[op.id] == RowStep(apps[op.id], op).value;
    }
  }

  /**
   * In runs without such a sync, whatever else they do, no custom-priced application completes on an unaccepted quote.
   */
  lemma {:induction false} QuotesHonouredForever(apps: seq<Application>, ops: seq<Op>)
    requires AllQuotesHonoured(apps) && NeverSkipsQuote(apps, ops)
    ensures AllQuotesHonoured(Run(apps, ops))
    decreases ops
  {
    if ops != [] {
      StepKeepsQuotesIff(apps, ops[0]);
      QuotesHonouredForever(After(apps, ops[0]), ops[1..]);
    }
  }

  /**
   * A run that shows it, without any reopening: apply, be approved, confirm a custom tier, sync a settled payment in
   * place of accepting the quote, and be activated.
   */
  lemma SyncSkipsTheQuote(who: string, kind: TenantType, code: string, pricing: Pricing, intent: PaymentIntent,
                          org: string, now: int)
    requires pricing.isCustomPricing && pricing.accountTypes == {} && intent.id != "" && intent.status == "SETTLED"
    requires Text.Upper(Text.Trim(code, Text.JS_BLANKS)) in {"T1", "T2", "T3", "T4"}
    ensures var tier := Text.Upper(Text.Trim(code, Text.JS_BLANKS));
            var ops := [Create(who, kind, true), Review(0, Approve(true, true, now)),
                        ConfirmTier(0, who, code, map[tier := pricing], None, false),
                        SyncPaymentStatus(0, who, Some(intent.id), Some(intent), now),
                        Activate(0, true, true, Some(org))];
            && |Run([], ops)| == 1 && NeverReopens([], ops)
            && Run([], ops)[0].stage == Completed && CustomPriced(Run([], ops)[0])
            && Run([], ops)[0].enterpriseQuoteStatus == Some("PENDING")
  {
    var tier := Text.Upper(Text.Trim(code, Text.JS_BLANKS));
    hide Text.Upper, Text.Trim;
    var create, approve := Create(who, kind, true), Review(0, Approve(true, true, now));
    var confirm := ConfirmTier(0, who, code, map[tier := pricing], None, false);
    var sync := SyncPaymentStatus(0, who, Some(intent.id), Some(intent), now);
    var activate := Activate(0, true, true, Some(org));
    var a := NewApplication(who, kind);
    var b, c, d, e := QuotedRow(a, approve, confirm, sync, activate, code, tier, pricing, intent, org, now);
    hide RowStep, NewApplication, SyncAdmitted;
    assert !HasOpen([], who);
    assert After([], create) == [a];
    OneRow(a, approve, b);
    OneRow(b, confirm, c);
    OneRow(c, sync, d);
    OneRow(d, activate, e);
    hide After;
    RunOf([], create, [approve, confirm, sync, activate]);
    RunOf([a], approve, [confirm, sync, activate]);
    RunOf([b], confirm, [sync, activate]);
    RunOf([c], sync, [activate]);
    RunOf([d], activate, []);
    assert NeverReopens([e], []);
    NeverReopensOf([d], activate, []);
    NeverReopensOf([c], sync, [activate]);
    NeverReopensOf([b], confirm, [sync, activate]);
    NeverReopensOf([a], approve, [confirm, sync, activate]);
    NeverReopensOf([], create, [approve, confirm, sync, activate]);
  }

  /** The row of that run, call by call. */
  lemma QuotedRow(a: Application, approve: Op, confirm: Op, sync: Op, activate: Op, code: string, tier: string,
                  pricing: Pricing, intent: PaymentIntent, org: string, now: int)
    returns (b: Application, c: Application, d: Application, e: Application)
    requires a.stage == Submitted && tier in {"T1", "T2", "T3", "T4"}
    requires tier == Text.Upper(Text.Trim(code, Text.JS_BLANKS))
    requires pricing.isCustomPricing && pricing.accountTypes == {} && intent.id != "" && intent.status == "SETTLED"
    requires approve == Review(0, Approve(true, true, now))
    requires confirm == ConfirmTier(0, a.applicantId, code, map[tier := pricing], None, false)
    requires sync == SyncPaymentStatus(0, a.applicantId, Some(intent.id), Some(intent), now)
    requires activate == Activate(0, true, true, Some(org))
    ensures RowStep(a, approve) == Ok(b) && RowStep(b, confirm) == Ok(c) && RowStep(c, sync) == Ok(d)
    ensures RowStep(d, activate) == Ok(e)
    ensures b.applicantId == c.applicantId == d.applicantId == a.applicantId && !Terminal(c.stage)
    ensures e.stage == Completed && CustomPriced(e) && e.enterpriseQuoteStatus == Some("PENDING")
  {
    hide Text.Upper, Text.Trim;
    b := RowStep(a, approve).value;
    c := RowStep(b, confirm).value;
    d := RowStep(c, sync).value;
    e := RowStep(d, activate).value;
  }

  lemma OneRow(app: Application, op: Op, next: Application)
    requires !op.Create? && op.id == 0 && RowStep(app, op) == Ok(next)
    requires Owner(op).Some? ==> Owner(op).value == app.applicantId
    ensures After([app], op) == [next]
  {
    hide RowStep;
    assert [app][0 := next] == [next];
  }

  lemma NeverReopensOf(apps: seq<Application>, op: Op, rest: seq<Op>)
    requires !ReopensBySync(apps, op) && NeverReopens(After(apps, op), rest)
    ensures NeverReopens(apps, [op] + rest)
  {
  }

  // ---- A second open application -----------------------------------------------------

  /** The unguarded sync does break it: apply, be rejected, apply again, and sync any payment onto the first. */
  lemma SyncCanOpenASecondApplication(who: string, kind: TenantType, reason: string, intent: PaymentIntent, now: int)
    requires Text.NormalizeOptional(Some(reason)).Some? && reason != "" && intent.id != ""
    ensures var ops := [Create(who, kind, true), Review(0, Reject(Some(reason), None)), Create(who, kind, true),
                        SyncPaymentStatus(0, who, Some(intent.id), Some(intent), now)];
            AtMostOneOpen([]) && !AtMostOneOpen(Run([], ops))
  {
    var first := NewApplication(who, kind);
    var create, reject := Create(who, kind, true), Review(0, Reject(Some(reason), None));
    var pay := SyncPaymentStatus(0, who, Some(intent.id), Some(intent), now);
    var rejected := At(first, Rejected);
    assert Reviewed(first, reject.action) == Ok(rejected);
    var reopened := Paid(rejected, intent, TierConfirmedPendingPayment, now);
    assert RowStep(rejected, pay) == Ok(reopened);
    assert rejected.applicantId == reopened.applicantId == first.applicantId == who;
    assert Terminal(rejected.stage) && !Terminal(reopened.stage) && !Terminal(first.stage);
    hide Text.NormalizeOptional, Reviewed, PaymentSynced, Paid, At, NewApplication, Terminal;
    assert After([], create) == [first];
    assert After([first], reject) == [first][0 := rejected] == [rejected];
    assert !HasOpen([rejected], who);
    assert After([rejected], create) == [rejected, first];
    assert After([rejected, first], pay) == [rejected, first][0 := reopened] == [reopened, first];
    RunOf([], create, [reject, create, pay]);
    RunOf([first], reject, [create, pay]);
    RunOf([rejected], create, [pay]);
    RunOf([rejected, first], pay, []);
    var after := [reopened, first];
    assert after[0].applicantId == after[1].applicantId;
  }

  lemma RunOf(apps: seq<Application>, op: Op, rest: seq<Op>)
    ensures Run(apps, [op] + rest) == Run(After(apps, op), rest)
  {
  }
}
