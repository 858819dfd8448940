/** Detached planning snapshots (planning/catalog.py) and the shared trust vocabulary. */
module Catalog {
  import opened Wrappers
  import opened Calendar
  import opened Facts
  import opened Rules
  import opened CasePreparation

  datatype Text = Text(ar: string, en: string)

  datatype TrustState = Current | NeedsReverification | Stale | Disputed | Unverified

  datatype Freshness = Freshness(state: TrustState, verifiedOn: Option<Date>, reverifyOn: Option<Date>)

  datatype Source =
    Source(id: string, authority: string, title: string, locator: string, classification: string,
           retrievedOn: Date, effectiveFrom: Option<Date>, effectiveTo: Option<Date>, reverifyOn: Option<Date>)

  datatype Support = Supports | Contradicts | OtherSupport

  datatype EvidenceLink =
    EvidenceLink(support: Support, state: TrustState, sources: seq<Source>,
                 effectiveFrom: Option<Date>, effectiveTo: Option<Date>, retrievedOn: Option<Date>,
                 verifiedOn: Option<Date>, reverifyOn: Option<Date>)

  /** The part every evidence-bearing row shares. */
  datatype Claim =
    Claim(id: string, effectiveFrom: Option<Date>, effectiveTo: Option<Date>, state: TrustState,
          verifiedOn: Option<Date>, reverifyOn: Option<Date>, links: seq<EvidenceLink>)

  datatype Scope = ProcedureScope | BasisScope | OtherScope

  datatype Classification = OfficialRequirement | PracticalPreparation | OtherClassification

  datatype ChecklistItem =
    ChecklistItem(claim: Claim, text: Text, classification: Classification, documentType: Option<string>,
                  quantity: int, originals: int, copies: int, displayOrder: int, applicability: Option<Predicate>,
                  scope: Scope, scopeReference: string)

  datatype EligibilityBasis =
    EligibilityBasis(claim: Claim, text: Text, reachability: Option<Predicate>, qualification: Option<Predicate>,
                     displayOrder: int)

  datatype Step =
    Step(claim: Claim, text: Text, phase: string, phaseOrder: int, slot: int, applicability: Option<Predicate>,
         scope: Scope, basisId: Option<string>)

  datatype FeeValueState = Known | Range | UnknownValue | UnverifiedValue

  datatype Fee =
    Fee(claim: Claim, text: Text, valueState: FeeValueState, amount: Option<int>, minimum: Option<int>,
        maximum: Option<int>, currency: string, feeType: string, displayOrder: int, applicability: Option<Predicate>,
        scope: Scope, basisId: Option<string>)

  datatype WarningKind = ProductWarning | AdministrativeWarning | OtherWarning

  datatype Warning =
    Warning(claim: Claim, text: Text, severity: string, kind: WarningKind, role: string,
            displayOrder: int, applicability: Option<Predicate>)

  datatype Dependency =
    Dependency(claim: Claim, text: Text, target: string, targetText: Text, blocking: bool,
               applicability: Option<Predicate>, satisfiedWhen: Option<Predicate>, displayOrder: int)

  datatype ServicePoint = ServicePoint(id: string, text: Text)

  datatype Availability = Available | UnknownAvailability | OtherAvailability

  datatype PointVersion = PointVersion(claim: Claim, pointId: string, address: Text, availability: Availability)

  datatype Association = Association(claim: Claim, pointVersionId: string, applicability: Predicate)

  datatype LifecycleState = Draft | Published | Withdrawn | OtherState

  datatype Version =
    Version(id: string, procedure: string, text: Text, applicability: Predicate, contractV1: bool,
            state: LifecycleState, effectiveFrom: Option<Date>, effectiveTo: Option<Date>,
            checklist: seq<ChecklistItem>, bases: seq<EligibilityBasis>, steps: seq<Step>, warnings: seq<Warning>,
            fees: seq<Fee>, dependencies: seq<Dependency>, associations: seq<Association>)

  datatype Candidate = Candidate(procedure: string, text: Text, selection: Predicate)

  datatype Question = Question(id: string, text: Text, priority: int, resolved: seq<string>)

  datatype Service =
    Service(id: string, text: Text, candidates: seq<Candidate>, questions: seq<Question>,
            contradictions: seq<Contradiction>, active: bool)

  datatype Snapshot =
    Snapshot(definitions: Registry, services: seq<Service>, versions: seq<Version>,
             points: seq<ServicePoint>, pointVersions: seq<PointVersion>)
}
