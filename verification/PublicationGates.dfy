/**
  Two independent readings of "strict enough": the publication gates (knowledge/publication.py, fees.py,
  eligibility_bases.py, procedure_dependencies.py, service_point_routing.py) and the request-time loader
  (knowledge/snapshot_policy.py). What the gates let through, the loader accepts.
 */
module PublicationGates {
  import opened Wrappers
  import opened Calendar
  import opened Facts
  import opened Rules
  import opened RuleDecoder
  import opened RuleRoundTrip
  import opened Catalog

  // ----- authored rows

  /** The characters Python's `strip` removes. */
  predicate IsSpace(c: char) {
    var n := c as int;
    9 <= n <= 13 || 28 <= n <= 32 || n == 133 || n == 160 || n == 5760 || 8192 <= n <= 8202
    || n == 8232 || n == 8233 || n == 8239 || n == 8287 || n == 12288
  }

  /** `not text.strip()` */
  predicate Blank(text: string) {
    forall c | c in text :: IsSpace(c)
  }

  datatype SourceKind = OfficialSource | FieldReport | OtherSource

  datatype CitedSource = CitedSource(kind: SourceKind, observedOn: Option<Date>, observationContext: string)

  datatype Link =
    Link(pk: nat, soleOwner: bool, passage: string, location: string, context: string, support: Support,
         state: TrustState, sources: seq<CitedSource>)

  /** What every authored row has: identity, two texts, a stored rule, an interval, trust and evidence. */
  datatype Authored =
    Authored(id: string, textAr: string, textEn: string, rule: Json, effectiveFrom: Option<Date>,
             effectiveTo: Option<Date>, state: TrustState, verifiedOn: Option<Date>, links: seq<Link>)

  datatype ChecklistRow = ChecklistRow(row: Authored, quantity: int, classification: Classification)

  /** The version a basis belongs to, when the row names one. */
  datatype StepRow = StepRow(row: Authored, phase: string, scope: Scope, basisVersion: Option<nat>)

  datatype Severity = InfoSeverity | ImportantSeverity | OtherSeverity
  datatype Role = GeneralRole | RegenerationRole | LimitationRole | OtherRole

  datatype WarningRow = WarningRow(row: Authored, severity: Severity, kind: WarningKind, role: Role)

  datatype FeeRow =
    FeeRow(row: Authored, scope: Scope, basisVersion: Option<nat>, currency: string, feeType: string,
           valueState: FeeValueState, amount: Option<int>, minimum: Option<int>, maximum: Option<int>)

  /** `row.rule` is the reachability rule. */
  datatype BasisRow = BasisRow(row: Authored, qualification: Json)

  /** `row.rule` is the applicability rule. */
  datatype DependencyRow = DependencyRow(row: Authored, version: nat, procedure: nat, target: nat, blocking: bool,
                                         satisfiedWhen: Json)

  datatype AssociationRow = AssociationRow(row: Authored, version: nat, material: nat)

  /** The two texts are the address. */
  datatype MaterialRow =
    MaterialRow(row: Authored, nameAr: string, nameEn: string, availability: Availability, overlapsCurrent: bool)

  /** The stored form of an omitted rule. */
  const NO_RULE := Obj(map[])

  // ----- gate failures

  datatype GateCode =
    | RuleDefect(code: Code)
    | IncompleteBilingual | InvalidInterval | InvalidQuantity | BlankPhase | InvalidBasisOwner
    | UnsupportedWarningMetadata | InvalidRegenerationWarning | ProductWarningHasEvidence
    | ExactlyOneRegenerationWarning
    | MissingCurrency | MissingFeeType | InvalidValueState
    | QualificationRequired | UnsupportedRelation | InvalidOwner | SelfDependency | SatisfiedWhenRequired
    | ApplicabilityRequired
    | VerificationDateRequired | MissingMaterial | IncompleteIdentity | UnsupportedAvailability
    | OverlappingCurrentMaterial
    | MissingEvidenceSource | MissingEvidencePassage | MissingEvidenceContext | MalformedFieldReport
    | UnresolvedContradiction
    | InvalidEvidenceOwner | EvidenceRequired | AdequateEvidenceRequired | OfficialEvidenceRequired

  /** The gates report sorted; as a set the order plays no part. */
  datatype GateFailure = GateFailure(code: GateCode, owner: string, link: Option<nat>)

  function If(condition: bool, code: GateCode, owner: string): set<GateFailure> {
    if condition then {GateFailure(code, owner, None)} else {}
  }

  function IfLink(condition: bool, code: GateCode, owner: string, link: Link): set<GateFailure> {
    if condition then {GateFailure(code, owner, Some(link.pk))} else {}
  }

  function RuleFailures(raw: Json, owner: string, definitions: Registry): set<GateFailure> {
    set d | d in Validation(raw, definitions).diagnostics :: GateFailure(RuleDefect(d.code), owner, None)
  }

  lemma DiagnosticIsReported(raw: Json, owner: string, definitions: Registry, i: nat)
    requires i < |Validation(raw, definitions).diagnostics|
    ensures GateFailure(RuleDefect(Validation(raw, definitions).diagnostics[i].code), owner, None) in RuleFailures(raw,
        owner, definitions)
  {
    assert Validation(raw, definitions).diagnostics[i] in Validation(raw, definitions).diagnostics;
  }

  lemma NoRuleFailuresMeansDecoded(raw: Json, owner: string, definitions: Registry)
    ensures RuleFailures(raw, owner, definitions) == {} <==> Decodes(raw, definitions)
  {
    PredicateOrDiagnostics(raw, definitions);
    if !Decodes(raw, definitions) { DiagnosticIsReported(raw, owner, definitions, 0); }
  }

  predicate Decodes(raw: Json, definitions: Registry) {
    Validation(raw, definitions).rule.Some?
  }

  function OptionalRuleFailures(raw: Json, owner: string, definitions: Registry): set<GateFailure> {
    if raw == NO_RULE then {} else RuleFailures(raw, owner, definitions)
  }

  predicate Unordered(a: Authored) {
    a.effectiveFrom.Some? && a.effectiveTo.Some? && Before(a.effectiveTo.value, a.effectiveFrom.value)
  }

  predicate Monolingual(a: Authored) {
    Blank(a.textAr) || Blank(a.textEn)
  }

  // ----- evidence, as the gates read it

  predicate Malformed(source: CitedSource) {
    source.kind == FieldReport && (source.observedOn.None? || Blank(source.observationContext))
  }

  predicate Detailed(link: Link) {
    !Blank(link.passage) && !Blank(link.location) && !Blank(link.context)
  }

  /** Complete, current and supporting. */
  predicate SupportsNow(link: Link) {
    link.sources != [] && Detailed(link) && link.state == Current && link.support == Supports
  }

  predicate ContradictsNow(link: Link) {
    link.state == Current && link.support == Contradicts
  }

  /** Which checks a gate makes on every link. */
  datatype LinkChecks = LinkChecks(owner: string, fieldReports: bool, contradictions: bool, soleOwner: bool)

  function LinkFailures(link: Link, checks: LinkChecks): set<GateFailure> {
    IfLink(link.sources == [], MissingEvidenceSource, checks.owner, link)
    + IfLink(Blank(link.passage), MissingEvidencePassage, checks.owner, link)
    + IfLink(Blank(link.location) || Blank(link.context), MissingEvidenceContext, checks.owner, link)
    + IfLink(checks.fieldReports
             && exists s | s in link.sources :: Malformed(s), MalformedFieldReport, checks.owner, link)
    + IfLink(checks.contradictions && ContradictsNow(link), UnresolvedContradiction, checks.owner, link)
    + IfLink(checks.soleOwner && !link.soleOwner, InvalidEvidenceOwner, checks.owner, link)
  }

  function EvidenceFailures(links: seq<Link>, checks: LinkChecks): set<GateFailure> {
    if links == [] then {}
    else EvidenceFailures(links[..|links| - 1], checks) + LinkFailures(links[|links| - 1], checks)
  }

  predicate AnySupport(links: seq<Link>) {
    exists link | link in links :: SupportsNow(link)
  }

  predicate AnyOfficialSupport(links: seq<Link>) {
    exists link | link in links :: SupportsNow(link) && forall s | s in link.sources :: s.kind == OfficialSource
  }

  /** The evidence loop the gates share. */
  method CheckEvidence(links: seq<Link>, checks: LinkChecks)
    returns (failures: set<GateFailure>, adequate: bool, authoritative: bool)
    ensures failures == EvidenceFailures(links, checks)
    ensures adequate == AnySupport(links) && authoritative == AnyOfficialSupport(links)
  {
    failures, adequate, authoritative := {}, false, false;
    for n := 0 to |links|
      invariant failures == EvidenceFailures(links[..n], checks)
      invariant adequate == AnySupport(links[..n]) && authoritative == AnyOfficialSupport(links[..n])
    {
      var link := links[n];
      assert links[..n + 1] == links[..n] + [link];
      failures := failures + LinkFailures(link, checks);
      adequate := adequate || SupportsNow(link);
      authoritative := authoritative || (SupportsNow(link) && forall s | s in link.sources :: s.kind == OfficialSource);
    }
    assert links[..|links|] == links;
  }

  /** Evidence no gate complains about. */
  ghost predicate CleanLinks(links: seq<Link>, checks: LinkChecks) {
    forall link | link in links ::
      && link.sources != [] && Detailed(link)
      && (checks.fieldReports ==> forall s | s in link.sources :: !Malformed(s))
      && (checks.contradictions ==> !ContradictsNow(link))
      && (checks.soleOwner ==> link.soleOwner)
  }

  ghost predicate CleanLink(link: Link, checks: LinkChecks) {
    CleanLinks([link], checks)
  }

  lemma LinkCleanExactlyIf(link: Link, checks: LinkChecks)
    ensures LinkFailures(link, checks) == {} <==> CleanLink(link, checks)
  {
    var f := LinkFailures(link, checks);
    var at := Some(link.pk);
    assert link in [link];
    assert link.sources == [] ==> GateFailure(MissingEvidenceSource, checks.owner, at) in f;
    assert Blank(link.passage) ==> GateFailure(MissingEvidencePassage, checks.owner, at) in f;
    assert Blank(link.location) || Blank(link.context) ==> GateFailure(MissingEvidenceContext, checks.owner, at) in f;
    assert checks.fieldReports && (exists s | s in link.sources :: Malformed(s)) ==>
             GateFailure(MalformedFieldReport, checks.owner, at) in f;
    assert checks.contradictions && ContradictsNow(link) ==>
             GateFailure(UnresolvedContradiction, checks.owner, at) in f;
    assert checks.soleOwner && !link.soleOwner ==> GateFailure(InvalidEvidenceOwner, checks.owner, at) in f;
  }

  /** The evidence loop reports nothing exactly on clean evidence. */
  lemma {:induction false} EvidenceCleanExactlyIf(links: seq<Link>, checks: LinkChecks)
    ensures EvidenceFailures(links, checks) == {} <==> CleanLinks(links, checks)
  {
    if links != [] {
      var init, last := links[..|links| - 1], links[|links| - 1];
      EvidenceCleanExactlyIf(init, checks);
      LinkCleanExactlyIf(last, checks);
      assert forall link | link in links :: link in init || link in [last];
      assert last in [last] && last in links;
    }
  }

  // ----- the gates, row by row

  function ChecklistFieldFailures(item: ChecklistRow, definitions: Registry): set<GateFailure> {
    If(Monolingual(item.row), IncompleteBilingual, item.row.id)
    + If(item.quantity < 1, InvalidQuantity, item.row.id)
    + OptionalRuleFailures(item.row.rule, item.row.id, definitions)
  }

  function ChecklistSupportFailures(item: ChecklistRow): set<GateFailure> {
    var a := item.row;
    If(a.state == Current && a.links == [], EvidenceRequired, a.id)
    + If(a.state == Current && a.links != [] && !AnySupport(a.links), AdequateEvidenceRequired, a.id)
    + If(item.classification == OfficialRequirement && a.links != [] && !AnyOfficialSupport(a.links),
         OfficialEvidenceRequired, a.id)
  }

  function ChecklistFailures(item: ChecklistRow, definitions: Registry): set<GateFailure> {
    var a := item.row;
    ChecklistFieldFailures(item, definitions)
    + EvidenceFailures(a.links,
                       LinkChecks(a.id, item.classification == PracticalPreparation, a.state == Current, false))
    + ChecklistSupportFailures(item)
  }

  function BrokenBasis(scope: Scope, basisVersion: Option<nat>, version: nat): bool {
    scope.BasisScope? && basisVersion != Some(version)
  }

  function StepFieldFailures(item: StepRow, version: nat, definitions: Registry): set<GateFailure> {
    var a := item.row;
    If(Monolingual(a), IncompleteBilingual, a.id)
    + If(Unordered(a), InvalidInterval, a.id)
    + OptionalRuleFailures(a.rule, a.id, definitions)
    + If(Blank(item.phase), BlankPhase, a.id)
    + If(BrokenBasis(item.scope, item.basisVersion, version), InvalidBasisOwner, a.id)
  }

  function StepFailures(item: StepRow, version: nat, definitions: Registry): set<GateFailure> {
    var a := item.row;
    StepFieldFailures(item, version, definitions)
    + EvidenceFailures(a.links, LinkChecks(a.id, true, a.state == Current, false))
    + If(a.state == Current && !AnySupport(a.links), AdequateEvidenceRequired, a.id)
  }

  function WarningFieldFailures(item: WarningRow, definitions: Registry): set<GateFailure> {
    var a := item.row;
    If(Monolingual(a), IncompleteBilingual, a.id)
    + If(Unordered(a), InvalidInterval, a.id)
    + OptionalRuleFailures(a.rule, a.id, definitions)
    + If(item.severity == OtherSeverity || item.kind == OtherWarning
         || item.role == OtherRole, UnsupportedWarningMetadata, a.id)
    + If(item.role == RegenerationRole && (item.kind != ProductWarning || item.severity != ImportantSeverity),
         InvalidRegenerationWarning, a.id)
  }

  function WarningFailures(item: WarningRow, definitions: Registry): set<GateFailure> {
    var a := item.row;
    WarningFieldFailures(item, definitions)
    + If(item.kind == ProductWarning && a.links != [], ProductWarningHasEvidence, a.id)
    + EvidenceFailures(a.links, LinkChecks(a.id, true, a.state == Current, false))
    + If(item.kind == AdministrativeWarning && a.state == Current
         && !AnySupport(a.links), AdequateEvidenceRequired, a.id)
  }

  /** `_valid_value_shape` of the gate. */
  predicate ValidValueShape(fee: FeeRow) {
    var amountOk := fee.amount.Some? && fee.amount.value >= 0;
    var rangeOk := fee.minimum.Some? && fee.maximum.Some? && fee.minimum.value >= 0
        && fee.maximum.value >= fee.minimum.value;
    match fee.valueState
    case Known => amountOk && fee.minimum.None? && fee.maximum.None?
    case Range => fee.amount.None? && rangeOk
    case UnknownValue => fee.amount.None? && fee.minimum.None? && fee.maximum.None?
    case UnverifiedValue =>
      ((amountOk && fee.minimum.None? && fee.maximum.None?) || (fee.amount.None? && rangeOk))
      && fee.row.state in {NeedsReverification, Stale, Disputed}
  }

  predicate NeedsEvidence(fee: FeeRow) {
    fee.valueState != UnknownValue
  }

  predicate NeedsCurrentSupport(fee: FeeRow) {
    (fee.valueState == Known || fee.valueState == Range) && fee.row.state == Current
  }

  function FeeFieldFailures(fee: FeeRow, version: nat, definitions: Registry): set<GateFailure> {
    var a := fee.row;
    If(Monolingual(a), IncompleteBilingual, a.id)
    + If(Blank(fee.currency), MissingCurrency, a.id)
    + If(Blank(fee.feeType), MissingFeeType, a.id)
    + If(!ValidValueShape(fee), InvalidValueState, a.id)
    + If(Unordered(a), InvalidInterval, a.id)
    + If(BrokenBasis(fee.scope, fee.basisVersion, version), InvalidBasisOwner, a.id)
    + OptionalRuleFailures(a.rule, a.id, definitions)
  }

  function FeeFailures(fee: FeeRow, version: nat, definitions: Registry): set<GateFailure> {
    var a := fee.row;
    FeeFieldFailures(fee, version, definitions)
    + EvidenceFailures(a.links, LinkChecks(a.id, true, NeedsCurrentSupport(fee), false))
    + If(NeedsEvidence(fee) && a.links == [], EvidenceRequired, a.id)
    + If(NeedsCurrentSupport(fee) && !AnySupport(a.links), AdequateEvidenceRequired, a.id)
  }

  function BasisFieldFailures(basis: BasisRow, definitions: Registry): set<GateFailure> {
    var a := basis.row;
    If(Monolingual(a), IncompleteBilingual, a.id)
    + If(Unordered(a), InvalidInterval, a.id)
    + OptionalRuleFailures(a.rule, a.id, definitions)
    + If(basis.qualification == NO_RULE, QualificationRequired, a.id)
    + OptionalRuleFailures(basis.qualification, a.id, definitions)
  }

  function BasisFailures(basis: BasisRow, definitions: Registry): set<GateFailure> {
    var a := basis.row;
    BasisFieldFailures(basis, definitions)
    + EvidenceFailures(a.links, LinkChecks(a.id, true, a.state == Current, false))
    + If(a.links == [], EvidenceRequired, a.id)
    + If(a.state == Current && !AnySupport(a.links), AdequateEvidenceRequired, a.id)
  }

  function DependencyOwnerFailures(d: DependencyRow, version: nat, procedure: nat): set<GateFailure> {
    If(!d.blocking, UnsupportedRelation, d.row.id)
    + If(d.version != version, InvalidOwner, d.row.id)
    + If(d.target == procedure, SelfDependency, d.row.id)
  }

  function DependencyFieldFailures(d: DependencyRow, definitions: Registry): set<GateFailure> {
    var a := d.row;
    If(Monolingual(a), IncompleteBilingual, a.id)
    + If(Unordered(a), InvalidInterval, a.id)
    + OptionalRuleFailures(a.rule, a.id, definitions)
    + If(d.satisfiedWhen == NO_RULE, SatisfiedWhenRequired, a.id)
    + OptionalRuleFailures(d.satisfiedWhen, a.id, definitions)
  }

  function DependencyFailures(d: DependencyRow, version: nat, procedure: nat, definitions: Registry): set<GateFailure> {
    var a := d.row;
    DependencyOwnerFailures(d, version, procedure)
    + DependencyFieldFailures(d, definitions)
    + EvidenceFailures(a.links, LinkChecks(a.id, true, a.state == Current, true))
    + If(a.links == [], EvidenceRequired, a.id)
    + If(a.state == Current && !AnySupport(a.links), AdequateEvidenceRequired, a.id)
  }

  function AssociationFieldFailures(x: AssociationRow, version: nat, definitions: Registry): set<GateFailure> {
    var a := x.row;
    If(x.version != version, InvalidOwner, a.id)
    + If(Unordered(a), InvalidInterval, a.id)
    + If(a.rule == NO_RULE, ApplicabilityRequired, a.id)
    + RuleFailures(a.rule, a.id, definitions)
    + If(a.state == Current && a.verifiedOn.None?, VerificationDateRequired, a.id)
  }

  function AssociationFailures(x: AssociationRow, version: nat, definitions: Registry): set<GateFailure> {
    var a := x.row;
    AssociationFieldFailures(x, version, definitions)
    + EvidenceFailures(a.links, LinkChecks("", true, a.state == Current, false))
    + If(a.links == [], EvidenceRequired, a.id)
    + If(a.links != [] && a.state == Current && !AnySupport(a.links), AdequateEvidenceRequired, a.id)
  }

  function MaterialFieldFailures(m: MaterialRow): set<GateFailure> {
    var a := m.row;
    If(Blank(m.nameAr) || Blank(m.nameEn), IncompleteIdentity, a.id)
    + If(Monolingual(a), IncompleteBilingual, a.id)
    + If(m.availability.OtherAvailability?, UnsupportedAvailability, a.id)
    + If(Unordered(a), InvalidInterval, a.id)
    + If(a.state == Current && a.verifiedOn.None?, VerificationDateRequired, a.id)
    + If(a.state == Current && m.overlapsCurrent, OverlappingCurrentMaterial, a.id)
  }

  function MaterialFailures(m: MaterialRow): set<GateFailure> {
    var a := m.row;
    MaterialFieldFailures(m)
    + EvidenceFailures(a.links, LinkChecks("", true, a.state == Current, false))
    + If(a.links == [], EvidenceRequired, a.id)
    + If(a.links != [] && a.state == Current && !AnySupport(a.links), AdequateEvidenceRequired, a.id)
  }

  // ----- the gates

  function RegenerationWarnings(warnings: seq<WarningRow>): nat {
    if warnings == [] then 0
    else
      RegenerationWarnings(warnings[..|warnings| - 1])
      + (if warnings[|warnings| - 1].role == RegenerationRole then 1 else 0)
  }

  /** What a gate reports over all rows. */
  function Over<R>(rows: seq<R>, f: R -> set<GateFailure>): set<GateFailure> {
    if rows == [] then {} else Over(rows[..|rows| - 1], f) + f(rows[|rows| - 1])
  }

  lemma OverNext<R>(rows: seq<R>, n: nat, f: R -> set<GateFailure>)
    requires n < |rows|
    ensures Over(rows[..n + 1], f) == Over(rows[..n], f) + f(rows[n])
  {
    assert rows[..n + 1][..n] == rows[..n];
  }

  /** Nothing is reported exactly when no row has a failure. */
  lemma {:induction false} Silent<R>(rows: seq<R>, f: R -> set<GateFailure>)
    ensures Over(rows, f) == {} <==> forall r | r in rows :: f(r) == {}
  {
    if rows != [] {
      var init, last := rows[..|rows| - 1], rows[|rows| - 1];
      Silent(init, f);
      assert Over(rows, f) == {} <==> Over(init, f) == {} && f(last) == {};
      assert forall r | r in rows :: r in init || r == last;
    }
  }

  function ChecklistChecks(definitions: Registry): ChecklistRow -> set<GateFailure> {
    (r: ChecklistRow) => ChecklistFailures(r, definitions)
  }

  function StepChecks(version: nat, definitions: Registry): StepRow -> set<GateFailure> {
    (r: StepRow) => StepFailures(r, version, definitions)
  }

  function WarningChecks(definitions: Registry): WarningRow -> set<GateFailure> {
    (r: WarningRow) => WarningFailures(r, definitions)
  }

  function FeeChecks(version: nat, definitions: Registry): FeeRow -> set<GateFailure> {
    (r: FeeRow) => FeeFailures(r, version, definitions)
  }

  function BasisChecks(definitions: Registry): BasisRow -> set<GateFailure> {
    (r: BasisRow) => BasisFailures(r, definitions)
  }

  function DependencyChecks(version: nat, procedure: nat, definitions: Registry): DependencyRow -> set<GateFailure> {
    (r: DependencyRow) => DependencyFailures(r, version, procedure, definitions)
  }

  function RoutingChecks(version: nat, materials: map<nat, MaterialRow>,
                         definitions: Registry): AssociationRow -> set<GateFailure> {
    (r: AssociationRow) => RoutingRowFailures(r, version, materials, definitions)
  }

  function RoutingRowFailures(x: AssociationRow, version: nat, materials: map<nat, MaterialRow>,
                              definitions: Registry): set<GateFailure> {
    AssociationFailures(x, version, definitions)
    + (if x.material in materials then MaterialFailures(materials[x.material])
       else {GateFailure(MissingMaterial, x.row.id, None)})
  }

  function GuidanceGate(id: string, version: nat, steps: seq<StepRow>, warnings: seq<WarningRow>,
                        definitions: Registry): set<GateFailure> {
    If((steps != [] || warnings != []) && RegenerationWarnings(warnings) != 1, ExactlyOneRegenerationWarning, id)
    + Over(steps, StepChecks(version, definitions)) + Over(warnings, WarningChecks(definitions))
  }

  function FeeGate(id: string, version: nat, fees: seq<FeeRow>, warnings: seq<WarningRow>,
                   definitions: Registry): set<GateFailure> {
    If(fees != [] && RegenerationWarnings(warnings) != 1, ExactlyOneRegenerationWarning, id)
    + Over(fees, FeeChecks(version, definitions))
  }

  method CheckChecklistItem(item: ChecklistRow, definitions: Registry) returns (failures: set<GateFailure>)
    ensures failures == ChecklistFailures(item, definitions)
  {
    var a, current := item.row, item.row.state == Current;
    var evidence, adequate, authoritative :=
      CheckEvidence(a.links, LinkChecks(a.id, item.classification == PracticalPreparation, current, false));
    var support := If(current && a.links == [], EvidenceRequired, a.id)
                   + If(current && a.links != [] && !adequate, AdequateEvidenceRequired, a.id)
                   + If(item.classification == OfficialRequirement && a.links != [] && !authoritative,
                        OfficialEvidenceRequired, a.id);
    failures := ChecklistFieldFailures(item, definitions) + evidence + support;
  }

  method CheckFee(fee: FeeRow, version: nat, definitions: Registry) returns (failures: set<GateFailure>)
    ensures failures == FeeFailures(fee, version, definitions)
  {
    var a := fee.row;
    var evidence, adequate, _ := CheckEvidence(a.links, LinkChecks(a.id, true, NeedsCurrentSupport(fee), false));
    failures := FeeFieldFailures(fee, version, definitions) + evidence
                + If(NeedsEvidence(fee) && a.links == [], EvidenceRequired, a.id)
                + If(NeedsCurrentSupport(fee) && !adequate, AdequateEvidenceRequired, a.id);
  }

  method CheckAssociation(x: AssociationRow, version: nat, definitions: Registry) returns (failures: set<GateFailure>)
    ensures failures == AssociationFailures(x, version, definitions)
  {
    var a := x.row;
    var evidence, adequate, _ := CheckEvidence(a.links, LinkChecks("", true, a.state == Current, false));
    failures := If(x.version != version, InvalidOwner, a.id) + If(Unordered(a), InvalidInterval, a.id)
                + If(a.rule == NO_RULE, ApplicabilityRequired, a.id) + RuleFailures(a.rule, a.id, definitions)
                + If(a.state == Current && a.verifiedOn.None?, VerificationDateRequired, a.id) + evidence
                + If(a.links == [], EvidenceRequired, a.id)
                + If(a.links != [] && a.state == Current && !adequate, AdequateEvidenceRequired, a.id);
  }

  method ValidateChecklist(items: seq<ChecklistRow>, definitions: Registry) returns (failures: set<GateFailure>)
    ensures failures == Over(items, ChecklistChecks(definitions))
  {
    failures := {};
    for n := 0 to |items|
      invariant failures == Over(items[..n], ChecklistChecks(definitions))
    {
      OverNext(items, n, ChecklistChecks(definitions));
      var own := CheckChecklistItem(items[n], definitions);
      failures := failures + own;
    }
    assert items[..|items|] == items;
  }

  method ValidateFees(id: string, version: nat, fees: seq<FeeRow>, warnings: seq<WarningRow>, definitions: Registry)
    returns (failures: set<GateFailure>)
    ensures failures == FeeGate(id, version, fees, warnings, definitions)
  {
    failures := {};
    for n := 0 to |fees|
      invariant failures == Over(fees[..n], FeeChecks(version, definitions))
    {
      OverNext(fees, n, FeeChecks(version, definitions));
      var own := CheckFee(fees[n], version, definitions);
      failures := failures + own;
    }
    assert fees[..|fees|] == fees;
    failures := If(fees != [] && RegenerationWarnings(warnings) != 1, ExactlyOneRegenerationWarning, id) + failures;
  }

  lemma Regroup(a: set<GateFailure>, b: set<GateFailure>, c: set<GateFailure>)
    ensures a + b + c == a + (b + c)
    ensures c <= a ==> a + b == a + (b + c)
    ensures a <= a + b && a <= a + b + c && c <= a + b + c
  {}

  /** Each material version is checked once, however many associations share it. */
  method ValidateRouting(version: nat, associations: seq<AssociationRow>, materials: map<nat, MaterialRow>,
                         definitions: Registry)
    returns (failures: set<GateFailure>)
    ensures failures == Over(associations, RoutingChecks(version, materials, definitions))
  {
    failures := {};
    var checked: set<nat> := {};
    ghost var f := RoutingChecks(version, materials, definitions);
    for n := 0 to |associations|
      invariant failures == Over(associations[..n], f)
      invariant forall m | m in checked :: m in materials && MaterialFailures(materials[m]) <= failures
    {
      OverNext(associations, n, f);
      var x := associations[n];
      var own := CheckAssociation(x, version, definitions);
      ghost var before := failures;
      failures := failures + own;
      if x.material !in materials {
        Regroup(before, own, {GateFailure(MissingMaterial, x.row.id, None)});
        failures := failures + {GateFailure(MissingMaterial, x.row.id, None)};
        continue;
      }
      Regroup(before, own, MaterialFailures(materials[x.material]));
      if x.material in checked { continue; }
      checked := checked + {x.material};
      failures := failures + MaterialFailures(materials[x.material]);
    }
    assert associations[..|associations|] == associations;
  }

  // ----- the guidance gate

  ghost predicate TextsAndInterval(a: Authored) {
    && !Blank(a.textAr) && !Blank(a.textEn)
    && (a.effectiveFrom.Some? && a.effectiveTo.Some? ==> NotAfter(a.effectiveFrom.value, a.effectiveTo.value))
  }

  /** A step the guidance gate has nothing to say about. */
  ghost predicate StepIsClean(item: StepRow, version: nat, definitions: Registry) {
    var a := item.row;
    && TextsAndInterval(a) && OptionalDecodes(a.rule, definitions)
    && !Blank(item.phase) && (item.scope.BasisScope? ==> item.basisVersion == Some(version))
    && CleanLinks(a.links, LinkChecks(a.id, true, a.state == Current, false))
    && (a.state == Current ==> exists link | link in a.links :: SupportsNow(link))
  }

  ghost predicate WarningIsClean(item: WarningRow, definitions: Registry) {
    var a := item.row;
    && TextsAndInterval(a) && OptionalDecodes(a.rule, definitions)
    && item.severity != OtherSeverity && item.kind != OtherWarning && item.role != OtherRole
    && (item.role == RegenerationRole ==> item.kind == ProductWarning && item.severity == ImportantSeverity)
    && (item.kind == ProductWarning ==> a.links == [])
    && CleanLinks(a.links, LinkChecks(a.id, true, a.state == Current, false))
    && (item.kind == AdministrativeWarning && a.state == Current ==> exists link | link in a.links :: SupportsNow(link))
  }

  lemma OrderedMeans(a: Authored)
    ensures TextsAndInterval(a) <==> !Monolingual(a) && !Unordered(a)
  {}

  lemma StepCleanExactlyIf(item: StepRow, version: nat, definitions: Registry)
    ensures StepFailures(item, version, definitions) == {} <==> StepIsClean(item, version, definitions)
  {
    var a := item.row;
    OrderedMeans(a);
    IfMeans(Monolingual(a), IncompleteBilingual, a.id);
    IfMeans(Unordered(a), InvalidInterval, a.id);
    OptionalMeansDecodes(a.rule, a.id, definitions);
    IfMeans(Blank(item.phase), BlankPhase, a.id);
    IfMeans(BrokenBasis(item.scope, item.basisVersion, version), InvalidBasisOwner, a.id);
    EvidenceCleanExactlyIf(a.links, LinkChecks(a.id, true, a.state == Current, false));
    IfMeans(a.state == Current && !AnySupport(a.links), AdequateEvidenceRequired, a.id);
  }

  lemma WarningCleanExactlyIf(item: WarningRow, definitions: Registry)
    ensures WarningFailures(item, definitions) == {} <==> WarningIsClean(item, definitions)
  {
    var a := item.row;
    OrderedMeans(a);
    IfMeans(Monolingual(a), IncompleteBilingual, a.id);
    IfMeans(Unordered(a), InvalidInterval, a.id);
    OptionalMeansDecodes(a.rule, a.id, definitions);
    IfMeans(item.severity == OtherSeverity || item.kind == OtherWarning
            || item.role == OtherRole, UnsupportedWarningMetadata, a.id);
    IfMeans(item.role == RegenerationRole && (item.kind != ProductWarning || item.severity != ImportantSeverity),
            InvalidRegenerationWarning, a.id);
    IfMeans(item.kind == ProductWarning && a.links != [], ProductWarningHasEvidence, a.id);
    EvidenceCleanExactlyIf(a.links, LinkChecks(a.id, true, a.state == Current, false));
    IfMeans(item.kind == AdministrativeWarning && a.state == Current
            && !AnySupport(a.links), AdequateEvidenceRequired, a.id);
  }

  method CheckRule(raw: Json, owner: string, definitions: Registry) returns (failures: set<GateFailure>)
    ensures failures == OptionalRuleFailures(raw, owner, definitions)
  {
    if raw == NO_RULE { return {}; }
    var validation := ValidateRule(raw, definitions);
    failures := set d | d in validation.diagnostics :: GateFailure(RuleDefect(d.code), owner, None);
  }

  method CheckStep(item: StepRow, version: nat, definitions: Registry) returns (failures: set<GateFailure>)
    ensures failures == StepFailures(item, version, definitions)
  {
    var a := item.row;
    var rule := CheckRule(a.rule, a.id, definitions);
    var evidence, adequate, _ := CheckEvidence(a.links, LinkChecks(a.id, true, a.state == Current, false));
    failures := If(Blank(a.textAr) || Blank(a.textEn), IncompleteBilingual, a.id)
                + If(Unordered(a), InvalidInterval, a.id) + rule
                + If(Blank(item.phase), BlankPhase, a.id)
                + If(item.scope.BasisScope? && item.basisVersion != Some(version), InvalidBasisOwner, a.id)
                + evidence + If(a.state == Current && !adequate, AdequateEvidenceRequired, a.id);
  }

  method CheckWarningFields(item: WarningRow, definitions: Registry) returns (failures: set<GateFailure>)
    ensures failures == WarningFieldFailures(item, definitions)
  {
    var a := item.row;
    var rule := CheckRule(a.rule, a.id, definitions);
    failures := If(Blank(a.textAr) || Blank(a.textEn), IncompleteBilingual, a.id)
                + If(Unordered(a), InvalidInterval, a.id) + rule
                + If(item.severity == OtherSeverity || item.kind == OtherWarning || item.role == OtherRole,
                     UnsupportedWarningMetadata, a.id)
                + If(item.role == RegenerationRole
                     && (item.kind != ProductWarning || item.severity != ImportantSeverity), InvalidRegenerationWarning,
                     a.id);
  }

  method CheckWarning(item: WarningRow, definitions: Registry) returns (failures: set<GateFailure>)
    ensures failures == WarningFailures(item, definitions)
  {
    var a := item.row;
    var fields := CheckWarningFields(item, definitions);
    var evidence, adequate, _ := CheckEvidence(a.links, LinkChecks(a.id, true, a.state == Current, false));
    failures := fields
                + If(item.kind == ProductWarning && a.links != [], ProductWarningHasEvidence, a.id)
                + evidence
                + If(item.kind == AdministrativeWarning && a.state == Current && !adequate,
                     AdequateEvidenceRequired, a.id);
  }

  /** One warning is the regeneration notice, and no other is. */
  ghost predicate OneRegeneration(warnings: seq<WarningRow>) {
    exists i | 0 <= i < |warnings| :: OnlyRegeneration(warnings, i)
  }

  ghost predicate OnlyRegeneration(warnings: seq<WarningRow>, i: nat) {
    && i < |warnings| && warnings[i].role == RegenerationRole
    && forall j | 0 <= j < |warnings| && j != i :: warnings[j].role != RegenerationRole
  }

  lemma {:induction false} NoRegeneration(warnings: seq<WarningRow>)
    ensures RegenerationWarnings(warnings) == 0
            <==> forall j | 0 <= j < |warnings| :: warnings[j].role != RegenerationRole
  {
    if warnings != [] {
      var init := warnings[..|warnings| - 1];
      NoRegeneration(init);
      assert forall j | 0 <= j < |init| :: warnings[j] == init[j];
    }
  }

  lemma {:induction false} OnlyOneCounts(warnings: seq<WarningRow>, i: nat)
    requires OnlyRegeneration(warnings, i)
    ensures RegenerationWarnings(warnings) == 1
  {
    var init := warnings[..|warnings| - 1];
    if i == |init| { NoRegeneration(init); } else { OnlyOneCounts(init, i); }
  }

  lemma {:induction false} CountedOnce(warnings: seq<WarningRow>) returns (i: nat)
    requires RegenerationWarnings(warnings) == 1
    ensures OnlyRegeneration(warnings, i)
  {
    i := |warnings| - 1;
    var init := warnings[..i];
    if warnings[i].role == RegenerationRole { NoRegeneration(init); } else { i := CountedOnce(init); }
    assert forall j | 0 <= j < |init| :: warnings[j] == init[j];
  }

  lemma OneRegenerationMeans(warnings: seq<WarningRow>)
    ensures RegenerationWarnings(warnings) == 1 <==> OneRegeneration(warnings)
  {
    if RegenerationWarnings(warnings) == 1 { var i := CountedOnce(warnings); }
    if i :| 0 <= i < |warnings| && OnlyRegeneration(warnings, i) { OnlyOneCounts(warnings, i); }
  }

  /** The rows of the guidance gate, and its regeneration notice, are in order. */
  ghost predicate GuidanceIsClean(version: nat, steps: seq<StepRow>, warnings: seq<WarningRow>, definitions: Registry) {
    && ((steps == [] && warnings == []) || OneRegeneration(warnings))
    && (forall r | r in steps :: StepIsClean(r, version, definitions))
    && (forall r | r in warnings :: WarningIsClean(r, definitions))
  }

  lemma GuidanceSilentExactlyIf(id: string, version: nat, steps: seq<StepRow>, warnings: seq<WarningRow>,
                                definitions: Registry)
    ensures GuidanceGate(id, version, steps, warnings, definitions) == {}
            <==> GuidanceIsClean(version, steps, warnings, definitions)
  {
    OneRegenerationMeans(warnings);
    IfMeans((steps != [] || warnings != []) && RegenerationWarnings(warnings) != 1, ExactlyOneRegenerationWarning, id);
    StepsSilentExactlyIf(steps, version, definitions);
    WarningsSilentExactlyIf(warnings, definitions);
  }

  lemma StepsSilentExactlyIf(steps: seq<StepRow>, version: nat, definitions: Registry)
    ensures Over(steps, StepChecks(version, definitions)) == {}
            <==> forall r | r in steps :: StepIsClean(r, version, definitions)
  {
    Silent(steps, StepChecks(version, definitions));
    forall r ensures StepChecks(version, definitions)(r) == {} <==> StepIsClean(r, version, definitions) {
      StepCleanExactlyIf(r, version, definitions);
    }
  }

  lemma WarningsSilentExactlyIf(warnings: seq<WarningRow>, definitions: Registry)
    ensures Over(warnings, WarningChecks(definitions)) == {}
            <==> forall r | r in warnings :: WarningIsClean(r, definitions)
  {
    Silent(warnings, WarningChecks(definitions));
    forall r ensures WarningChecks(definitions)(r) == {} <==> WarningIsClean(r, definitions) {
      WarningCleanExactlyIf(r, definitions);
    }
  }

  /** Silent exactly when every step and warning is clean, and guidance comes with exactly one regeneration notice. */
  method ValidateGuidance(id: string, version: nat, steps: seq<StepRow>, warnings: seq<WarningRow>,
                          definitions: Registry)
    returns (failures: set<GateFailure>)
    ensures failures == {} <==> GuidanceIsClean(version, steps, warnings, definitions)
    ensures failures == GuidanceGate(id, version, steps, warnings, definitions)
  {
    var regenerations := CountRegenerations(warnings);
    failures := If((steps != [] || warnings != []) && regenerations != 1, ExactlyOneRegenerationWarning, id);
    var ofSteps := CheckSteps(steps, version, definitions);
    var ofWarnings := CheckWarnings(warnings, definitions);
    failures := failures + ofSteps + ofWarnings;
    GuidanceSilentExactlyIf(id, version, steps, warnings, definitions);
  }

  method CountRegenerations(warnings: seq<WarningRow>) returns (regenerations: nat)
    ensures regenerations == RegenerationWarnings(warnings)
  {
    regenerations := 0;
    for n := 0 to |warnings|
      invariant regenerations == RegenerationWarnings(warnings[..n])
    {
      assert warnings[..n + 1][..n] == warnings[..n];
      if warnings[n].role == RegenerationRole { regenerations := regenerations + 1; }
    }
    assert warnings[..|warnings|] == warnings;
  }

  method CheckSteps(steps: seq<StepRow>, version: nat, definitions: Registry) returns (failures: set<GateFailure>)
    ensures failures == Over(steps, StepChecks(version, definitions))
  {
    failures := {};
    for n := 0 to |steps|
      invariant failures == Over(steps[..n], StepChecks(version, definitions))
    {
      OverNext(steps, n, StepChecks(version, definitions));
      var own := CheckStep(steps[n], version, definitions);
      failures := failures + own;
    }
    assert steps[..|steps|] == steps;
  }

  method CheckWarnings(warnings: seq<WarningRow>, definitions: Registry) returns (failures: set<GateFailure>)
    ensures failures == Over(warnings, WarningChecks(definitions))
  {
    failures := {};
    for n := 0 to |warnings|
      invariant failures == Over(warnings[..n], WarningChecks(definitions))
    {
      OverNext(warnings, n, WarningChecks(definitions));
      var own := CheckWarning(warnings[n], definitions);
      failures := failures + own;
    }
    assert warnings[..|warnings|] == warnings;
  }

  // ----- the loader

  datatype LoadCode =
    | RuleRefused | MissingEvidenceLinkCode | MissingEvidenceSourceCode | InadequateEvidence | InvalidBasisOwnerCode
    | MissingCurrencyCode | MissingFeeTypeCode | InvalidFeeValue | InvalidWarningEvidence
    | MissingQualification | InvalidBasisEvidence | UnsupportedDependencyRelation | SelfDependencyCode
    | MissingSatisfiedWhen
    | InvalidDependencyEvidence | InvalidRoutingEvidence | InvalidServicePointMaterial

  datatype LoadFailure = LoadFailure(owner: string, code: LoadCode)

  predicate OptionalDecodes(raw: Json, definitions: Registry) {
    raw == NO_RULE || Decodes(raw, definitions)
  }

  predicate Unsourced(links: seq<Link>) {
    exists link | link in links :: link.sources == []
  }

  /** `_adequate` */
  predicate Adequate(links: seq<Link>) {
    && (exists link | link in links ::
          link.state == Current && link.support == Supports && link.sources != [] && Detailed(link))
    && !exists link | link in links :: ContradictsNow(link)
  }

  predicate RoutingClean(link: Link) {
    Detailed(link) && (forall s | s in link.sources :: !Malformed(s)) && !ContradictsNow(link)
  }

  /** `_routing_evidence_is_adequate`: one bad link spoils the rest. */
  predicate RoutingAdequate(links: seq<Link>) {
    && (forall link | link in links :: RoutingClean(link))
    && exists link | link in links :: link.state == Current && link.support == Supports && link.sources != []
  }

  method RoutingEvidenceIsAdequate(links: seq<Link>) returns (adequate: bool)
    ensures adequate == RoutingAdequate(links)
  {
    adequate := false;
    for n := 0 to |links|
      invariant forall i | 0 <= i < n :: RoutingClean(links[i])
      invariant adequate == exists i | 0 <= i < n ::
                              links[i].state == Current && links[i].support == Supports && links[i].sources != []
    {
      var link := links[n];
      assert link in links;
      if Blank(link.passage) || Blank(link.location) || Blank(link.context) {
        assert !RoutingClean(link);
        return false;
      }
      if exists s | s in link.sources :: s.kind == FieldReport && (s.observedOn.None? || Blank(s.observationContext)) {
        assert !RoutingClean(link);
        return false;
      }
      if link.state == Current && link.support == Contradicts {
        assert !RoutingClean(link);
        return false;
      }
      adequate := adequate || (link.state == Current && link.support == Supports && link.sources != []);
    }
  }

  function LoadChecklist(item: ChecklistRow, definitions: Registry): seq<LoadFailure> {
    var a := item.row;
    if !OptionalDecodes(a.rule, definitions) then [LoadFailure(a.id, RuleRefused)]
    else if a.state == Current && a.links == [] then [LoadFailure(a.id, MissingEvidenceLinkCode)]
    else if Unsourced(a.links) then [LoadFailure(a.id, MissingEvidenceSourceCode)]
    else []
  }

  function LoadStep(item: StepRow, version: nat, definitions: Registry): seq<LoadFailure> {
    var a := item.row;
    var decodes := OptionalDecodes(a.rule, definitions);
    (if decodes then [] else [LoadFailure(a.id, RuleRefused)])
    + (if BrokenBasis(item.scope, item.basisVersion, version) then [LoadFailure(a.id, InvalidBasisOwnerCode)]
       else if decodes && a.state == Current && !Adequate(a.links) then [LoadFailure(a.id, InadequateEvidence)]
       else [])
  }

  function LoadFee(fee: FeeRow, version: nat, definitions: Registry): seq<LoadFailure> {
    var a := fee.row;
    if !OptionalDecodes(a.rule, definitions) then [LoadFailure(a.id, RuleRefused)]
    else if BrokenBasis(fee.scope, fee.basisVersion, version) then [LoadFailure(a.id, InvalidBasisOwnerCode)]
    else if Blank(fee.currency) then [LoadFailure(a.id, MissingCurrencyCode)]
    else if Blank(fee.feeType) then [LoadFailure(a.id, MissingFeeTypeCode)]
    else if !ValidFeeShape(fee) then [LoadFailure(a.id, InvalidFeeValue)]
    else if NeedsEvidence(fee) && a.links == [] then [LoadFailure(a.id, MissingEvidenceLinkCode)]
    else if NeedsEvidence(fee) && Unsourced(a.links) then [LoadFailure(a.id, MissingEvidenceSourceCode)]
    else if NeedsCurrentSupport(fee) && !Adequate(a.links) then [LoadFailure(a.id, InadequateEvidence)]
    else []
  }

  /** `_valid_fee_shape` of the loader, written independently of the gate's. */
  predicate ValidFeeShape(fee: FeeRow) {
    if fee.valueState == UnknownValue then fee.amount.None? && fee.minimum.None? && fee.maximum.None?
    else
      var exact := fee.amount.Some? && fee.amount.value >= 0 && fee.minimum.None? && fee.maximum.None?;
      var range := fee.amount.None? && fee.minimum.Some? && fee.maximum.Some?
          && 0 <= fee.minimum.value <= fee.maximum.value;
      (fee.valueState == Known && exact) || (fee.valueState == Range && range)
      || (fee.valueState == UnverifiedValue && (exact || range)
          && (fee.row.state == NeedsReverification || fee.row.state == Stale || fee.row.state == Disputed))
  }

  function LoadWarning(item: WarningRow, definitions: Registry): seq<LoadFailure> {
    var a := item.row;
    (if OptionalDecodes(a.rule, definitions) then [] else [LoadFailure(a.id, RuleRefused)])
    + (if (item.kind == ProductWarning && a.links != [])
          || (item.kind == AdministrativeWarning && a.state == Current && !Adequate(a.links))
       then [LoadFailure(a.id, InvalidWarningEvidence)] else [])
  }

  function LoadBasis(basis: BasisRow, definitions: Registry): seq<LoadFailure> {
    var a := basis.row;
    if !OptionalDecodes(a.rule, definitions) then [LoadFailure(a.id, RuleRefused)]
    else if basis.qualification == NO_RULE then [LoadFailure(a.id, MissingQualification)]
    else if !Decodes(basis.qualification, definitions) then [LoadFailure(a.id, RuleRefused)]
    else if Monolingual(a) || a.links == [] || Unsourced(a.links) then [LoadFailure(a.id, InvalidBasisEvidence)]
    else []
  }

  function LoadDependency(d: DependencyRow, definitions: Registry): seq<LoadFailure> {
    var a := d.row;
    if !d.blocking then [LoadFailure(a.id, UnsupportedDependencyRelation)]
    else if d.procedure == d.target then [LoadFailure(a.id, SelfDependencyCode)]
    else if !OptionalDecodes(a.rule, definitions) then [LoadFailure(a.id, RuleRefused)]
    else if d.satisfiedWhen == NO_RULE then [LoadFailure(a.id, MissingSatisfiedWhen)]
    else if !Decodes(d.satisfiedWhen, definitions) then [LoadFailure(a.id, RuleRefused)]
    else if Monolingual(a) || a.links == [] || Unsourced(a.links) then [LoadFailure(a.id, InvalidDependencyEvidence)]
    else []
  }

  function LoadAssociation(x: AssociationRow, definitions: Registry): seq<LoadFailure> {
    var a := x.row;
    if !Decodes(a.rule, definitions) then [LoadFailure(a.id, RuleRefused)]
    else if a.links == [] || Unsourced(a.links) || (a.state == Current && !RoutingAdequate(a.links))
    then [LoadFailure(a.id, InvalidRoutingEvidence)]
    else []
  }

  function LoadMaterial(m: MaterialRow): seq<LoadFailure> {
    var a := m.row;
    if Monolingual(a) || m.availability.OtherAvailability? || a.links == [] || Unsourced(a.links)
       || (a.state == Current && !RoutingAdequate(a.links))
    then [LoadFailure(a.id, InvalidServicePointMaterial)] else []
  }

  // ----- passing the gate means passing the loader

  lemma IfMeans(condition: bool, code: GateCode, owner: string)
    ensures If(condition, code, owner) == {} <==> !condition
  {
    if condition { assert GateFailure(code, owner, None) in If(condition, code, owner); }
  }

  lemma OptionalMeansDecodes(raw: Json, owner: string, definitions: Registry)
    ensures OptionalRuleFailures(raw, owner, definitions) == {} <==> OptionalDecodes(raw, definitions)
  {
    if raw != NO_RULE { NoRuleFailuresMeansDecoded(raw, owner, definitions); }
  }

  lemma CleanSupportIsAdequate(links: seq<Link>, checks: LinkChecks)
    requires CleanLinks(links, checks) && checks.contradictions && AnySupport(links)
    ensures Adequate(links)
    ensures checks.fieldReports ==> RoutingAdequate(links)
  {}

  lemma ChecklistPasses(item: ChecklistRow, definitions: Registry)
    requires ChecklistFailures(item, definitions) == {}
    ensures LoadChecklist(item, definitions) == []
  {
    var a := item.row;
    var checks := LinkChecks(a.id, item.classification == PracticalPreparation, a.state == Current, false);
    assert ChecklistFieldFailures(item, definitions) == {} && EvidenceFailures(a.links, checks) == {};
    assert OptionalRuleFailures(a.rule, a.id, definitions) == {};
    OptionalMeansDecodes(a.rule, a.id, definitions);
    EvidenceCleanExactlyIf(a.links, checks);
    assert ChecklistSupportFailures(item) == {};
    IfMeans(a.state == Current && a.links == [], EvidenceRequired, a.id);
  }

  lemma StepPasses(item: StepRow, version: nat, definitions: Registry)
    requires StepFailures(item, version, definitions) == {}
    ensures LoadStep(item, version, definitions) == []
  {
    var a := item.row;
    var checks := LinkChecks(a.id, true, a.state == Current, false);
    assert OptionalRuleFailures(a.rule, a.id, definitions) == {} && EvidenceFailures(a.links, checks) == {};
    OptionalMeansDecodes(a.rule, a.id, definitions);
    EvidenceCleanExactlyIf(a.links, checks);
    IfMeans(BrokenBasis(item.scope, item.basisVersion, version), InvalidBasisOwner, a.id);
    IfMeans(a.state == Current && !AnySupport(a.links), AdequateEvidenceRequired, a.id);
    if a.state == Current { CleanSupportIsAdequate(a.links, checks); }
  }

  lemma WarningPasses(item: WarningRow, definitions: Registry)
    requires WarningFailures(item, definitions) == {}
    ensures LoadWarning(item, definitions) == []
  {
    var a := item.row;
    var checks := LinkChecks(a.id, true, a.state == Current, false);
    assert WarningFieldFailures(item, definitions) == {} && EvidenceFailures(a.links, checks) == {};
    assert OptionalRuleFailures(a.rule, a.id, definitions) == {};
    OptionalMeansDecodes(a.rule, a.id, definitions);
    EvidenceCleanExactlyIf(a.links, checks);
    IfMeans(item.kind == ProductWarning && a.links != [], ProductWarningHasEvidence, a.id);
    IfMeans(item.kind == AdministrativeWarning && a.state == Current
            && !AnySupport(a.links), AdequateEvidenceRequired, a.id);
    if item.kind == AdministrativeWarning && a.state == Current { CleanSupportIsAdequate(a.links, checks); }
  }

  /** The two fee-shape checks, written apart, accept the same fees. */
  lemma FeeShapesAgree(fee: FeeRow)
    ensures ValidValueShape(fee) <==> ValidFeeShape(fee)
  {}

  lemma FeePasses(fee: FeeRow, version: nat, definitions: Registry)
    requires FeeFailures(fee, version, definitions) == {}
    ensures LoadFee(fee, version, definitions) == []
  {
    var a := fee.row;
    var checks := LinkChecks(a.id, true, NeedsCurrentSupport(fee), false);
    assert FeeFieldFailures(fee, version, definitions) == {} && EvidenceFailures(a.links, checks) == {};
    assert OptionalRuleFailures(a.rule, a.id, definitions) == {};
    OptionalMeansDecodes(a.rule, a.id, definitions);
    EvidenceCleanExactlyIf(a.links, checks);
    FeeShapesAgree(fee);
    IfMeans(Blank(fee.currency), MissingCurrency, a.id);
    IfMeans(Blank(fee.feeType), MissingFeeType, a.id);
    IfMeans(!ValidValueShape(fee), InvalidValueState, a.id);
    IfMeans(BrokenBasis(fee.scope, fee.basisVersion, version), InvalidBasisOwner, a.id);
    IfMeans(NeedsEvidence(fee) && a.links == [], EvidenceRequired, a.id);
    IfMeans(NeedsCurrentSupport(fee) && !AnySupport(a.links), AdequateEvidenceRequired, a.id);
    if NeedsCurrentSupport(fee) { CleanSupportIsAdequate(a.links, checks); }
  }

  lemma BasisPasses(basis: BasisRow, definitions: Registry)
    requires BasisFailures(basis, definitions) == {}
    ensures LoadBasis(basis, definitions) == []
  {
    var a := basis.row;
    var checks := LinkChecks(a.id, true, a.state == Current, false);
    assert OptionalRuleFailures(a.rule, a.id, definitions) == {} && EvidenceFailures(a.links, checks) == {};
    assert OptionalRuleFailures(basis.qualification, a.id, definitions) == {};
    OptionalMeansDecodes(a.rule, a.id, definitions);
    OptionalMeansDecodes(basis.qualification, a.id, definitions);
    EvidenceCleanExactlyIf(a.links, checks);
    IfMeans(Monolingual(a), IncompleteBilingual, a.id);
    IfMeans(basis.qualification == NO_RULE, QualificationRequired, a.id);
    IfMeans(a.links == [], EvidenceRequired, a.id);
  }

  lemma DependencyPasses(d: DependencyRow, version: nat, procedure: nat, definitions: Registry)
    requires DependencyFailures(d, version, procedure, definitions) == {} && d.procedure == procedure
    ensures LoadDependency(d, definitions) == []
  {
    var a := d.row;
    var checks := LinkChecks(a.id, true, a.state == Current, true);
    assert OptionalRuleFailures(a.rule, a.id, definitions) == {} && EvidenceFailures(a.links, checks) == {};
    assert OptionalRuleFailures(d.satisfiedWhen, a.id, definitions) == {};
    OptionalMeansDecodes(a.rule, a.id, definitions);
    OptionalMeansDecodes(d.satisfiedWhen, a.id, definitions);
    EvidenceCleanExactlyIf(a.links, checks);
    IfMeans(Monolingual(a), IncompleteBilingual, a.id);
    IfMeans(!d.blocking, UnsupportedRelation, a.id);
    IfMeans(d.target == procedure, SelfDependency, a.id);
    IfMeans(d.satisfiedWhen == NO_RULE, SatisfiedWhenRequired, a.id);
    IfMeans(a.links == [], EvidenceRequired, a.id);
  }

  lemma AssociationPasses(x: AssociationRow, version: nat, definitions: Registry)
    requires AssociationFailures(x, version, definitions) == {}
    ensures LoadAssociation(x, definitions) == []
  {
    var a := x.row;
    var checks := LinkChecks("", true, a.state == Current, false);
    assert RuleFailures(a.rule, a.id, definitions) == {} && EvidenceFailures(a.links, checks) == {};
    NoRuleFailuresMeansDecoded(a.rule, a.id, definitions);
    EvidenceCleanExactlyIf(a.links, checks);
    IfMeans(a.links == [], EvidenceRequired, a.id);
    IfMeans(a.links != [] && a.state == Current && !AnySupport(a.links), AdequateEvidenceRequired, a.id);
    if a.state == Current { CleanSupportIsAdequate(a.links, checks); }
  }

  lemma MaterialPasses(m: MaterialRow)
    requires MaterialFailures(m) == {}
    ensures LoadMaterial(m) == []
  {
    var a := m.row;
    var checks := LinkChecks("", true, a.state == Current, false);
    assert EvidenceFailures(a.links, checks) == {};
    EvidenceCleanExactlyIf(a.links, checks);
    IfMeans(Monolingual(a), IncompleteBilingual, a.id);
    IfMeans(m.availability.OtherAvailability?, UnsupportedAvailability, a.id);
    IfMeans(a.links == [], EvidenceRequired, a.id);
    IfMeans(a.links != [] && a.state == Current && !AnySupport(a.links), AdequateEvidenceRequired, a.id);
    if a.state == Current { CleanSupportIsAdequate(a.links, checks); }
  }

  // ----- a whole version

  /** Everything one version owns. */
  datatype Aggregate =
    Aggregate(id: string, version: nat, procedure: nat, applicability: Json, checklist: seq<ChecklistRow>,
              steps: seq<StepRow>, warnings: seq<WarningRow>, fees: seq<FeeRow>, bases: seq<BasisRow>,
              dependencies: seq<DependencyRow>, associations: seq<AssociationRow>, materials: map<nat, MaterialRow>)

  function AllGates(v: Aggregate, definitions: Registry): set<GateFailure> {
    RuleFailures(v.applicability, v.id, definitions)
    + Over(v.checklist, ChecklistChecks(definitions))
    + GuidanceGate(v.id, v.version, v.steps, v.warnings, definitions)
    + FeeGate(v.id, v.version, v.fees, v.warnings, definitions)
    + Over(v.bases, BasisChecks(definitions))
    + Over(v.dependencies, DependencyChecks(v.version, v.procedure, definitions))
    + Over(v.associations, RoutingChecks(v.version, v.materials, definitions))
  }

  /** The loader finds nothing wrong with the version, its rows, or the material its associations use. */
  ghost predicate Loads(v: Aggregate, definitions: Registry) {
    && Decodes(v.applicability, definitions)
    && (forall r | r in v.checklist :: LoadChecklist(r, definitions) == [])
    && (forall r | r in v.steps :: LoadStep(r, v.version, definitions) == [])
    && (forall r | r in v.warnings :: LoadWarning(r, definitions) == [])
    && (forall r | r in v.fees :: LoadFee(r, v.version, definitions) == [])
    && (forall r | r in v.bases :: LoadBasis(r, definitions) == [])
    && (forall r | r in v.dependencies :: LoadDependency(r, definitions) == [])
    && (forall r | r in v.associations ::
          && LoadAssociation(r, definitions) == [] && r.material in v.materials
          && LoadMaterial(v.materials[r.material]) == [])
  }

  lemma RoutingRowPasses(x: AssociationRow, version: nat, materials: map<nat, MaterialRow>, definitions: Registry)
    requires RoutingRowFailures(x, version, materials, definitions) == {}
    ensures LoadAssociation(x, definitions) == [] && x.material in materials
            && LoadMaterial(materials[x.material]) == []
  {
    assert x.material !in materials ==>
             GateFailure(MissingMaterial, x.row.id, None) in RoutingRowFailures(x, version, materials, definitions);
    AssociationPasses(x, version, definitions);
    MaterialPasses(materials[x.material]);
  }

  /** A version every gate is silent about is one the loader accepts whole. */
  lemma GatesImplyLoader(v: Aggregate, definitions: Registry)
    requires AllGates(v, definitions) == {}
    requires forall d | d in v.dependencies :: d.procedure == v.procedure
    ensures Loads(v, definitions)
  {
    assert RuleFailures(v.applicability, v.id, definitions) == {};
    NoRuleFailuresMeansDecoded(v.applicability, v.id, definitions);
    Silent(v.checklist, ChecklistChecks(definitions));
    Silent(v.steps, StepChecks(v.version, definitions));
    Silent(v.warnings, WarningChecks(definitions));
    Silent(v.fees, FeeChecks(v.version, definitions));
    Silent(v.bases, BasisChecks(definitions));
    Silent(v.dependencies, DependencyChecks(v.version, v.procedure, definitions));
    Silent(v.associations, RoutingChecks(v.version, v.materials, definitions));
    forall r | r in v.checklist ensures LoadChecklist(r, definitions) == [] {
      assert ChecklistChecks(definitions)(r) == {};
      ChecklistPasses(r, definitions);
    }
    forall r | r in v.steps ensures LoadStep(r, v.version, definitions) == [] {
      assert StepChecks(v.version, definitions)(r) == {};
      StepPasses(r, v.version, definitions);
    }
    forall r | r in v.warnings ensures LoadWarning(r, definitions) == [] {
      assert WarningChecks(definitions)(r) == {};
      WarningPasses(r, definitions);
    }
    forall r | r in v.fees ensures LoadFee(r, v.version, definitions) == [] {
      assert FeeChecks(v.version, definitions)(r) == {};
      FeePasses(r, v.version, definitions);
    }
    forall r | r in v.bases ensures LoadBasis(r, definitions) == [] {
      assert BasisChecks(definitions)(r) == {};
      BasisPasses(r, definitions);
    }
    forall r | r in v.dependencies ensures LoadDependency(r, definitions) == [] {
      assert DependencyChecks(v.version, v.procedure, definitions)(r) == {};
      DependencyPasses(r, v.version, v.procedure, definitions);
    }
    forall r | r in v.associations
      ensures LoadAssociation(r, definitions) == [] && r.material in v.materials
              && LoadMaterial(v.materials[r.material]) == []
    {
      assert RoutingChecks(v.version, v.materials, definitions)(r) == {};
      RoutingRowPasses(r, v.version, v.materials, definitions);
    }
  }
}
