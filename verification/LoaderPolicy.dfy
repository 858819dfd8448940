/**
  Exactly what the request-time loader accepts (knowledge/snapshot_policy.py) and what each publication gate reports
  (knowledge/publication.py, fees.py, eligibility_bases.py, procedure_dependencies.py, service_point_routing.py), row
  by row.
 */
module LoaderPolicy {
  import opened Wrappers
  import opened Calendar
  import opened Facts
  import opened Rules
  import opened Catalog
  import opened PublicationGates

  // ----- the conditions, spelled out

  /** The rule was omitted, or decodes. */
  predicate RuleReads(raw: Json, definitions: Registry) {
    raw == Obj(map[]) || Validation(raw, definitions).rule.Some?
  }

  predicate Says(text: string) {
    exists c | c in text :: !IsSpace(c)
  }

  predicate Bilingual(a: Authored) {
    Says(a.textAr) && Says(a.textEn)
  }

  /** A current link that supports, with sources, passage, location and context. */
  predicate SupportedNow(links: seq<Link>) {
    exists link | link in links ::
      && link.state == Current && link.support == Supports && link.sources != []
      && Says(link.passage) && Says(link.location) && Says(link.context)
  }

  /** One such link rests on official sources only. */
  predicate OfficiallySupported(links: seq<Link>) {
    exists link | link in links :: SupportedNow([link]) && forall s | s in link.sources :: s.kind == OfficialSource
  }

  predicate ContradictedNow(links: seq<Link>) {
    exists link | link in links :: link.state == Current && link.support == Contradicts
  }

  predicate Sourced(links: seq<Link>) {
    links != [] && forall link | link in links :: link.sources != []
  }

  /** A row for one basis names a basis of its own version. */
  predicate OwnBasis(scope: Scope, basisVersion: Option<nat>, version: nat) {
    scope == BasisScope ==> basisVersion == Some(version)
  }

  predicate IsAmount(fee: FeeRow) {
    fee.amount.Some? && fee.amount.value >= 0 && fee.minimum == None && fee.maximum == None
  }

  predicate IsRange(fee: FeeRow) {
    && fee.amount == None && fee.minimum.Some? && fee.maximum.Some?
    && 0 <= fee.minimum.value <= fee.maximum.value
  }

  predicate FiguresFit(fee: FeeRow) {
    match fee.valueState
    case Known => IsAmount(fee)
    case Range => IsRange(fee)
    case UnknownValue => fee.amount == None && fee.minimum == None && fee.maximum == None
    case UnverifiedValue =>
      (IsAmount(fee) || IsRange(fee)) && fee.row.state != Current && fee.row.state != Unverified
  }

  /** The figures are stated as current. */
  predicate StatesCurrent(fee: FeeRow) {
    (fee.valueState == Known || fee.valueState == Range) && fee.row.state == Current
  }

  /** Every link has its three texts, describes its field reports and does not contradict; one supports now. */
  predicate RoutingSupported(links: seq<Link>) {
    && (forall link | link in links ::
          && Says(link.passage) && Says(link.location) && Says(link.context)
          && (forall s | s in link.sources && s.kind == FieldReport :: s.observedOn.Some? && Says(s.observationContext))
          && !(link.state == Current && link.support == Contradicts))
    && exists link | link in links :: link.state == Current && link.support == Supports && link.sources != []
  }

  lemma SaysMeans(text: string)
    ensures Says(text) <==> !Blank(text)
  {}

  lemma AdequateExactlyIf(links: seq<Link>)
    ensures Adequate(links) <==> SupportedNow(links) && !ContradictedNow(links)
  {
    forall link | link in links
      ensures Detailed(link) <==> Says(link.passage) && Says(link.location) && Says(link.context) {}
  }

  lemma RoutingAdequateExactlyIf(links: seq<Link>)
    ensures RoutingAdequate(links) <==> RoutingSupported(links)
  {
    forall link | link in links
      ensures RoutingClean(link) <==>
                && Says(link.passage) && Says(link.location) && Says(link.context)
                && (forall s | s in link.sources && s.kind == FieldReport ::
                      s.observedOn.Some? && Says(s.observationContext))
                && !(link.state == Current && link.support == Contradicts)
    {
      forall s | s in link.sources
        ensures Malformed(s) <==> s.kind == FieldReport && !(s.observedOn.Some? && Says(s.observationContext))
      {}
    }
  }

  // ----- the loader: silent exactly when, and every failure it reports is one

  lemma ChecklistLoadsExactlyIf(r: ChecklistRow, definitions: Registry)
    ensures LoadChecklist(r, definitions) == []
            <==> && RuleReads(r.row.rule, definitions)
                 && (r.row.state == Current ==> r.row.links != [])
                 && (r.row.links != [] ==> Sourced(r.row.links))
    ensures forall f | f in LoadChecklist(r, definitions) ::
              && f.owner == r.row.id
              && match f.code
                 case RuleRefused => !RuleReads(r.row.rule, definitions)
                 case MissingEvidenceLinkCode => r.row.state == Current && r.row.links == []
                 case MissingEvidenceSourceCode => r.row.links != [] && !Sourced(r.row.links)
                 case _ => false
  {}

  lemma StepLoadsExactlyIf(r: StepRow, version: nat, definitions: Registry)
    ensures LoadStep(r, version, definitions) == []
            <==> && RuleReads(r.row.rule, definitions) && OwnBasis(r.scope, r.basisVersion, version)
                 && (r.row.state == Current ==> SupportedNow(r.row.links) && !ContradictedNow(r.row.links))
    ensures forall f | f in LoadStep(r, version, definitions) ::
              && f.owner == r.row.id
              && match f.code
                 case RuleRefused => !RuleReads(r.row.rule, definitions)
                 case InvalidBasisOwnerCode => !OwnBasis(r.scope, r.basisVersion, version)
                 case InadequateEvidence =>
                   r.row.state == Current && (!SupportedNow(r.row.links) || ContradictedNow(r.row.links))
                 case _ => false
  {
    AdequateExactlyIf(r.row.links);
  }

  lemma WarningLoadsExactlyIf(r: WarningRow, definitions: Registry)
    ensures LoadWarning(r, definitions) == []
            <==> && RuleReads(r.row.rule, definitions)
                 && (r.kind == ProductWarning ==> r.row.links == [])
                 && (r.kind == AdministrativeWarning && r.row.state == Current ==>
                       SupportedNow(r.row.links) && !ContradictedNow(r.row.links))
    ensures forall f | f in LoadWarning(r, definitions) ::
              && f.owner == r.row.id
              && match f.code
                 case RuleRefused => !RuleReads(r.row.rule, definitions)
                 case InvalidWarningEvidence =>
                   || (r.kind == ProductWarning && r.row.links != [])
                   || (r.kind == AdministrativeWarning && r.row.state == Current
                       && (!SupportedNow(r.row.links) || ContradictedNow(r.row.links)))
                 case _ => false
  {
    AdequateExactlyIf(r.row.links);
  }

  lemma FeeFiguresExactlyIf(fee: FeeRow)
    ensures ValidFeeShape(fee) <==> FiguresFit(fee)
    ensures ValidValueShape(fee) <==> FiguresFit(fee)
  {}

  lemma FeeLoadsExactlyIf(r: FeeRow, version: nat, definitions: Registry)
    ensures LoadFee(r, version, definitions) == []
            <==> && RuleReads(r.row.rule, definitions) && OwnBasis(r.scope, r.basisVersion, version)
                 && Says(r.currency) && Says(r.feeType) && FiguresFit(r)
                 && (r.valueState != UnknownValue ==> Sourced(r.row.links))
                 && (StatesCurrent(r) ==> SupportedNow(r.row.links) && !ContradictedNow(r.row.links))
  {
    AdequateExactlyIf(r.row.links);
    FeeFiguresExactlyIf(r);
    SaysMeans(r.currency);
    SaysMeans(r.feeType);
  }

  /** A refused fee is refused for something that holds of it. */
  lemma FeeRefusedAs(r: FeeRow, version: nat, definitions: Registry, f: LoadFailure)
    requires f in LoadFee(r, version, definitions)
    ensures && f.owner == r.row.id
              && match f.code
                 case RuleRefused => !RuleReads(r.row.rule, definitions)
                 case InvalidBasisOwnerCode => !OwnBasis(r.scope, r.basisVersion, version)
                 case MissingCurrencyCode => !Says(r.currency)
                 case MissingFeeTypeCode => !Says(r.feeType)
                 case InvalidFeeValue => !FiguresFit(r)
                 case MissingEvidenceLinkCode => r.valueState != UnknownValue && r.row.links == []
                 case MissingEvidenceSourceCode =>
                   r.valueState != UnknownValue && r.row.links != [] && !Sourced(r.row.links)
                 case InadequateEvidence =>
                   StatesCurrent(r) && (!SupportedNow(r.row.links) || ContradictedNow(r.row.links))
                 case _ => false
  {
    AdequateExactlyIf(r.row.links);
    FeeFiguresExactlyIf(r);
    SaysMeans(r.currency);
    SaysMeans(r.feeType);
  }

  lemma BasisLoadsExactlyIf(r: BasisRow, definitions: Registry)
    ensures LoadBasis(r, definitions) == []
            <==> && RuleReads(r.row.rule, definitions)
                 && r.qualification != Obj(map[]) && RuleReads(r.qualification, definitions)
                 && Bilingual(r.row) && Sourced(r.row.links)
    ensures forall f | f in LoadBasis(r, definitions) ::
              && f.owner == r.row.id
              && match f.code
                 case RuleRefused => !RuleReads(r.row.rule, definitions) || !RuleReads(r.qualification, definitions)
                 case MissingQualification => r.qualification == Obj(map[])
                 case InvalidBasisEvidence => !Bilingual(r.row) || !Sourced(r.row.links)
                 case _ => false
  {
    SaysMeans(r.row.textAr);
    SaysMeans(r.row.textEn);
  }

  lemma DependencyLoadsExactlyIf(r: DependencyRow, definitions: Registry)
    ensures LoadDependency(r, definitions) == []
            <==> && r.blocking && r.target != r.procedure && RuleReads(r.row.rule, definitions)
                 && r.satisfiedWhen != Obj(map[]) && RuleReads(r.satisfiedWhen, definitions)
                 && Bilingual(r.row) && Sourced(r.row.links)
    ensures forall f | f in LoadDependency(r, definitions) ::
              && f.owner == r.row.id
              && match f.code
                 case UnsupportedDependencyRelation => !r.blocking
                 case SelfDependencyCode => r.target == r.procedure
                 case RuleRefused => !RuleReads(r.row.rule, definitions) || !RuleReads(r.satisfiedWhen, definitions)
                 case MissingSatisfiedWhen => r.satisfiedWhen == Obj(map[])
                 case InvalidDependencyEvidence => !Bilingual(r.row) || !Sourced(r.row.links)
                 case _ => false
  {
    SaysMeans(r.row.textAr);
    SaysMeans(r.row.textEn);
  }

  lemma AssociationLoadsExactlyIf(r: AssociationRow, definitions: Registry)
    ensures LoadAssociation(r, definitions) == []
            <==> && Validation(r.row.rule, definitions).rule.Some? && Sourced(r.row.links)
                 && (r.row.state == Current ==> RoutingSupported(r.row.links))
    ensures forall f | f in LoadAssociation(r, definitions) ::
              && f.owner == r.row.id
              && match f.code
                 case RuleRefused => Validation(r.row.rule, definitions).rule.None?
                 case InvalidRoutingEvidence =>
                   !Sourced(r.row.links) || (r.row.state == Current && !RoutingSupported(r.row.links))
                 case _ => false
  {
    RoutingAdequateExactlyIf(r.row.links);
  }

  lemma MaterialLoadsExactlyIf(r: MaterialRow)
    ensures LoadMaterial(r) == []
            <==> && Bilingual(r.row) && (r.availability == Available || r.availability == UnknownAvailability)
                 && Sourced(r.row.links) && (r.row.state == Current ==> RoutingSupported(r.row.links))
    ensures forall f | f in LoadMaterial(r) :: f == LoadFailure(r.row.id, InvalidServicePointMaterial)
  {
    RoutingAdequateExactlyIf(r.row.links);
    SaysMeans(r.row.textAr);
    SaysMeans(r.row.textEn);
  }

  // ----- the gates: which failures each reports

  /** The stored rule was not omitted, and its validation reports the code. */
  predicate RuleFault(raw: Json, definitions: Registry, code: Code) {
    raw != Obj(map[]) && exists d | d in Validation(raw, definitions).diagnostics :: d.code == code
  }

  predicate Faulty(raw: Json, definitions: Registry, code: Code) {
    exists d | d in Validation(raw, definitions).diagnostics :: d.code == code
  }

  lemma FaultReported(raw: Json, owner: string, definitions: Registry, f: GateFailure)
    ensures f in RuleFailures(raw, owner, definitions)
            <==> f.owner == owner && f.link.None? && f.code.RuleDefect? && Faulty(raw, definitions, f.code.code)
  {}

  predicate Backwards(a: Authored) {
    a.effectiveFrom.Some? && a.effectiveTo.Some? && Before(a.effectiveTo.value, a.effectiveFrom.value)
  }

  /** One link has the fault; the last three checks are made where the gate asks for them. */
  predicate LinkFault(link: Link, code: GateCode, fieldReports: bool, contradictions: bool, soleOwner: bool) {
    match code
    case MissingEvidenceSource => link.sources == []
    case MissingEvidencePassage => !Says(link.passage)
    case MissingEvidenceContext => !Says(link.location) || !Says(link.context)
    case MalformedFieldReport =>
      fieldReports && exists s | s in link.sources ::
                        s.kind == FieldReport && (s.observedOn.None? || !Says(s.observationContext))
    case UnresolvedContradiction => contradictions && link.state == Current && link.support == Contradicts
    case InvalidEvidenceOwner => soleOwner && !link.soleOwner
    case _ => false
  }

  lemma LinkReports(link: Link, checks: LinkChecks, f: GateFailure)
    ensures f in LinkFailures(link, checks)
            <==> && f.owner == checks.owner && f.link == Some(link.pk)
                 && LinkFault(link, f.code, checks.fieldReports, checks.contradictions, checks.soleOwner)
  {
    SaysMeans(link.passage);
    SaysMeans(link.location);
    SaysMeans(link.context);
    forall s | s in link.sources
      ensures Malformed(s) <==> s.kind == FieldReport && (s.observedOn.None? || !Says(s.observationContext))
    {
      SaysMeans(s.observationContext);
    }
  }

  /** The failures of a row's links are those of some link, under its key. */
  lemma {:induction false} EvidenceReports(links: seq<Link>, checks: LinkChecks, f: GateFailure)
    ensures f in EvidenceFailures(links, checks)
            <==> && f.owner == checks.owner
                 && exists link | link in links ::
                      f.link == Some(link.pk)
                      && LinkFault(link, f.code, checks.fieldReports, checks.contradictions, checks.soleOwner)
  {
    if links != [] {
      var init, last := links[..|links| - 1], links[|links| - 1];
      assert links == init + [last];
      EvidenceReports(init, checks, f);
      LinkReports(last, checks, f);
    }
  }

  lemma RuleReports(raw: Json, owner: string, definitions: Registry, f: GateFailure)
    ensures f in OptionalRuleFailures(raw, owner, definitions)
            <==> f.owner == owner && f.link.None? && f.code.RuleDefect? && RuleFault(raw, definitions, f.code.code)
  {}

  /** The failure is one of the row's links. */
  predicate OfLinks(f: GateFailure, links: seq<Link>, fieldReports: bool, contradictions: bool, soleOwner: bool) {
    exists link | link in links ::
      f.link == Some(link.pk) && LinkFault(link, f.code, fieldReports, contradictions, soleOwner)
  }

  /** What the gates share about a row's own fields. */
  lemma RowFacts(a: Authored, definitions: Registry, f: GateFailure)
    ensures Monolingual(a) <==> !Bilingual(a)
    ensures Unordered(a) <==> Backwards(a)
    ensures f in OptionalRuleFailures(a.rule, a.id, definitions)
            <==> f.owner == a.id && f.link.None? && f.code.RuleDefect? && RuleFault(a.rule, definitions, f.code.code)
  {
    SaysMeans(a.textAr);
    SaysMeans(a.textEn);
    RuleReports(a.rule, a.id, definitions, f);
  }

  /** And about its evidence. */
  lemma EvidenceFacts(links: seq<Link>, checks: LinkChecks, f: GateFailure)
    ensures AnySupport(links) <==> SupportedNow(links)
    ensures f in EvidenceFailures(links, checks)
            <==> f.owner == checks.owner
                 && OfLinks(f, links, checks.fieldReports, checks.contradictions, checks.soleOwner)
  {
    EvidenceReports(links, checks, f);
    forall link | link in links ensures SupportsNow(link) <==> SupportedNow([link]) { assert link in [link]; }
  }

  lemma ChecklistFieldReports(r: ChecklistRow, definitions: Registry, f: GateFailure)
    ensures f in ChecklistFieldFailures(r, definitions) <==>
              && f.owner == r.row.id && f.link.None?
              && match f.code
                 case IncompleteBilingual => !Bilingual(r.row)
                 case InvalidQuantity => r.quantity < 1
                 case RuleDefect(code) => RuleFault(r.row.rule, definitions, code)
                 case _ => false
  {
    RowFacts(r.row, definitions, f);
  }

  lemma ChecklistSupportReports(r: ChecklistRow, f: GateFailure)
    ensures f in ChecklistSupportFailures(r) <==>
              && f.owner == r.row.id && f.link.None?
              && match f.code
                 case EvidenceRequired => r.row.state == Current && r.row.links == []
                 case AdequateEvidenceRequired =>
                   r.row.state == Current && r.row.links != [] && !SupportedNow(r.row.links)
                 case OfficialEvidenceRequired =>
                   r.classification == OfficialRequirement && r.row.links != [] && !OfficiallySupported(r.row.links)
                 case _ => false
  {
    EvidenceFacts(r.row.links, LinkChecks(r.row.id, false, false, false), f);
    OfficialExactlyIf(r.row.links);
  }

  lemma ChecklistReports(r: ChecklistRow, definitions: Registry, f: GateFailure)
    ensures f in ChecklistFailures(r, definitions) <==>
              || f in ChecklistFieldFailures(r, definitions) || f in ChecklistSupportFailures(r)
              || (f.owner == r.row.id
                  && OfLinks(f, r.row.links, r.classification == PracticalPreparation, r.row.state == Current, false))
  {
    EvidenceFacts(r.row.links,
                  LinkChecks(r.row.id, r.classification == PracticalPreparation, r.row.state == Current, false), f);
  }

  lemma StepFieldReports(r: StepRow, version: nat, definitions: Registry, f: GateFailure)
    ensures f in StepFieldFailures(r, version, definitions) <==>
              && f.owner == r.row.id && f.link.None?
              && match f.code
                 case IncompleteBilingual => !Bilingual(r.row)
                 case InvalidInterval => Backwards(r.row)
                 case RuleDefect(code) => RuleFault(r.row.rule, definitions, code)
                 case BlankPhase => !Says(r.phase)
                 case InvalidBasisOwner => !OwnBasis(r.scope, r.basisVersion, version)
                 case _ => false
  {
    RowFacts(r.row, definitions, f);
    SaysMeans(r.phase);
  }

  lemma StepReports(r: StepRow, version: nat, definitions: Registry, f: GateFailure)
    ensures f in StepFailures(r, version, definitions) <==>
              || f in StepFieldFailures(r, version, definitions)
              || (f.owner == r.row.id
                  && if f.link.Some? then OfLinks(f, r.row.links, true, r.row.state == Current, false)
                     else
                       match f.code
                       case AdequateEvidenceRequired => r.row.state == Current && !SupportedNow(r.row.links)
                       case _ => false)
  {
    EvidenceFacts(r.row.links, LinkChecks(r.row.id, true, r.row.state == Current, false), f);
  }

  lemma WarningFieldReports(r: WarningRow, definitions: Registry, f: GateFailure)
    ensures f in WarningFieldFailures(r, definitions) <==>
              && f.owner == r.row.id && f.link.None?
              && match f.code
                 case IncompleteBilingual => !Bilingual(r.row)
                 case InvalidInterval => Backwards(r.row)
                 case RuleDefect(code) => RuleFault(r.row.rule, definitions, code)
                 case UnsupportedWarningMetadata =>
                   r.severity == OtherSeverity || r.kind == OtherWarning || r.role == OtherRole
                 case InvalidRegenerationWarning =>
                   r.role == RegenerationRole && !(r.kind == ProductWarning && r.severity == ImportantSeverity)
                 case _ => false
  {
    RowFacts(r.row, definitions, f);
  }

  lemma WarningReports(r: WarningRow, definitions: Registry, f: GateFailure)
    ensures f in WarningFailures(r, definitions) <==>
              || f in WarningFieldFailures(r, definitions)
              || (f.owner == r.row.id
                  && if f.link.Some? then OfLinks(f, r.row.links, true, r.row.state == Current, false)
                     else
                       match f.code
                       case ProductWarningHasEvidence => r.kind == ProductWarning && r.row.links != []
                       case AdequateEvidenceRequired =>
                         r.kind == AdministrativeWarning && r.row.state == Current && !SupportedNow(r.row.links)
                       case _ => false)
  {
    EvidenceFacts(r.row.links, LinkChecks(r.row.id, true, r.row.state == Current, false), f);
  }

  lemma FeeFieldReports(r: FeeRow, version: nat, definitions: Registry, f: GateFailure)
    ensures f in FeeFieldFailures(r, version, definitions) <==>
              && f.owner == r.row.id && f.link.None?
              && match f.code
                 case IncompleteBilingual => !Bilingual(r.row)
                 case InvalidInterval => Backwards(r.row)
                 case RuleDefect(code) => RuleFault(r.row.rule, definitions, code)
                 case MissingCurrency => !Says(r.currency)
                 case MissingFeeType => !Says(r.feeType)
                 case InvalidValueState => !FiguresFit(r)
                 case InvalidBasisOwner => !OwnBasis(r.scope, r.basisVersion, version)
                 case _ => false
  {
    RowFacts(r.row, definitions, f);
    FeeFiguresExactlyIf(r);
    SaysMeans(r.currency);
    SaysMeans(r.feeType);
    FeeFieldsListed(r, version, definitions, f);
  }

  lemma FeeFieldsListed(r: FeeRow, version: nat, definitions: Registry, f: GateFailure)
    ensures f in FeeFieldFailures(r, version, definitions) <==>
              || f in OptionalRuleFailures(r.row.rule, r.row.id, definitions)
              || (f.owner == r.row.id && f.link.None?
                  && match f.code
                     case IncompleteBilingual => Monolingual(r.row)
                     case InvalidInterval => Unordered(r.row)
                     case MissingCurrency => Blank(r.currency)
                     case MissingFeeType => Blank(r.feeType)
                     case InvalidValueState => !ValidValueShape(r)
                     case InvalidBasisOwner => BrokenBasis(r.scope, r.basisVersion, version)
                     case _ => false)
  {}

  lemma FeeReports(r: FeeRow, version: nat, definitions: Registry, f: GateFailure)
    ensures f in FeeFailures(r, version, definitions) <==>
              || f in FeeFieldFailures(r, version, definitions)
              || (f.owner == r.row.id
                  && if f.link.Some? then OfLinks(f, r.row.links, true, StatesCurrent(r), false)
                     else
                       match f.code
                       case EvidenceRequired => r.valueState != UnknownValue && r.row.links == []
                       case AdequateEvidenceRequired => StatesCurrent(r) && !SupportedNow(r.row.links)
                       case _ => false)
  {
    EvidenceFacts(r.row.links, LinkChecks(r.row.id, true, StatesCurrent(r), false), f);
  }

  lemma BasisFieldReports(r: BasisRow, definitions: Registry, f: GateFailure)
    ensures f in BasisFieldFailures(r, definitions) <==>
              && f.owner == r.row.id && f.link.None?
              && match f.code
                 case IncompleteBilingual => !Bilingual(r.row)
                 case InvalidInterval => Backwards(r.row)
                 case RuleDefect(code) =>
                   RuleFault(r.row.rule, definitions, code) || RuleFault(r.qualification, definitions, code)
                 case QualificationRequired => r.qualification == Obj(map[])
                 case _ => false
  {
    RowFacts(r.row, definitions, f);
    RuleReports(r.qualification, r.row.id, definitions, f);
  }

  lemma BasisReports(r: BasisRow, definitions: Registry, f: GateFailure)
    ensures f in BasisFailures(r, definitions) <==>
              || f in BasisFieldFailures(r, definitions)
              || (f.owner == r.row.id
                  && if f.link.Some? then OfLinks(f, r.row.links, true, r.row.state == Current, false)
                     else
                       match f.code
                       case EvidenceRequired => r.row.links == []
                       case AdequateEvidenceRequired => r.row.state == Current && !SupportedNow(r.row.links)
                       case _ => false)
  {
    EvidenceFacts(r.row.links, LinkChecks(r.row.id, true, r.row.state == Current, false), f);
  }

  lemma DependencyOwnerReports(r: DependencyRow, version: nat, procedure: nat, f: GateFailure)
    ensures f in DependencyOwnerFailures(r, version, procedure) <==>
              && f.owner == r.row.id && f.link.None?
              && match f.code
                 case UnsupportedRelation => !r.blocking
                 case InvalidOwner => r.version != version
                 case SelfDependency => r.target == procedure
                 case _ => false
  {}

  lemma DependencyFieldReports(r: DependencyRow, definitions: Registry, f: GateFailure)
    ensures f in DependencyFieldFailures(r, definitions) <==>
              && f.owner == r.row.id && f.link.None?
              && match f.code
                 case IncompleteBilingual => !Bilingual(r.row)
                 case InvalidInterval => Backwards(r.row)
                 case RuleDefect(code) =>
                   RuleFault(r.row.rule, definitions, code) || RuleFault(r.satisfiedWhen, definitions, code)
                 case SatisfiedWhenRequired => r.satisfiedWhen == Obj(map[])
                 case _ => false
  {
    RowFacts(r.row, definitions, f);
    RuleReports(r.satisfiedWhen, r.row.id, definitions, f);
  }

  lemma DependencyReports(r: DependencyRow, version: nat, procedure: nat, definitions: Registry, f: GateFailure)
    ensures f in DependencyFailures(r, version, procedure, definitions) <==>
              || f in DependencyOwnerFailures(r, version, procedure) || f in DependencyFieldFailures(r, definitions)
              || (f.owner == r.row.id
                  && if f.link.Some? then OfLinks(f, r.row.links, true, r.row.state == Current, true)
                     else
                       match f.code
                       case EvidenceRequired => r.row.links == []
                       case AdequateEvidenceRequired => r.row.state == Current && !SupportedNow(r.row.links)
                       case _ => false)
  {
    EvidenceFacts(r.row.links, LinkChecks(r.row.id, true, r.row.state == Current, true), f);
  }

  lemma AssociationFieldReports(r: AssociationRow, version: nat, definitions: Registry, f: GateFailure)
    ensures f in AssociationFieldFailures(r, version, definitions) <==>
              && f.owner == r.row.id && f.link.None?
              && match f.code
                 case InvalidOwner => r.version != version
                 case InvalidInterval => Backwards(r.row)
                 case ApplicabilityRequired => r.row.rule == Obj(map[])
                 case RuleDefect(code) => Faulty(r.row.rule, definitions, code)
                 case VerificationDateRequired => r.row.state == Current && r.row.verifiedOn == None
                 case _ => false
  {
    FaultReported(r.row.rule, r.row.id, definitions, f);
    assert Unordered(r.row) <==> Backwards(r.row);
  }

  lemma AssociationReports(r: AssociationRow, version: nat, definitions: Registry, f: GateFailure)
    ensures f in AssociationFailures(r, version, definitions) <==>
              || f in AssociationFieldFailures(r, version, definitions)
              || (f.owner == (if f.link.Some? then "" else r.row.id)
                  && if f.link.Some? then OfLinks(f, r.row.links, true, r.row.state == Current, false)
                     else
                       match f.code
                       case EvidenceRequired => r.row.links == []
                       case AdequateEvidenceRequired =>
                         r.row.links != [] && r.row.state == Current && !SupportedNow(r.row.links)
                       case _ => false)
  {
    EvidenceFacts(r.row.links, LinkChecks("", true, r.row.state == Current, false), f);
  }

  lemma MaterialFieldReports(r: MaterialRow, f: GateFailure)
    ensures f in MaterialFieldFailures(r) <==>
              && f.owner == r.row.id && f.link.None?
              && match f.code
                 case IncompleteIdentity => !Says(r.nameAr) || !Says(r.nameEn)
                 case IncompleteBilingual => !Bilingual(r.row)
                 case UnsupportedAvailability =>
                   r.availability != Available && r.availability != UnknownAvailability
                 case InvalidInterval => Backwards(r.row)
                 case VerificationDateRequired => r.row.state == Current && r.row.verifiedOn == None
                 case OverlappingCurrentMaterial => r.row.state == Current && r.overlapsCurrent
                 case _ => false
  {
    SaysMeans(r.nameAr);
    SaysMeans(r.nameEn);
    SaysMeans(r.row.textAr);
    SaysMeans(r.row.textEn);
  }

  lemma MaterialReports(r: MaterialRow, f: GateFailure)
    ensures f in MaterialFailures(r) <==>
              || f in MaterialFieldFailures(r)
              || (f.owner == (if f.link.Some? then "" else r.row.id)
                  && if f.link.Some? then OfLinks(f, r.row.links, true, r.row.state == Current, false)
                     else
                       match f.code
                       case EvidenceRequired => r.row.links == []
                       case AdequateEvidenceRequired =>
                         r.row.links != [] && r.row.state == Current && !SupportedNow(r.row.links)
                       case _ => false)
  {
    EvidenceFacts(r.row.links, LinkChecks("", true, r.row.state == Current, false), f);
  }

  lemma OfficialExactlyIf(links: seq<Link>)
    ensures AnyOfficialSupport(links) <==> OfficiallySupported(links)
  {
    forall link | link in links ensures SupportsNow(link) <==> SupportedNow([link]) {
      assert link in [link];
    }
  }

  // ----- whole gates

  /** Over all rows a gate reports what some row is reported for. */
  lemma {:induction false} OverReports<R>(rows: seq<R>, check: R -> set<GateFailure>, f: GateFailure)
    ensures f in Over(rows, check) <==> exists r | r in rows :: f in check(r)
  {
    if rows != [] {
      var init, last := rows[..|rows| - 1], rows[|rows| - 1];
      OverReports(init, check, f);
      assert forall r :: r in rows <==> r in init || r == last;
    }
  }

  /** Where the regeneration notices stand. */
  function Notices(warnings: seq<WarningRow>): set<int> {
    set i | 0 <= i < |warnings| && warnings[i].role == RegenerationRole
  }

  lemma {:induction false} NoticesCounted(warnings: seq<WarningRow>)
    ensures RegenerationWarnings(warnings) == |Notices(warnings)|
  {
    if warnings != [] {
      var init, n := warnings[..|warnings| - 1], |warnings| - 1;
      NoticesCounted(init);
      assert Notices(warnings) == Notices(init) + (if warnings[n].role == RegenerationRole then {n} else {});
    }
  }

  /** Guidance needs one regeneration notice, and is otherwise reported row by row. */
  lemma GuidanceReports(id: string, version: nat, steps: seq<StepRow>, warnings: seq<WarningRow>, definitions: Registry,
                        f: GateFailure)
    ensures f in GuidanceGate(id, version, steps, warnings, definitions)
            <==> || (f == GateFailure(ExactlyOneRegenerationWarning, id, None) && (steps != [] || warnings != [])
                     && |Notices(warnings)| != 1)
                 || (exists r | r in steps :: f in StepFailures(r, version, definitions))
                 || (exists r | r in warnings :: f in WarningFailures(r, definitions))
  {
    NoticesCounted(warnings);
    OverReports(steps, StepChecks(version, definitions), f);
    OverReports(warnings, WarningChecks(definitions), f);
  }

  /** So do fees. */
  lemma FeesReport(id: string, version: nat, fees: seq<FeeRow>, warnings: seq<WarningRow>, definitions: Registry,
                   f: GateFailure)
    ensures f in FeeGate(id, version, fees, warnings, definitions)
            <==> || (f == GateFailure(ExactlyOneRegenerationWarning, id, None) && fees != []
                     && |Notices(warnings)| != 1)
                 || (exists r | r in fees :: f in FeeFailures(r, version, definitions))
  {
    NoticesCounted(warnings);
    OverReports(fees, FeeChecks(version, definitions), f);
  }

  /** An association is reported with the material it leads to, or for leading to none. */
  lemma RoutingReports(x: AssociationRow, version: nat, materials: map<nat, MaterialRow>, definitions: Registry,
                       f: GateFailure)
    ensures f in RoutingRowFailures(x, version, materials, definitions)
            <==> || f in AssociationFailures(x, version, definitions)
                 || (x.material !in materials && f == GateFailure(MissingMaterial, x.row.id, None))
                 || (x.material in materials && f in MaterialFailures(materials[x.material]))
  {}
}
