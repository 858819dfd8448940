/**
  Checklist items, steps, fees and warnings a plan may show (planning/checklists.py, steps.py, fees.py,
  warnings.py).
 */
module Guidance {
  import opened Wrappers
  import opened Ordering
  import opened Calendar
  import opened Facts
  import opened Rules
  import opened Evaluator
  import opened Catalog
  import opened Trust
  import opened Tally

  /** Everything a row is judged against. */
  datatype Case = Case(facts: PreparedFacts, on: Date, knownBases: set<string>, matched: Option<set<string>>)

  function BasisIds(v: Version): set<string> {
    set i | 0 <= i < |v.bases| :: v.bases[i].claim.id
  }

  /** An omitted rule applies. */
  function Verdict(rule: Option<Predicate>, facts: PreparedFacts): Truth {
    if rule.None? then TRUE else Eval(rule.value, facts.values, facts.submittedKeys)
  }

  function Unanswered(rule: Option<Predicate>, facts: PreparedFacts): set<string> {
    if rule.None? then {} else MissingFacts(rule.value, facts.values, facts.submittedKeys)
  }

  method Judge(rule: Option<Predicate>, facts: PreparedFacts) returns (verdict: Truth, unanswered: set<string>)
    ensures verdict == Verdict(rule, facts) && unanswered == Unanswered(rule, facts)
  {
    verdict, unanswered := TRUE, {};
    if rule.Some? {
      var result := TraceOf(rule.value, facts.values, facts.submittedKeys);
      verdict, unanswered := result.result, result.missing;
    }
  }

  predicate InSet(id: Option<string>, s: set<string>) {
    id.Some? && id.value in s
  }

  // ----- checklist items

  datatype PublicChecklistItem =
    PublicChecklistItem(id: string, text: Text, classification: Classification, quantity: int, originals: int,
                        copies: int, documentType: Option<string>, scope: Scope, sources: seq<PublicSource>,
                        freshness: Freshness, basisId: Option<string>)

  predicate ItemLe(a: ChecklistItem, b: ChecklistItem) {
    a.displayOrder < b.displayOrder || (a.displayOrder == b.displayOrder && TextLe(a.claim.id, b.claim.id))
  }

  function ChecklistEffect(item: ChecklistItem, c: Case): Effect<PublicChecklistItem> {
    var official := item.classification == OfficialRequirement;
    if item.classification.OtherClassification? || item.scope.OtherScope? then Nothing()
    else if item.scope.BasisScope? && (item.scopeReference !in c.knownBases || c.matched.None?)
           then Nothing().(needsBasis := true)
    else if item.scope.BasisScope? && item.scopeReference !in c.matched.value then Nothing()
    else if !InForce(item.claim, c.on) then Nothing()
    else
      var verdict := Verdict(item.applicability, c.facts);
      if verdict == FALSE || (verdict == UNKNOWN && !official) then Nothing()
      else
        var trust := AssessClaim(item.claim, c.on);
        var sources := SupportingSources(item.claim.links, c.on, official);
        if trust.disposition != AssertCurrent then
          Nothing().(undecided := verdict == UNKNOWN, trustGap := official && trust.disposition == Inconclusive)
        else if sources.None? then
          Nothing().(undecided := verdict == UNKNOWN, trustGap := official)
        else if verdict == UNKNOWN then
          Asks(Unanswered(item.applicability, c.facts)).(undecided := Unanswered(item.applicability, c.facts) == {})
        else
          Shows(PublicChecklistItem(item.claim.id, item.text, item.classification, item.quantity, item.originals,
                                    item.copies, item.documentType, item.scope, sources.value, trust.freshness,
                                    if item.scope.BasisScope? then Some(item.scopeReference) else None))
  }

  function ChecklistEffects(c: Case): ChecklistItem -> Effect<PublicChecklistItem> {
    (item: ChecklistItem) => ChecklistEffect(item, c)
  }

  function SelectChecklist(v: Version, c: Case): Selection<PublicChecklistItem> {
    Total(SortBy(v.checklist, ItemLe), ChecklistEffects(c))
  }

  /** One turn of the loop; every early return is a `continue` of the source. */
  method ChecklistRow(item: ChecklistItem, c: Case) returns (e: Effect<PublicChecklistItem>)
    ensures e == ChecklistEffect(item, c)
  {
    e := Nothing();
    if item.classification.OtherClassification? { return; }
    if item.scope.OtherScope? { return; }
    if item.scope.BasisScope? {
      if item.scopeReference !in c.knownBases { e := e.(needsBasis := true); return; }
      if c.matched.None? { e := e.(needsBasis := true); return; }
      if item.scopeReference !in c.matched.value { return; }
    }
    if item.claim.effectiveFrom.Some? && Before(c.on, item.claim.effectiveFrom.value) { return; }
    if item.claim.effectiveTo.Some? && Before(item.claim.effectiveTo.value, c.on) { return; }
    var verdict, unanswered := Judge(item.applicability, c.facts);
    if verdict == UNKNOWN && item.classification != OfficialRequirement { return; }
    if verdict == FALSE { return; }
    var trust := AssessClaim(item.claim, c.on);
    if trust.disposition != AssertCurrent {
      if verdict == UNKNOWN { e := e.(undecided := true); }
      if item.classification == OfficialRequirement && trust.disposition == Inconclusive { e := e.(trustGap := true); }
      return;
    }
    var sources := CollectSupportingSources(item.claim.links, c.on, item.classification == OfficialRequirement);
    if sources.None? {
      if verdict == UNKNOWN { e := e.(undecided := true); }
      if item.classification == OfficialRequirement { e := e.(trustGap := true); }
      return;
    }
    if verdict == UNKNOWN {
      e := e.(asks := unanswered, undecided := unanswered == {});
      return;
    }
    e := e.(shown := Some(PublicChecklistItem(item.claim.id, item.text, item.classification, item.quantity,
                                              item.originals, item.copies, item.documentType, item.scope, sources.value,
                                              trust.freshness,
                                              if item.scope.BasisScope? then Some(item.scopeReference) else None)));
  }

  method SelectChecklistItems(v: Version, c: Case) returns (r: Selection<PublicChecklistItem>)
    ensures r == SelectChecklist(v, c)
  {
    r := Empty();
    var rows := SortBy(v.checklist, ItemLe);
    ghost var effect := ChecklistEffects(c);
    for n := 0 to |rows|
      invariant r == Total(rows[..n], effect)
    {
      TotalNext(rows, n, effect);
      var e := ChecklistRow(rows[n], c);
      r := Accumulate(r, e);
    }
    TotalAll(rows, effect);
  }

  // ----- steps

  datatype PublicStep =
    PublicStep(id: string, text: Text, phase: string, sources: seq<PublicSource>, freshness: Freshness, scope: Scope,
               basisId: Option<string>)

  predicate StepLe(a: Step, b: Step) {
    a.phaseOrder < b.phaseOrder
    || (a.phaseOrder == b.phaseOrder && (a.slot < b.slot || (a.slot == b.slot && TextLe(a.claim.id, b.claim.id))))
  }

  function StepEffect(item: Step, c: Case): Effect<PublicStep> {
    if item.scope.OtherScope? || !InForce(item.claim, c.on) then Nothing()
    else if item.scope.BasisScope? && (!InSet(item.basisId, c.knownBases) || c.matched.None?)
           then Nothing().(needsBasis := true)
    else if item.scope.BasisScope? && !InSet(item.basisId, c.matched.value) then Nothing()
    else
      var verdict := Verdict(item.applicability, c.facts);
      var trust := AssessClaim(item.claim, c.on);
      var sources := SupportingSources(item.claim.links, c.on, false);
      if verdict == FALSE then Nothing()
      else if trust.disposition != AssertCurrent || sources.None? then
        Nothing().(undecided := verdict == UNKNOWN, trustGap := true)
      else if verdict == UNKNOWN then
        Asks(Unanswered(item.applicability, c.facts)).(undecided := Unanswered(item.applicability, c.facts) == {})
      else Shows(PublicStep(item.claim.id, item.text, item.phase, sources.value, trust.freshness, item.scope,
                            item.basisId))
  }

  function StepEffects(c: Case): Step -> Effect<PublicStep> {
    (item: Step) => StepEffect(item, c)
  }

  function SelectStepRows(v: Version, c: Case): Selection<PublicStep> {
    Total(SortBy(v.steps, StepLe), StepEffects(c))
  }

  method StepRow(item: Step, c: Case) returns (e: Effect<PublicStep>)
    ensures e == StepEffect(item, c)
  {
    e := Nothing();
    if item.scope.OtherScope? { return; }
    if (item.claim.effectiveFrom.Some? && Before(c.on, item.claim.effectiveFrom.value))
       || (item.claim.effectiveTo.Some? && Before(item.claim.effectiveTo.value, c.on)) { return; }
    if item.scope.BasisScope? {
      if !InSet(item.basisId, c.knownBases) { e := e.(needsBasis := true); return; }
      if c.matched.None? { e := e.(needsBasis := true); return; }
      if !InSet(item.basisId, c.matched.value) { return; }
    }
    var verdict, unanswered := Judge(item.applicability, c.facts);
    if verdict == FALSE { return; }
    var trust := AssessClaim(item.claim, c.on);
    if trust.disposition != AssertCurrent {
      if verdict == UNKNOWN { e := e.(undecided := true); }
      e := e.(trustGap := true);
      return;
    }
    var sources := CollectSupportingSources(item.claim.links, c.on, false);
    if sources.None? {
      if verdict == UNKNOWN { e := e.(undecided := true); }
      e := e.(trustGap := true);
      return;
    }
    if verdict == UNKNOWN {
      e := e.(asks := unanswered, undecided := unanswered == {});
      return;
    }
    e := e.(shown := Some(PublicStep(item.claim.id, item.text, item.phase, sources.value, trust.freshness, item.scope,
                                     item.basisId)));
  }

  method SelectSteps(v: Version, c: Case) returns (r: Selection<PublicStep>)
    ensures r == SelectStepRows(v, c)
  {
    r := Empty();
    var rows := SortBy(v.steps, StepLe);
    ghost var effect := StepEffects(c);
    for n := 0 to |rows|
      invariant r == Total(rows[..n], effect)
    {
      TotalNext(rows, n, effect);
      var e := StepRow(rows[n], c);
      r := Accumulate(r, e);
    }
    TotalAll(rows, effect);
  }

  // ----- fees

  datatype PublicFee =
    PublicFee(id: string, text: Text, valueState: FeeValueState, amount: Option<int>, minimum: Option<int>,
              maximum: Option<int>, currency: string, feeType: string, currentValueUnknown: bool,
              sources: seq<PublicSource>, freshness: Freshness)

  predicate FeeLe(a: Fee, b: Fee) {
    a.displayOrder < b.displayOrder || (a.displayOrder == b.displayOrder && TextLe(a.claim.id, b.claim.id))
  }

  predicate HasAuthoredValue(item: Fee) {
    item.valueState == Known || item.valueState == Range
  }

  /** An amount is shown only for a trusted authored value with current support. */
  function FeeOf(item: Fee, c: Case): PublicFee {
    var trust := AssessDatedClaim(item.claim, c.on);
    var sources := SupportingSources(item.claim.links, c.on, false);
    if trust.disposition == AssertCurrent && HasAuthoredValue(item) && sources.Some? then
      PublicFee(item.claim.id, item.text, item.valueState, item.amount, item.minimum, item.maximum, item.currency,
                item.feeType, false, sources.value, trust.freshness)
    else
      var state :=
        if trust.disposition == AssertCurrent then (if HasAuthoredValue(item) then UnverifiedValue else item.valueState)
        else if item.valueState == UnknownValue then UnknownValue else UnverifiedValue;
      var freshness :=
        if trust.disposition == AssertCurrent && HasAuthoredValue(item)
        then Freshness(Unverified, item.claim.verifiedOn, item.claim.reverifyOn) else trust.freshness;
      PublicFee(item.claim.id, item.text, state, None, None, None, item.currency, item.feeType, true,
                ClaimSources(item.claim.links), freshness)
  }

  function FeeEffect(item: Fee, c: Case): Effect<PublicFee> {
    var trust := AssessDatedClaim(item.claim, c.on);
    var asserted := trust.disposition == AssertCurrent;
    if item.scope.OtherScope? || !InForce(item.claim, c.on) then Nothing()
    else if item.scope.BasisScope? && !InSet(item.basisId, c.knownBases) then Nothing().(needsBasis := true)
    else if trust.disposition == ContextOnly then Nothing()
    else if item.scope.BasisScope? && c.matched.None? then Nothing().(needsBasis := asserted)
    else if item.scope.BasisScope? && !InSet(item.basisId, c.matched.value) then Nothing()
    else
      match Verdict(item.applicability, c.facts)
      case FALSE => Nothing()
      case UNKNOWN =>
        if asserted then Asks(Unanswered(item.applicability, c.facts)).(undecided := Unanswered(item.applicability,
            c.facts) == {})
        else Nothing()
      case TRUE => Shows(FeeOf(item, c))
  }

  function FeeEffects(c: Case): Fee -> Effect<PublicFee> {
    (item: Fee) => FeeEffect(item, c)
  }

  function SelectFeeRows(v: Version, c: Case): Selection<PublicFee> {
    Total(SortBy(v.fees, FeeLe), FeeEffects(c))
  }

  method FeeRow(item: Fee, c: Case) returns (e: Effect<PublicFee>)
    ensures e == FeeEffect(item, c)
  {
    e := Nothing();
    if item.scope.OtherScope? { return; }
    if (item.claim.effectiveFrom.Some? && Before(c.on, item.claim.effectiveFrom.value))
       || (item.claim.effectiveTo.Some? && Before(item.claim.effectiveTo.value, c.on)) { return; }
    if item.scope.BasisScope? && !InSet(item.basisId, c.knownBases) { e := e.(needsBasis := true); return; }
    var trust := AssessDatedClaim(item.claim, c.on);
    if trust.disposition == ContextOnly { return; }
    if item.scope.BasisScope? {
      if c.matched.None? {
        if trust.disposition == AssertCurrent { e := e.(needsBasis := true); }
        return;
      }
      if !InSet(item.basisId, c.matched.value) { return; }
    }
    var verdict, unanswered := Judge(item.applicability, c.facts);
    if verdict == FALSE { return; }
    if verdict == UNKNOWN {
      if trust.disposition == AssertCurrent {
        e := e.(asks := unanswered, undecided := unanswered == {});
      }
      return;
    }
    var fee := ProjectFee(item, trust, c);
    e := e.(shown := Some(fee));
  }

  method SelectFees(v: Version, c: Case) returns (r: Selection<PublicFee>)
    ensures r == SelectFeeRows(v, c)
  {
    r := Empty();
    var rows := SortBy(v.fees, FeeLe);
    ghost var effect := FeeEffects(c);
    for n := 0 to |rows|
      invariant r == Total(rows[..n], effect)
    {
      TotalNext(rows, n, effect);
      var e := FeeRow(rows[n], c);
      r := Accumulate(r, e);
    }
    TotalAll(rows, effect);
  }

  method ProjectFee(item: Fee, trust: Assessment, c: Case) returns (r: PublicFee)
    requires trust == AssessDatedClaim(item.claim, c.on)
    ensures r == FeeOf(item, c)
  {
    var state, freshness := item.valueState, trust.freshness;
    var sources: seq<PublicSource>;
    if trust.disposition == AssertCurrent {
      if item.valueState == Known || item.valueState == Range {
        var supporting := CollectSupportingSources(item.claim.links, c.on, false);
        if supporting.Some? {
          return PublicFee(item.claim.id, item.text, state, item.amount, item.minimum, item.maximum, item.currency,
                           item.feeType, false, supporting.value, freshness);
        }
        sources := CollectClaimSources(item.claim.links);
        state := UnverifiedValue;
        freshness := Freshness(Unverified, item.claim.verifiedOn, item.claim.reverifyOn);
      } else {
        sources := CollectClaimSources(item.claim.links);
      }
    } else {
      sources := CollectClaimSources(item.claim.links);
      state := if item.valueState == UnknownValue then UnknownValue else UnverifiedValue;
    }
    r := PublicFee(item.claim.id, item.text, state, None, None, None, item.currency, item.feeType, true, sources,
                   freshness);
  }

  // ----- warnings

  datatype PublicWarning =
    PublicWarning(id: string, text: Text, severity: string, kind: WarningKind, role: string, sources: seq<PublicSource>,
                  freshness: Freshness)

  predicate WarningLe(a: Warning, b: Warning) {
    a.displayOrder < b.displayOrder || (a.displayOrder == b.displayOrder && TextLe(a.claim.id, b.claim.id))
  }

  function WarningEffect(item: Warning, c: Case): Effect<PublicWarning> {
    var trust := AssessDatedClaim(item.claim, c.on);
    var sources :=
      if item.kind.ProductWarning? && item.claim.links == [] then Some([])
      else if item.kind.AdministrativeWarning? then SupportingSources(item.claim.links, c.on, false)
      else None;
    var shown := (s: seq<PublicSource>) =>
      Shows(PublicWarning(item.claim.id, item.text, item.severity, item.kind, item.role, s, trust.freshness));
    if item.role == "regeneration" then
      if item.kind.ProductWarning? && item.severity == "important" && item.claim.links == [] then shown([])
      else Nothing()
    else if !InForce(item.claim, c.on) || Verdict(item.applicability, c.facts) != TRUE
            || trust.disposition != AssertCurrent || sources.None? then Nothing()
    else shown(sources.value)
  }

  function WarningEffects(c: Case): Warning -> Effect<PublicWarning> {
    (item: Warning) => WarningEffect(item, c)
  }

  function SelectWarnings(v: Version, c: Case): seq<PublicWarning> {
    Total(SortBy(v.warnings, WarningLe), WarningEffects(c)).items
  }

  method WarningRow(item: Warning, c: Case) returns (shown: Option<PublicWarning>)
    ensures shown == WarningEffect(item, c).shown
  {
    var trust := AssessDatedClaim(item.claim, c.on);
    if item.role == "regeneration" {
      if item.kind != ProductWarning || item.severity != "important" || item.claim.links != [] { return None; }
      return Some(PublicWarning(item.claim.id, item.text, item.severity, item.kind, item.role, [], trust.freshness));
    }
    if (item.claim.effectiveFrom.Some? && Before(c.on, item.claim.effectiveFrom.value))
       || (item.claim.effectiveTo.Some? && Before(item.claim.effectiveTo.value, c.on)) { return None; }
    var verdict, _ := Judge(item.applicability, c.facts);
    if verdict != TRUE { return None; }
    if trust.disposition != AssertCurrent { return None; }
    var sources: seq<PublicSource>;
    match item.kind {
      case ProductWarning =>
        if item.claim.links != [] { return None; }
        sources := [];
      case AdministrativeWarning =>
        var supporting := CollectSupportingSources(item.claim.links, c.on, false);
        if supporting.None? { return None; }
        sources := supporting.value;
      case OtherWarning =>
        return None;
    }
    return Some(PublicWarning(item.claim.id, item.text, item.severity, item.kind, item.role, sources, trust.freshness));
  }

  method ListWarnings(v: Version, c: Case) returns (r: seq<PublicWarning>)
    ensures r == SelectWarnings(v, c)
  {
    r := [];
    var rows := SortBy(v.warnings, WarningLe);
    ghost var effect := WarningEffects(c);
    for n := 0 to |rows|
      invariant r == Total(rows[..n], effect).items
    {
      TotalNext(rows, n, effect);
      var shown := WarningRow(rows[n], c);
      if shown.Some? { r := r + [shown.value]; }
    }
    TotalAll(rows, effect);
  }

  // ----- what a row asks for

  lemma ChecklistAsksOfficial(item: ChecklistItem, c: Case)
    ensures ChecklistEffect(item, c).asks != {} ==>
              && item.classification == OfficialRequirement && !item.scope.OtherScope?
              && ChecklistEffect(item, c).asks == Unanswered(item.applicability, c.facts)
  {}

  lemma StepAsks(item: Step, c: Case)
    ensures StepEffect(item, c).asks <= Unanswered(item.applicability, c.facts)
    ensures StepEffect(item, c).asks != {} ==> !item.scope.OtherScope?
  {}

  lemma FeeAsks(item: Fee, c: Case)
    ensures FeeEffect(item, c).asks <= Unanswered(item.applicability, c.facts)
    ensures FeeEffect(item, c).asks != {} ==> !item.scope.OtherScope?
  {}

  // ----- only current claims are asserted

  lemma ChecklistShowsCurrent(item: ChecklistItem, c: Case)
    ensures ChecklistEffect(item, c).shown.Some? ==>
              item.claim.state == Current && ChecklistEffect(item, c).shown.value.id == item.claim.id
              && (ChecklistEffect(item, c).shown.value.basisId.Some? ==>
                    c.matched.Some? && ChecklistEffect(item, c).shown.value.basisId.value in c.matched.value)
  {
    OnlyCurrentIsAsserted(item.claim, c.on);
  }

  lemma StepShowsCurrent(item: Step, c: Case)
    ensures StepEffect(item, c).shown.Some? ==>
              var step := StepEffect(item, c).shown.value;
              && item.claim.state == Current && step.id == item.claim.id
              && (step.scope.BasisScope? ==> c.matched.Some? && InSet(step.basisId, c.matched.value))
  {
    OnlyCurrentIsAsserted(item.claim, c.on);
  }

  /** A fee amount is shown only for a current claim; otherwise its value is marked unknown. */
  lemma FeeAmountIsCurrent(item: Fee, c: Case)
    ensures FeeEffect(item, c).shown.Some? ==>
              var fee := FeeEffect(item, c).shown.value;
              && fee.id == item.claim.id
              && (fee.amount.Some? || fee.minimum.Some? || fee.maximum.Some? || !fee.currentValueUnknown ==>
                    item.claim.state == Current)
              && (item.scope.BasisScope? ==> c.matched.Some? && InSet(item.basisId, c.matched.value))
  {
    OnlyCurrentIsAsserted(item.claim, c.on);
  }

  /** Only the regeneration notice is shown without a current claim. */
  lemma WarningShowsCurrent(item: Warning, c: Case)
    ensures WarningEffect(item, c).shown.Some? ==>
              var warning := WarningEffect(item, c).shown.value;
              warning.id == item.claim.id && (warning.role != "regeneration" ==> item.claim.state == Current)
  {
    OnlyCurrentIsAsserted(item.claim, c.on);
  }
}
