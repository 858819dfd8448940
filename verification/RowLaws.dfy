/**
  What one authored row does to a selection, field by field: exactly when it asks, lacks its basis, stays undecided,
  leaves a gap or is broken, and what of it is shown (planning/checklists.py, steps.py, fees.py, warnings.py,
  eligibility_bases.py, dependencies.py).
 */
module RowLaws {
  import opened Wrappers
  import opened Calendar
  import opened Facts
  import opened Rules
  import opened Evaluator
  import opened Catalog
  import opened Trust
  import opened TrustLaws
  import opened Versions
  import opened Guidance
  import opened Prerequisites
  import opened Listed

  /** An omitted rule applies to every case. */
  predicate Holds(rule: Option<Predicate>, facts: PreparedFacts, v: Truth) {
    match rule
    case None => v == TRUE
    case Some(p) => Eval(p, facts.values, facts.submittedKeys) == v
  }

  /** The rule waits for this Fact. */
  predicate WaitsFor(rule: Option<Predicate>, facts: PreparedFacts, k: string) {
    && Holds(rule, facts, UNKNOWN)
    && rule.Some? && k in MissingFacts(rule.value, facts.values, facts.submittedKeys)
  }

  /** The rule is undecided, and no Fact would help. */
  predicate Stuck(rule: Option<Predicate>, facts: PreparedFacts) {
    && Holds(rule, facts, UNKNOWN)
    && rule.Some? && MissingFacts(rule.value, facts.values, facts.submittedKeys) == {}
  }

  /** The row is for a basis that is not among the version's, or no basis was weighed. */
  predicate LacksBasis(scope: Scope, basis: Option<string>, c: Case) {
    scope.BasisScope? && (c.matched.None? || basis.None? || basis.value !in c.knownBases)
  }

  predicate Asserted(claim: Claim, on: Date, officialOnly: bool) {
    Trustworthy(claim, on) && Backed(claim, on, officialOnly)
  }

  lemma AssertedAs(claim: Claim, on: Date, officialOnly: bool)
    ensures AssessClaim(claim, on).disposition == AssertCurrent <==> Trustworthy(claim, on)
    ensures AssessDatedClaim(claim, on).disposition == AssertCurrent <==> Trustworthy(claim, on) && InForce(claim, on)
    ensures SupportingSources(claim.links, on, officialOnly).Some? <==> Backed(claim, on, officialOnly)
  {
    TrustworthyIsAsserted(claim, on);
    SupportedExactlyIf(claim.links, on, officialOnly);
  }

  /** Current, with the claim's own dates. */
  function AsOf(claim: Claim): Freshness {
    Freshness(Current, claim.verifiedOn, claim.reverifyOn)
  }

  lemma AssertedIsCurrent(claim: Claim, on: Date)
    ensures AssessClaim(claim, on).disposition == AssertCurrent ==> AssessClaim(claim, on).freshness == AsOf(claim)
  {}

  lemma VerdictHolds(rule: Option<Predicate>, facts: PreparedFacts, k: string)
    ensures Holds(rule, facts, TRUE) <==> Verdict(rule, facts) == TRUE
    ensures Holds(rule, facts, FALSE) <==> Verdict(rule, facts) == FALSE
    ensures Holds(rule, facts, UNKNOWN) <==> Verdict(rule, facts) == UNKNOWN
    ensures WaitsFor(rule, facts, k) <==> Verdict(rule, facts) == UNKNOWN && k in Unanswered(rule, facts)
    ensures Stuck(rule, facts) <==> Verdict(rule, facts) == UNKNOWN && Unanswered(rule, facts) == {}
  {}

  // ----- checklist items

  /** The item is for this case and day. */
  predicate ItemConcerns(item: ChecklistItem, c: Case) {
    && !item.classification.OtherClassification? && InScope(item.scope, Some(item.scopeReference), c)
    && InForce(item.claim, c.on)
  }

  lemma ItemNeedsBasisExactlyIf(item: ChecklistItem, c: Case)
    ensures ChecklistEffect(item, c).needsBasis
            <==> !item.classification.OtherClassification? && LacksBasis(item.scope, Some(item.scopeReference), c)
  {}

  lemma OfficialItemAsks(item: ChecklistItem, c: Case)
    requires ItemConcerns(item, c) && item.classification == OfficialRequirement
    ensures ChecklistEffect(item, c).asks
            == if Asserted(item.claim, c.on, true) && Verdict(item.applicability, c.facts) == UNKNOWN
               then Unanswered(item.applicability, c.facts) else {}
  {
    AssertedAs(item.claim, c.on, true);
  }

  lemma OthersDoNotAsk(item: ChecklistItem, c: Case)
    requires !(ItemConcerns(item, c) && item.classification == OfficialRequirement)
    ensures ChecklistEffect(item, c).asks == {}
  {}

  lemma ItemAsksExactlyIf(item: ChecklistItem, c: Case, k: string)
    ensures k in ChecklistEffect(item, c).asks
            <==> && ItemConcerns(item, c) && item.classification == OfficialRequirement
                 && Asserted(item.claim, c.on, true) && WaitsFor(item.applicability, c.facts, k)
  {
    VerdictHolds(item.applicability, c.facts, k);
    if ItemConcerns(item, c) && item.classification == OfficialRequirement {
      OfficialItemAsks(item, c);
    } else {
      OthersDoNotAsk(item, c);
    }
  }

  lemma OfficialItemUndecided(item: ChecklistItem, c: Case)
    requires ItemConcerns(item, c) && item.classification == OfficialRequirement
    ensures ChecklistEffect(item, c).undecided
            <==> && Verdict(item.applicability, c.facts) == UNKNOWN
                 && (Asserted(item.claim, c.on, true) ==> Unanswered(item.applicability, c.facts) == {})
  {
    AssertedAs(item.claim, c.on, true);
  }

  lemma OthersAreDecided(item: ChecklistItem, c: Case)
    requires !(ItemConcerns(item, c) && item.classification == OfficialRequirement)
    ensures !ChecklistEffect(item, c).undecided
  {}

  lemma ItemUndecidedExactlyIf(item: ChecklistItem, c: Case)
    ensures ChecklistEffect(item, c).undecided
            <==> && ItemConcerns(item, c) && item.classification == OfficialRequirement
                 && Holds(item.applicability, c.facts, UNKNOWN)
                 && (Asserted(item.claim, c.on, true) ==> Stuck(item.applicability, c.facts))
  {
    VerdictHolds(item.applicability, c.facts, "");
    if ItemConcerns(item, c) && item.classification == OfficialRequirement {
      OfficialItemUndecided(item, c);
    } else {
      OthersAreDecided(item, c);
    }
  }

  /** An official requirement leaves a gap unless it is ruled out, asserted, or a thing of the past. */
  lemma ItemGapExactlyIf(item: ChecklistItem, c: Case)
    ensures ChecklistEffect(item, c).trustGap
            <==> && ItemConcerns(item, c) && item.classification == OfficialRequirement
                 && !Holds(item.applicability, c.facts, FALSE)
                 && !Asserted(item.claim, c.on, true)
                 && !(item.claim.state == Stale && item.claim.verifiedOn.Some?
                      && NotAfter(item.claim.verifiedOn.value, c.on))
  {
    AssertedAs(item.claim, c.on, true);
    AssessedAs(item.claim.state, c.on, item.claim.verifiedOn, item.claim.reverifyOn, None, None, None);
    VerdictHolds(item.applicability, c.facts, "");
  }

  /** A shown item is the authored one, with what may be cited for it. */
  lemma ItemShownAs(item: ChecklistItem, c: Case)
    ensures ChecklistEffect(item, c).shown.Some? ==>
              var x := ChecklistEffect(item, c).shown.value;
              && x.id == item.claim.id && x.text == item.text && x.classification == item.classification
              && x.quantity == item.quantity && x.originals == item.originals && x.copies == item.copies
              && x.documentType == item.documentType && x.scope == item.scope
              && x.freshness == AsOf(item.claim)
              && (x.basisId == if item.scope == BasisScope then Some(item.scopeReference) else None)
              && Some(x.sources)
                 == SupportingSources(item.claim.links, c.on, item.classification == OfficialRequirement)
  {}

  // ----- steps

  predicate StepConcerns(item: Step, c: Case) {
    InScope(item.scope, item.basisId, c) && InForce(item.claim, c.on)
  }

  lemma StepNeedsBasisExactlyIf(item: Step, c: Case)
    ensures StepEffect(item, c).needsBasis <==> InForce(item.claim, c.on) && LacksBasis(item.scope, item.basisId, c)
  {}

  lemma StepAsksExactlyIf(item: Step, c: Case, k: string)
    ensures k in StepEffect(item, c).asks
            <==> && StepConcerns(item, c) && Asserted(item.claim, c.on, false)
                 && WaitsFor(item.applicability, c.facts, k)
  {
    AssertedAs(item.claim, c.on, false);
    VerdictHolds(item.applicability, c.facts, k);
  }

  lemma StepUndecidedExactlyIf(item: Step, c: Case)
    ensures StepEffect(item, c).undecided
            <==> && StepConcerns(item, c) && Holds(item.applicability, c.facts, UNKNOWN)
                 && (Asserted(item.claim, c.on, false) ==> Stuck(item.applicability, c.facts))
  {
    AssertedAs(item.claim, c.on, false);
    VerdictHolds(item.applicability, c.facts, "");
  }

  lemma StepGapExactlyIf(item: Step, c: Case)
    ensures StepEffect(item, c).trustGap
            <==> && StepConcerns(item, c) && !Holds(item.applicability, c.facts, FALSE)
                 && !Asserted(item.claim, c.on, false)
  {
    AssertedAs(item.claim, c.on, false);
    VerdictHolds(item.applicability, c.facts, "");
  }

  lemma StepShownAs(item: Step, c: Case)
    requires StepEffect(item, c).shown.Some?
    ensures var x := StepEffect(item, c).shown.value;
            && x.id == item.claim.id && x.text == item.text && x.phase == item.phase && x.scope == item.scope
            && x.basisId == item.basisId && x.freshness == AsOf(item.claim)
            && Some(x.sources) == SupportingSources(item.claim.links, c.on, false)
  {
    AssertedIsCurrent(item.claim, c.on);
  }

  // ----- fees

  /** The fee was verified, and is out of date: it is passed over in silence. */
  predicate Bygone(claim: Claim, on: Date) {
    && claim.state == Stale && claim.verifiedOn.Some? && NotAfter(claim.verifiedOn.value, on)
    && (claim.effectiveTo.Some? ==> NotAfter(claim.verifiedOn.value, claim.effectiveTo.value))
  }

  lemma BygoneExactlyIf(claim: Claim, on: Date)
    requires InForce(claim, on)
    ensures AssessDatedClaim(claim, on).disposition == ContextOnly <==> Bygone(claim, on)
  {
    AssessedAs(claim.state, on, claim.verifiedOn, claim.reverifyOn, claim.effectiveFrom, claim.effectiveTo, None);
  }

  predicate FeeConcerns(item: Fee, c: Case) {
    InScope(item.scope, item.basisId, c) && InForce(item.claim, c.on) && !Bygone(item.claim, c.on)
  }

  lemma FeeListedExactlyIf(item: Fee, c: Case)
    ensures FeeEffect(item, c).shown.Some? <==> FeeConcerns(item, c) && Holds(item.applicability, c.facts, TRUE)
  {
    VerdictHolds(item.applicability, c.facts, "");
    if InForce(item.claim, c.on) { BygoneExactlyIf(item.claim, c.on); }
  }

  /** A fee that may not be stated anyway does not need its basis weighed. */
  lemma FeeNeedsBasisExactlyIf(item: Fee, c: Case)
    ensures FeeEffect(item, c).needsBasis
            <==> && InForce(item.claim, c.on) && LacksBasis(item.scope, item.basisId, c)
                 && (Trustworthy(item.claim, c.on) || !InSet(item.basisId, c.knownBases))
  {
    TrustworthyIsAsserted(item.claim, c.on);
  }

  lemma FeeAsksExactlyIf(item: Fee, c: Case, k: string)
    ensures k in FeeEffect(item, c).asks
            <==> && FeeConcerns(item, c) && Trustworthy(item.claim, c.on) && WaitsFor(item.applicability, c.facts, k)
  {
    TrustworthyIsAsserted(item.claim, c.on);
    VerdictHolds(item.applicability, c.facts, k);
    if InForce(item.claim, c.on) { BygoneExactlyIf(item.claim, c.on); }
  }

  lemma FeeUndecidedExactlyIf(item: Fee, c: Case)
    ensures FeeEffect(item, c).undecided
            <==> FeeConcerns(item, c) && Trustworthy(item.claim, c.on) && Stuck(item.applicability, c.facts)
  {
    TrustworthyIsAsserted(item.claim, c.on);
    VerdictHolds(item.applicability, c.facts, "");
    if InForce(item.claim, c.on) { BygoneExactlyIf(item.claim, c.on); }
  }

  /** What is said of a fee whose figures are shown, or withheld. */
  predicate FeeTells(x: PublicFee, item: Fee, on: Date) {
    var authored := item.valueState == Known || item.valueState == Range;
    && x.id == item.claim.id && x.text == item.text && x.currency == item.currency && x.feeType == item.feeType
    && (x.currentValueUnknown <==> !(authored && Asserted(item.claim, on, false)))
    && (x.valueState == if !x.currentValueUnknown then item.valueState
                        else if item.valueState == UnknownValue then UnknownValue else UnverifiedValue)
    && (if x.currentValueUnknown then x.sources == ClaimSources(item.claim.links)
        else Some(x.sources) == SupportingSources(item.claim.links, on, false))
    && x.freshness.verifiedOn == item.claim.verifiedOn && x.freshness.reverifyOn == item.claim.reverifyOn
    && (x.freshness.state == Current
        <==> Trustworthy(item.claim, on) && (authored ==> Backed(item.claim, on, false)))
  }

  lemma FeeShownAs(item: Fee, c: Case)
    requires InForce(item.claim, c.on)
    ensures FeeTells(FeeOf(item, c), item, c.on)
  {
    AssessedAs(item.claim.state, c.on, item.claim.verifiedOn, item.claim.reverifyOn, item.claim.effectiveFrom,
               item.claim.effectiveTo, None);
    AssertedAs(item.claim, c.on, false);
  }

  lemma FeeShowsItself(item: Fee, c: Case)
    requires FeeEffect(item, c).shown.Some?
    ensures FeeEffect(item, c).shown.value == FeeOf(item, c) && InForce(item.claim, c.on)
  {}

  // ----- warnings

  lemma WarningShownAs(item: Warning, c: Case)
    ensures WarningEffect(item, c).shown.Some? ==>
              var x := WarningEffect(item, c).shown.value;
              && x.id == item.claim.id && x.text == item.text && x.severity == item.severity && x.kind == item.kind
              && x.role == item.role
              && (if item.claim.links == [] then x.sources == []
                  else Some(x.sources) == SupportingSources(item.claim.links, c.on, false))
  {}

  /** The regeneration notice is listed exactly when it is well formed. */
  lemma RegenerationListedExactlyIf(item: Warning, c: Case)
    requires item.role == "regeneration"
    ensures WarningEffect(item, c).shown.Some?
            <==> item.kind == ProductWarning && item.severity == "important" && item.claim.links == []
  {}

  // ----- eligibility bases

  /** The basis may not be asked about: it is out of date, disputed, unverified, or verified only later. */
  predicate Suspect(claim: Claim, on: Date) {
    || claim.state == Stale || claim.state == Disputed || claim.state == Unverified
    || (claim.verifiedOn.Some? && Before(on, claim.verifiedOn.value))
  }

  predicate Stated(item: EligibilityBasis, on: Date) {
    InForce(item.claim, on) && item.qualification.Some?
  }

  /** Both stages hold. */
  predicate Qualifies(item: EligibilityBasis, facts: PreparedFacts) {
    Holds(item.reachability, facts, TRUE) && Holds(item.qualification, facts, TRUE)
  }

  /** A stage is undecided, and the one before it holds. */
  predicate InQuestion(item: EligibilityBasis, facts: PreparedFacts) {
    || Holds(item.reachability, facts, UNKNOWN)
    || (Holds(item.reachability, facts, TRUE) && Holds(item.qualification, facts, UNKNOWN))
  }

  predicate BasisWaitsFor(item: EligibilityBasis, facts: PreparedFacts, k: string) {
    || WaitsFor(item.reachability, facts, k)
    || (Holds(item.reachability, facts, TRUE) && WaitsFor(item.qualification, facts, k))
  }

  lemma SuspectExactlyIf(claim: Claim, on: Date)
    requires InForce(claim, on)
    ensures Distrusted(AssessDatedClaim(claim, on).freshness) <==> Suspect(claim, on)
  {
    AssessedAs(claim.state, on, claim.verifiedOn, claim.reverifyOn, claim.effectiveFrom, claim.effectiveTo, None);
  }

  lemma BasisInvalidExactlyIf(item: EligibilityBasis, facts: PreparedFacts, on: Date)
    ensures BasisEffect(item, facts, on).invalid
            <==> && InForce(item.claim, on)
                 && (item.qualification.Some? ==>
                       Qualifies(item, facts) && Trustworthy(item.claim, on) && !Backed(item.claim, on, false))
  {
    AssertedAs(item.claim, on, false);
    VerdictHolds(item.reachability, facts, "");
    VerdictHolds(item.qualification, facts, "");
  }

  lemma BasisAsksExactlyIf(item: EligibilityBasis, facts: PreparedFacts, on: Date, k: string)
    ensures k in BasisEffect(item, facts, on).asks
            <==> Stated(item, on) && !Suspect(item.claim, on) && BasisWaitsFor(item, facts, k)
  {
    VerdictHolds(item.reachability, facts, k);
    VerdictHolds(item.qualification, facts, k);
    if InForce(item.claim, on) { SuspectExactlyIf(item.claim, on); }
  }

  lemma BasisInconclusiveExactlyIf(item: EligibilityBasis, facts: PreparedFacts, on: Date, id: string)
    ensures id in BasisEffect(item, facts, on).inconclusive
            <==> && id == item.claim.id && Stated(item, on)
                 && (|| (Suspect(item.claim, on) && InQuestion(item, facts))
                     || (Qualifies(item, facts) && !Trustworthy(item.claim, on)))
  {
    AssertedAs(item.claim, on, false);
    VerdictHolds(item.reachability, facts, "");
    VerdictHolds(item.qualification, facts, "");
    if InForce(item.claim, on) { SuspectExactlyIf(item.claim, on); }
  }

  lemma BasisTrustsItself(item: EligibilityBasis, facts: PreparedFacts, on: Date)
    ensures BasisEffect(item, facts, on).trusted <= {item.claim.id}
  {}

  lemma BasisTrustedExactlyIf(item: EligibilityBasis, facts: PreparedFacts, on: Date, id: string)
    ensures id in BasisEffect(item, facts, on).trusted
            <==> && id == item.claim.id && Stated(item, on) && Qualifies(item, facts)
                 && Asserted(item.claim, on, false)
  {
    BasisTrustsItself(item, facts, on);
    BasisUnlocksExactlyIf(item, facts, on);
    VerdictHolds(item.reachability, facts, "");
    VerdictHolds(item.qualification, facts, "");
  }

  /** A qualifying basis is listed, trusted or not, unless it is trusted without evidence. */
  lemma BasisShownAs(item: EligibilityBasis, facts: PreparedFacts, on: Date)
    ensures var shown := BasisEffect(item, facts, on).shown;
            && (shown.Some? <==> && Stated(item, on) && Qualifies(item, facts)
                                 && (Trustworthy(item.claim, on) ==> Backed(item.claim, on, false)))
            && (shown.Some? ==>
                  && shown.value.id == item.claim.id && shown.value.text == item.text
                  && shown.value.checklistIds == [] && shown.value.stepIds == []
                  && (if Trustworthy(item.claim, on) then shown.value.freshness.state == Current
                      else shown.value.freshness.state != Current)
                  && (if Trustworthy(item.claim, on)
                      then Some(shown.value.sources) == SupportingSources(item.claim.links, on, false)
                      else shown.value.sources == ClaimSources(item.claim.links)))
  {
    AssertedAs(item.claim, on, false);
    VerdictHolds(item.reachability, facts, "");
    VerdictHolds(item.qualification, facts, "");
    AssessedAs(item.claim.state, on, item.claim.verifiedOn, item.claim.reverifyOn, item.claim.effectiveFrom,
               item.claim.effectiveTo, None);
  }

  // ----- direct prerequisites

  predicate Complete(item: Dependency, on: Date) {
    InForce(item.claim, on) && item.blocking && item.satisfiedWhen.Some?
  }

  lemma DependencyInvalidExactlyIf(item: Dependency, s: Snapshot, facts: PreparedFacts, on: Date)
    ensures DependencyEffect(item, s, facts, on).invalid
            <==> && InForce(item.claim, on)
                 && (Complete(item, on) ==>
                       && Holds(item.applicability, facts, TRUE) && !Holds(item.satisfiedWhen, facts, UNKNOWN)
                       && Trustworthy(item.claim, on) && !Backed(item.claim, on, false))
  {
    AssertedAs(item.claim, on, false);
    VerdictHolds(item.applicability, facts, "");
    VerdictHolds(item.satisfiedWhen, facts, "");
  }

  lemma DependencyAsksExactlyIf(item: Dependency, s: Snapshot, facts: PreparedFacts, on: Date, k: string)
    ensures k in DependencyEffect(item, s, facts, on).asks
            <==> && Complete(item, on) && Trustworthy(item.claim, on)
                 && (|| WaitsFor(item.applicability, facts, k)
                     || (Holds(item.applicability, facts, TRUE) && WaitsFor(item.satisfiedWhen, facts, k)))
  {
    TrustworthyIsAsserted(item.claim, on);
    VerdictHolds(item.applicability, facts, k);
    VerdictHolds(item.satisfiedWhen, facts, k);
  }

  /** A shown prerequisite names its target, and the version of it in force where it may be stated. */
  lemma DependencyShownAs(item: Dependency, s: Snapshot, facts: PreparedFacts, on: Date)
    requires DependencyEffect(item, s, facts, on).shown.Some?
    ensures var x, target := DependencyEffect(item, s, facts, on).shown.value, Resolve(s, item.target, on, None);
            var trusted := Trustworthy(item.claim, on);
            && x.id == item.claim.id && x.text == item.text && x.target == item.target
            && x.targetText == item.targetText
            && (if trusted then Some(x.sources) == SupportingSources(item.claim.links, on, false)
                else x.sources == ClaimSources(item.claim.links))
            && (x.targetVersion == if trusted && target.Resolved? then Some(target.version.id) else None)
  {
    TrustworthyIsAsserted(item.claim, on);
  }
}
