/** Exactly when a plan states something: each selection in terms of the claim, its evidence, its rule and its scope. */
module Listed {
  import opened Wrappers
  import opened Ordering
  import opened Calendar
  import opened Facts
  import opened Evaluator
  import opened Catalog
  import opened Trust
  import opened Tally
  import opened Versions
  import opened Guidance
  import opened Prerequisites

  /** The claim itself may be stated: current, verified by the day, not overdue. */
  predicate Trustworthy(c: Claim, on: Date) {
    c.state == Current && !AfterDay(c.verifiedOn, on) && (c.reverifyOn.Some? ==> NotAfter(on, c.reverifyOn.value))
  }

  /** Some current link supports the claim and none contradicts it. */
  predicate Backed(c: Claim, on: Date, officialOnly: bool) {
    (exists i | 0 <= i < |c.links| :: Sustains(c.links[i], on, officialOnly)) && !Contradicted(c.links, on)
  }

  lemma TrustworthyIsAsserted(c: Claim, on: Date)
    ensures AssessClaim(c, on).disposition == AssertCurrent <==> Trustworthy(c, on)
    ensures AssessDatedClaim(c, on).disposition == AssertCurrent <==> Trustworthy(c, on) && InForce(c, on)
  {
    AssertedExactlyIf(c.state, on, c.verifiedOn, c.reverifyOn, None, None, None);
    AssertedExactlyIf(c.state, on, c.verifiedOn, c.reverifyOn, c.effectiveFrom, c.effectiveTo, None);
  }

  /** The row is for everyone, or for a basis the case has been trusted with. */
  predicate InScope(scope: Scope, basis: Option<string>, c: Case) {
    scope.ProcedureScope?
    || (scope.BasisScope? && InSet(basis, c.knownBases) && c.matched.Some? && InSet(basis, c.matched.value))
  }

  lemma ChecklistListedExactlyIf(item: ChecklistItem, c: Case)
    ensures ChecklistEffect(item, c).shown.Some?
            <==> && !item.classification.OtherClassification? && InScope(item.scope, Some(item.scopeReference), c)
                 && InForce(item.claim, c.on) && Verdict(item.applicability, c.facts) == TRUE
                 && Trustworthy(item.claim, c.on)
                    && Backed(item.claim, c.on, item.classification == OfficialRequirement)
  {
    ItemShownWhenAsserted(item, c);
    TrustworthyIsAsserted(item.claim, c.on);
    SupportedExactlyIf(item.claim.links, c.on, item.classification == OfficialRequirement);
  }

  lemma ItemShownWhenAsserted(item: ChecklistItem, c: Case)
    ensures ChecklistEffect(item, c).shown.Some?
            <==> && !item.classification.OtherClassification? && InScope(item.scope, Some(item.scopeReference), c)
                 && InForce(item.claim, c.on) && Verdict(item.applicability, c.facts) == TRUE
                 && AssessClaim(item.claim, c.on).disposition == AssertCurrent
                 && SupportingSources(item.claim.links, c.on, item.classification == OfficialRequirement).Some?
  {
    if item.scope.BasisScope? {
      assert InScope(item.scope, Some(item.scopeReference), c) <==>
               item.scopeReference in c.knownBases && c.matched.Some? && item.scopeReference in c.matched.value;
    }
  }

  lemma StepListedExactlyIf(item: Step, c: Case)
    ensures StepEffect(item, c).shown.Some?
            <==> && InScope(item.scope, item.basisId, c)
                 && InForce(item.claim, c.on) && Verdict(item.applicability, c.facts) == TRUE
                 && Trustworthy(item.claim, c.on) && Backed(item.claim, c.on, false)
  {
    StepShownWhenAsserted(item, c);
    TrustworthyIsAsserted(item.claim, c.on);
    SupportedExactlyIf(item.claim.links, c.on, false);
  }

  lemma StepShownWhenAsserted(item: Step, c: Case)
    ensures StepEffect(item, c).shown.Some?
            <==> && InScope(item.scope, item.basisId, c)
                 && InForce(item.claim, c.on) && Verdict(item.applicability, c.facts) == TRUE
                 && AssessClaim(item.claim, c.on).disposition == AssertCurrent
                 && SupportingSources(item.claim.links, c.on, false).Some?
  {
    if item.scope.BasisScope? {
      assert InScope(item.scope, item.basisId, c) <==>
               InSet(item.basisId, c.knownBases) && c.matched.Some? && InSet(item.basisId, c.matched.value);
    }
  }

  /** A fee's authored figures are shown exactly when they may be stated; any other shown fee shows none. */
  lemma FeeValueShownExactlyIf(item: Fee, c: Case)
    ensures FeeEffect(item, c).shown.Some? && !FeeEffect(item, c).shown.value.currentValueUnknown
            <==> && InScope(item.scope, item.basisId, c)
                 && InForce(item.claim, c.on) && Verdict(item.applicability, c.facts) == TRUE
                 && HasAuthoredValue(item) && Trustworthy(item.claim, c.on) && Backed(item.claim, c.on, false)
    ensures FeeEffect(item, c).shown.Some? ==>
              var fee := FeeEffect(item, c).shown.value;
              if fee.currentValueUnknown then fee.amount.None? && fee.minimum.None? && fee.maximum.None?
              else
                && fee.amount == item.amount && fee.minimum == item.minimum && fee.maximum == item.maximum
                && fee.valueState == item.valueState
  {
    TrustworthyIsAsserted(item.claim, c.on);
    SupportedExactlyIf(item.claim.links, c.on, false);
  }

  /**
    An ordinary warning needs trust like anything else; a product warning is stated without evidence, others
    with it.
   */
  lemma WarningListedExactlyIf(item: Warning, c: Case)
    requires item.role != "regeneration"
    ensures WarningEffect(item, c).shown.Some?
            <==> && InForce(item.claim, c.on) && Verdict(item.applicability, c.facts) == TRUE
                 && Trustworthy(item.claim, c.on)
                 && match item.kind
                    case ProductWarning => item.claim.links == []
                    case AdministrativeWarning => Backed(item.claim, c.on, false)
                    case OtherWarning => false
  {
    TrustworthyIsAsserted(item.claim, c.on);
    SupportedExactlyIf(item.claim.links, c.on, false);
  }

  /** The well-formed regeneration notice is listed whatever the case, and whatever became of its trust. */
  lemma RegenerationIsAlwaysListed(v: Version, c: Case, item: Warning) returns (x: PublicWarning)
    requires item in v.warnings && item.role == "regeneration"
    requires item.kind.ProductWarning? && item.severity == "important" && item.claim.links == []
    ensures x in SelectWarnings(v, c) && x.id == item.claim.id && x.text == item.text && x.role == "regeneration"
  {
    var rows := SortBy(v.warnings, WarningLe);
    SortKeeps(v.warnings, WarningLe);
    TotalShows(rows, WarningEffects(c));
    assert item in rows;
    var i :| 0 <= i < |rows| && rows[i] == item;
    x := WarningEffects(c)(rows[i]).shown.value;
  }

  /** A basis unlocks guidance exactly when both its stages hold and the claim may be stated. */
  lemma BasisUnlocksExactlyIf(item: EligibilityBasis, facts: PreparedFacts, on: Date)
    ensures item.claim.id in BasisEffect(item, facts, on).trusted
            <==> && InForce(item.claim, on) && item.qualification.Some?
                 && Verdict(item.reachability, facts) == TRUE && Verdict(item.qualification, facts) == TRUE
                 && Trustworthy(item.claim, on) && Backed(item.claim, on, false)
  {
    TrustedWhenAsserted(item, facts, on);
    TrustworthyIsAsserted(item.claim, on);
    SupportedExactlyIf(item.claim.links, on, false);
  }

  lemma TrustedWhenAsserted(item: EligibilityBasis, facts: PreparedFacts, on: Date)
    ensures item.claim.id in BasisEffect(item, facts, on).trusted
            <==> && InForce(item.claim, on) && item.qualification.Some?
                 && Verdict(item.reachability, facts) == TRUE && Verdict(item.qualification, facts) == TRUE
                 && AssessDatedClaim(item.claim, on).disposition == AssertCurrent
                 && SupportingSources(item.claim.links, on, false).Some?
  {}

  /** The dependency applies, may be stated, and says what satisfies it. */
  predicate Decidable(item: Dependency, facts: PreparedFacts, on: Date) {
    && InForce(item.claim, on) && item.blocking && item.satisfiedWhen.Some?
       && Verdict(item.applicability, facts) == TRUE
    && AssessDatedClaim(item.claim, on).disposition == AssertCurrent
       && SupportingSources(item.claim.links, on, false).Some?
  }

  lemma DecidableMeans(item: Dependency, facts: PreparedFacts, on: Date)
    ensures Decidable(item, facts, on)
            <==> Stateable(item, facts, on)
  {
    TrustworthyIsAsserted(item.claim, on);
    SupportedExactlyIf(item.claim.links, on, false);
  }

  /** The dependency is shown with this status. */
  predicate ShownAs(item: Dependency, s: Snapshot, facts: PreparedFacts, on: Date, status: DependencyStatus) {
    var shown := DependencyEffect(item, s, facts, on).shown;
    shown.Some? && shown.value.status == status
  }

  /** The dependency is in force and complete, it applies, and its claim is trusted and backed. */
  ghost predicate Stateable(item: Dependency, facts: PreparedFacts, on: Date) {
    && InForce(item.claim, on) && item.blocking && item.satisfiedWhen.Some?
       && Verdict(item.applicability, facts) == TRUE
    && Trustworthy(item.claim, on) && Backed(item.claim, on, false)
  }

  /** What may be stated is satisfied or blocking; a failed rule blocks only where the target has a version in force. */
  lemma DependencyDecidedExactlyIf(item: Dependency, s: Snapshot, facts: PreparedFacts, on: Date)
    ensures ShownAs(item, s, facts, on, Satisfied)
            <==> Stateable(item, facts, on) && Verdict(item.satisfiedWhen, facts) == TRUE
    ensures ShownAs(item, s, facts, on, Blocking)
            <==> Stateable(item, facts, on) && Verdict(item.satisfiedWhen, facts) == FALSE
                 && Resolve(s, item.target, on, None).Resolved?
    ensures ShownAs(item, s, facts, on, UnsupportedTarget)
            <==> Stateable(item, facts, on) && Verdict(item.satisfiedWhen, facts) == FALSE
                 && Resolve(s, item.target, on, None).Unavailable?
  {
    DecidableMeans(item, facts, on);
    ShownWhenDecidable(item, s, facts, on);
  }

  lemma ShownWhenDecidable(item: Dependency, s: Snapshot, facts: PreparedFacts, on: Date)
    ensures Decidable(item, facts, on) && Verdict(item.satisfiedWhen, facts) != UNKNOWN ==>
              var target := Resolve(s, item.target, on, None);
              ShownAs(item, s, facts, on, StatusOf(Verdict(item.satisfiedWhen, facts) == TRUE, target))
    ensures !Decidable(item, facts, on) || Verdict(item.satisfiedWhen, facts) == UNKNOWN ==>
              forall status | ShownAs(item, s, facts, on, status) :: status == InconclusiveStatus
  {}

  /** A dependency is inconclusive when it cannot be trusted, or when it failed and its target's versions conflict. */
  lemma DependencyInconclusiveExactlyIf(item: Dependency, s: Snapshot, facts: PreparedFacts, on: Date)
    ensures ShownAs(item, s, facts, on, InconclusiveStatus)
            <==> || (Stateable(item, facts, on) && Verdict(item.satisfiedWhen, facts) == FALSE
                     && Resolve(s, item.target, on, None).Defect?)
                 || (InForce(item.claim, on) && item.blocking && item.satisfiedWhen.Some?
                     && Verdict(item.applicability, facts) != FALSE && !Trustworthy(item.claim, on))
  {
    DecidableMeans(item, facts, on);
    TrustworthyIsAsserted(item.claim, on);
    InconclusiveWhenNotAsserted(item, s, facts, on);
  }

  lemma InconclusiveWhenNotAsserted(item: Dependency, s: Snapshot, facts: PreparedFacts, on: Date)
    ensures ShownAs(item, s, facts, on, InconclusiveStatus)
            <==> || (Decidable(item, facts, on) && Verdict(item.satisfiedWhen, facts) == FALSE
                     && Resolve(s, item.target, on, None).Defect?)
                 || (InForce(item.claim, on) && item.blocking && item.satisfiedWhen.Some?
                     && Verdict(item.applicability, facts) != FALSE
                     && AssessDatedClaim(item.claim, on).disposition != AssertCurrent)
  {}

  /** A checklist lists exactly the authored rows that are shown. */
  lemma ChecklistListsShownRows(v: Version, c: Case, id: string)
    ensures (exists x :: x in SelectChecklist(v, c).items && x.id == id)
            <==> exists r :: r in v.checklist && r.claim.id == id && ChecklistEffect(r, c).shown.Some?
  {
    var rows := SortBy(v.checklist, ItemLe);
    SortKeeps(v.checklist, ItemLe);
    TotalShows(rows, ChecklistEffects(c));
    forall r: ChecklistItem { ChecklistShowsCurrent(r, c); }
    if x :| x in SelectChecklist(v, c).items && x.id == id {
      var i :| 0 <= i < |rows| && ChecklistEffects(c)(rows[i]).shown == Some(x);
      assert rows[i] in v.checklist && ChecklistEffect(rows[i], c).shown == Some(x);
    }
    if r :| r in v.checklist && r.claim.id == id && ChecklistEffect(r, c).shown.Some? {
      assert r in rows;
      var i :| 0 <= i < |rows| && rows[i] == r;
      assert ChecklistEffects(c)(rows[i]).shown == Some(ChecklistEffect(r, c).shown.value);
    }
  }

  /** So do the steps. */
  lemma StepsListShownRows(v: Version, c: Case, id: string)
    ensures (exists x :: x in SelectStepRows(v, c).items && x.id == id)
            <==> exists r :: r in v.steps && r.claim.id == id && StepEffect(r, c).shown.Some?
  {
    var rows := SortBy(v.steps, StepLe);
    SortKeeps(v.steps, StepLe);
    TotalShows(rows, StepEffects(c));
    forall r: Step { StepShowsCurrent(r, c); }
    if x :| x in SelectStepRows(v, c).items && x.id == id {
      var i :| 0 <= i < |rows| && StepEffects(c)(rows[i]).shown == Some(x);
      assert rows[i] in v.steps && StepEffect(rows[i], c).shown == Some(x);
    }
    if r :| r in v.steps && r.claim.id == id && StepEffect(r, c).shown.Some? {
      assert r in rows;
      var i :| 0 <= i < |rows| && rows[i] == r;
      assert StepEffects(c)(rows[i]).shown == Some(StepEffect(r, c).shown.value);
    }
  }
}
