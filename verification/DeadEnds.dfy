/** Branches of the operation that validated rules never reach, and the rows that still end a plan undecided. */
module DeadEnds {
  import opened Wrappers
  import opened Ordering
  import opened Calendar
  import opened Facts
  import opened Rules
  import opened Evaluator
  import opened CasePreparation
  import opened Contradictions
  import opened Catalog
  import opened Trust
  import opened Tally
  import opened Versions
  import opened Guidance
  import opened Prerequisites
  import opened Questions
  import opened Planner
  import opened Questionnaire
  import opened PhaseOrder

  ghost predicate ShapedIfAny(rule: Option<Predicate>) {
    rule.Some? ==> Shaped(rule.value)
  }

  ghost predicate ShapedSnapshot(s: Snapshot) {
    && (forall x, c | x in s.services && c in x.candidates :: Shaped(c.selection))
    && forall v | v in s.versions ::
         && Shaped(v.applicability)
         && (forall r | r in v.checklist :: ShapedIfAny(r.applicability))
         && (forall r | r in v.steps :: ShapedIfAny(r.applicability))
         && (forall r | r in v.fees :: ShapedIfAny(r.applicability))
  }

  lemma UnknownIsAskable(rule: Option<Predicate>, facts: PreparedFacts)
    requires ShapedIfAny(rule)
    ensures Verdict(rule, facts) == UNKNOWN <==> Unanswered(rule, facts) != {}
  {
    if rule.Some? { UnknownExactlyIfMissing(rule.value, facts.values, facts.submittedKeys); }
  }

  // ----- the selection never runs out of questions

  lemma {:induction false} UnknownRowsMiss(rows: seq<Candidate>, facts: PreparedFacts)
    requires forall c | c in rows :: Shaped(c.selection)
    ensures WithValue(rows, facts, UNKNOWN) != [] ==> MissingForAll(WithValue(rows, facts, UNKNOWN), facts) != {}
  {
    if rows != [] {
      var last := rows[|rows| - 1];
      assert last in rows;
      UnknownRowsMiss(rows[..|rows| - 1], facts);
      UnknownExactlyIfMissing(last.selection, facts.values, facts.submittedKeys);
      var init := WithValue(rows[..|rows| - 1], facts, UNKNOWN);
      assert (init + [last])[..|init|] == init;
    }
  }

  lemma ChoiceNeverRaises(definitions: Registry, service: Service, facts: PreparedFacts)
    requires forall c | c in service.candidates :: Shaped(c.selection)
    ensures !Choose(definitions, service, facts).ChoiceRaised?
  {
    var rows := SortBy(service.candidates, CandidateLe);
    SortKeeps(service.candidates, CandidateLe);
    UnknownRowsMiss(rows, facts);
    var unknown := WithValue(rows, facts, UNKNOWN);
    if unknown != [] {
      AlwaysACandidate(definitions, service.questions, facts, MissingForAll(unknown, facts), SelectionProfile);
    }
  }

  // ----- no phase ends undecided without a Fact to ask for

  lemma FeeIsDecidedOrAsked(item: Fee, c: Case)
    requires ShapedIfAny(item.applicability)
    ensures !FeeEffect(item, c).undecided
  {
    UnknownIsAskable(item.applicability, c.facts);
  }

  lemma FeesAreDecidedOrAsked(v: Version, c: Case)
    requires forall r | r in v.fees :: ShapedIfAny(r.applicability)
    ensures !SelectFeeRows(v, c).undecided
  {
    var rows, effect := SortBy(v.fees, FeeLe), FeeEffects(c);
    SortKeeps(v.fees, FeeLe);
    TotalFlags(rows, effect);
    forall i | 0 <= i < |rows| ensures !effect(rows[i]).undecided {
      assert rows[i] in rows;
      FeeIsDecidedOrAsked(rows[i], c);
    }
  }

  /** A step is left undecided only because it cannot be trusted anyway. */
  predicate UntrustedAndUnknown(item: Step, c: Case) {
    && !item.scope.OtherScope? && InForce(item.claim, c.on)
    && (item.scope.BasisScope? ==>
          InSet(item.basisId, c.knownBases) && c.matched.Some? && InSet(item.basisId, c.matched.value))
    && Verdict(item.applicability, c.facts) == UNKNOWN
    && (AssessClaim(item.claim, c.on).disposition != AssertCurrent
        || SupportingSources(item.claim.links, c.on, false).None?)
  }

  lemma StepUndecidedExactlyIf(item: Step, c: Case)
    requires ShapedIfAny(item.applicability)
    ensures StepEffect(item, c).undecided <==> UntrustedAndUnknown(item, c)
  {
    UnknownIsAskable(item.applicability, c.facts);
  }

  lemma StepsUndecidedExactlyIf(v: Version, c: Case)
    requires forall r | r in v.steps :: ShapedIfAny(r.applicability)
    ensures SelectStepRows(v, c).undecided <==> exists r :: r in v.steps && UntrustedAndUnknown(r, c)
  {
    var rows := SortBy(v.steps, StepLe);
    SortKeeps(v.steps, StepLe);
    TotalFlags(rows, StepEffects(c));
    forall r | r in v.steps ensures StepEffects(c)(r).undecided <==> UntrustedAndUnknown(r, c) {
      StepUndecidedExactlyIf(r, c);
    }
    if r :| r in v.steps && UntrustedAndUnknown(r, c) {
      var i :| 0 <= i < |rows| && rows[i] == r;
      assert StepEffects(c)(rows[i]).undecided;
    }
    if SelectStepRows(v, c).undecided {
      var i :| 0 <= i < |rows| && StepEffects(c)(rows[i]).undecided;
      assert rows[i] in rows && UntrustedAndUnknown(rows[i], c);
    }
  }

  /** A checklist item is left undecided only if it is official and cannot be trusted or backed anyway. */
  predicate OfficialUntrustedAndUnknown(item: ChecklistItem, c: Case) {
    && item.classification == OfficialRequirement && !item.scope.OtherScope? && InForce(item.claim, c.on)
    && (item.scope.BasisScope? ==>
          item.scopeReference in c.knownBases && c.matched.Some? && item.scopeReference in c.matched.value)
    && Verdict(item.applicability, c.facts) == UNKNOWN
    && (AssessClaim(item.claim, c.on).disposition != AssertCurrent
        || SupportingSources(item.claim.links, c.on, true).None?)
  }

  lemma ItemUndecidedExactlyIf(item: ChecklistItem, c: Case)
    requires ShapedIfAny(item.applicability)
    ensures ChecklistEffect(item, c).undecided <==> OfficialUntrustedAndUnknown(item, c)
  {
    UnknownIsAskable(item.applicability, c.facts);
  }

  lemma ItemsUndecidedExactlyIf(v: Version, c: Case)
    requires forall r | r in v.checklist :: ShapedIfAny(r.applicability)
    ensures SelectChecklist(v, c).undecided <==> exists r :: r in v.checklist && OfficialUntrustedAndUnknown(r, c)
  {
    var rows := SortBy(v.checklist, ItemLe);
    SortKeeps(v.checklist, ItemLe);
    TotalFlags(rows, ChecklistEffects(c));
    forall r | r in v.checklist ensures ChecklistEffects(c)(r).undecided <==> OfficialUntrustedAndUnknown(r, c) {
      ItemUndecidedExactlyIf(r, c);
    }
    if r :| r in v.checklist && OfficialUntrustedAndUnknown(r, c) {
      var i :| 0 <= i < |rows| && rows[i] == r;
      assert ChecklistEffects(c)(rows[i]).undecided;
    }
    if SelectChecklist(v, c).undecided {
      var i :| 0 <= i < |rows| && ChecklistEffects(c)(rows[i]).undecided;
      assert rows[i] in rows && OfficialUntrustedAndUnknown(rows[i], c);
    }
  }

  /** What no result of validated rules ever is. */
  ghost predicate Unreachable(r: Result) {
    || r == InconclusiveResult(ProcedureVersionApplicabilityUnknown)
    || r == InconclusiveResult(FeeApplicabilityUnknown)
    || r.Raised?
  }

  lemma FeesAreReachable(s: Snapshot, service: Service, procedure: string, v: Version, c: Case, on: Date,
                           bases: Selection<PublicBasis>, dependencies: Selection<PublicDependency>)
    requires forall r | r in v.fees :: ShapedIfAny(r.applicability)
    ensures !Unreachable(ListFees(s, service, procedure, v, c, on, bases, dependencies).result)
  {
    FeesAreDecidedOrAsked(v, c);
  }

  lemma StepsAreReachable(s: Snapshot, service: Service, procedure: string, v: Version, c: Case, on: Date,
                           bases: Selection<PublicBasis>, dependencies: Selection<PublicDependency>)
    requires forall r | r in v.fees :: ShapedIfAny(r.applicability)
    ensures !Unreachable(ListSteps(s, service, procedure, v, c, on, bases, dependencies).result)
  {
    FeesAreReachable(s, service, procedure, v, c, on, bases, dependencies);
    StepsStopOrGoOn(s, service, procedure, v, c, on, bases, dependencies);
  }

  lemma ListingIsReachable(s: Snapshot, service: Service, procedure: string, v: Version, c: Case, on: Date,
                           bases: Selection<PublicBasis>, dependencies: Selection<PublicDependency>)
    requires forall r | r in v.fees :: ShapedIfAny(r.applicability)
    ensures !Unreachable(ListItems(s, service, procedure, v, c, on, bases, dependencies).result)
  {
    StepsAreReachable(s, service, procedure, v, c, on, bases, dependencies);
    ItemsStopOrGoOn(s, service, procedure, v, c, on, bases, dependencies);
  }

  lemma WeighingIsReachable(s: Snapshot, service: Service, procedure: string, v: Version, facts: PreparedFacts,
                            on: Date)
    requires forall r | r in v.fees :: ShapedIfAny(r.applicability)
    ensures !Unreachable(Weigh(s, service, procedure, v, facts, on).result)
  {
    var bases, dependencies := SelectBases(v, facts, on), SelectDependencies(s, v, facts, on);
    ListingIsReachable(s, service, procedure, v, CaseOf(v, facts, on, bases), on, bases, dependencies);
    WeighStopsOrLists(s, service, procedure, v, facts, on);
  }

  lemma ApplyingIsReachable(s: Snapshot, service: Service, procedure: string, v: Version, facts: PreparedFacts,
                            on: Date)
    requires Shaped(v.applicability) && forall r | r in v.fees :: ShapedIfAny(r.applicability)
    ensures !Unreachable(Apply(s, service, procedure, v, facts, on).result)
  {
    UnknownExactlyIfMissing(v.applicability, facts.values, facts.submittedKeys);
    WeighingIsReachable(s, service, procedure, v, facts, on);
  }

  lemma SelectingIsReachable(s: Snapshot, service: Service, facts: PreparedFacts, on: Date)
    requires ShapedSnapshot(s) && service in s.services
    ensures !Unreachable(Select(s, service, facts, on).result)
  {
    var choice := Choose(s.definitions, service, facts);
    ChoiceNeverRaises(s.definitions, service, facts);
    if choice.NoChoice? { NoChoiceReason(s.definitions, service, facts); }
    if choice.Selected? {
      var target := Resolve(s, choice.procedure, on, None);
      if target.Unavailable? { UnavailableReason(s, choice.procedure, on); }
      if target.Resolved? {
        ResolvedIsStored(s, choice.procedure, on);
        ApplyingIsReachable(s, service, choice.procedure, target.version, facts, on);
      }
    }
  }

  lemma NoChoiceReason(definitions: Registry, service: Service, facts: PreparedFacts)
    requires Choose(definitions, service, facts).NoChoice?
    ensures !Unreachable(InconclusiveResult(Choose(definitions, service, facts).reason))
  {}

  lemma UnavailableReason(s: Snapshot, procedure: string, on: Date)
    requires Resolve(s, procedure, on, None).Unavailable?
    ensures !Unreachable(InconclusiveResult(Resolve(s, procedure, on, None).reason))
  {}

  /**
    With validated rules no plan ends on an undecided version or fee, and the operation raises only
    where preparation trips its assertion.
   */
  lemma DeadEndsAreNotReached(s: Snapshot, input: Input)
    requires ShapedSnapshot(s)
    ensures Unreachable(PlanStateless(s, input)) ==>
              PlanStateless(s, input).Raised? && !PinnedNamesAreDerived(s.definitions)
  {
    if Operate(s, input).phase >= CHOOSING {
      BeyondPreparation(s, input);
      var service := FindService(s.services, input.service).value;
      FoundIsMember(s.services, input.service);
      SelectingIsReachable(s, service, Prepare(s.definitions, service.contradictions, input.facts, input.on).facts,
                           input.on);
    } else if Unreachable(PlanStateless(s, input)) {
      StoppedEarly(s, input);
    }
  }

  lemma StoppedEarly(s: Snapshot, input: Input)
    requires Operate(s, input).phase < CHOOSING && Unreachable(PlanStateless(s, input))
    ensures PlanStateless(s, input).Raised? && !PinnedNamesAreDerived(s.definitions)
  {
    AcceptedAgain(input.facts, s.definitions);
    var service := FindService(s.services, input.service).value;
    assert Prepare(s.definitions, service.contradictions, input.facts, input.on).AssertionFailed?;
    AssertionTripsExactlyIf(s.definitions, service.contradictions, input.on);
  }
}
