/**
  With silent coverage gates the planner always has an answer: a plan, a question, or a stated reason why not
  (planning/service.py, planning/selection.py). It ends in a configuration result only where stored versions
  conflict, or where a basis or dependency is current while its sources no longer are.
 */
module Readiness {
  import opened Wrappers
  import opened Ordering
  import opened Calendar
  import opened Facts
  import opened Evaluator
  import opened CasePreparation
  import opened CaseProperties
  import opened Catalog
  import opened Trust
  import opened Tally
  import opened Versions
  import opened Guidance
  import opened Prerequisites
  import opened Questions
  import opened Planner
  import opened PhaseOrder
  import opened DeadEnds
  import opened QuestionCoverage
  import opened CoverageGates

  predicate Answered(r: Result) {
    r.NextQuestion? || r.Plan? || r.InconclusiveResult?
  }

  /** Each candidate went through the gates with some version, and so did every version that may be resolved for it. */
  ghost predicate Gated(s: Snapshot, service: Service) {
    && (forall c | c in service.candidates ::
          exists v | v in s.versions :: v.procedure == c.procedure && CoverageGates.Silent(v, service, s.definitions))
    && (forall c, v | c in service.candidates && v in s.versions ::
          v.procedure == c.procedure && v.state == Published ==> CoverageGates.Silent(v, service, s.definitions))
  }

  /** What that establishes: sound questions cover the rules of the candidates and of what may be resolved. */
  ghost predicate Served(s: Snapshot, service: Service) {
    && (service.candidates != [] ==> SoundQuestions(s.definitions, service.questions))
    && CandidatesCovered(service, s.definitions)
    && forall c, v | c in service.candidates && v in s.versions ::
         v.procedure == c.procedure && v.state == Published ==>
           VersionCovered(v, s.definitions, service.questions) && Rooted(v)
  }

  // ----- choosing

  lemma {:induction false} MissingIsSomeones(rows: seq<Candidate>, facts: PreparedFacts, k: string)
    returns (c: Candidate)
    requires k in MissingForAll(rows, facts)
    ensures c in rows && k in MissingFacts(c.selection, facts.values, facts.submittedKeys)
  {
    c := rows[|rows| - 1];
    if k !in MissingFacts(c.selection, facts.values, facts.submittedKeys) {
      c := MissingIsSomeones(rows[..|rows| - 1], facts, k);
    }
  }

  lemma {:induction false} WithValueAreRows(rows: seq<Candidate>, facts: PreparedFacts, v: Truth)
    ensures forall c | c in WithValue(rows, facts, v) :: c in rows
  {
    if rows != [] { WithValueAreRows(rows[..|rows| - 1], facts, v); }
  }

  ghost predicate CandidatesCovered(service: Service, definitions: Registry) {
    forall c | c in service.candidates ::
      Shaped(c.selection) && RuleCovered(c.selection, definitions, service.questions)
  }

  /** Facts missing for covered candidates always lead to a question. */
  lemma CandidatesAreAsked(definitions: Registry, service: Service, rows: seq<Candidate>, facts: PreparedFacts,
                           source: map<string, FactValue>, on: Date)
    requires PreparedFrom(facts, DERIVED_KEYS, definitions, source, on)
             && SoundQuestions(definitions, service.questions)
    requires CandidatesCovered(service, definitions) && forall c | c in rows :: c in service.candidates
    requires MissingForAll(rows, facts) != {}
    ensures var pick := PickQuestion(definitions, service.questions, facts, MissingForAll(rows, facts),
                                     SelectionProfile);
            pick.Picked? && Answerable(definitions, pick.question.resolved)
  {
    var missing := MissingForAll(rows, facts);
    forall k | k in missing ensures Resolvable(k, definitions, service.questions, facts, SelectionProfile) {
      var c := MissingIsSomeones(rows, facts, k);
      UnknownExactlyIfMissing(c.selection, facts.values, facts.submittedKeys);
      CoveredKeyExpands(k, definitions, service.questions, facts, source, on, SelectionProfile);
    }
    PickedExactlyIf(definitions, service.questions, facts, missing, SelectionProfile);
    PickedCovers(definitions, service.questions, facts, missing, SelectionProfile);
  }

  /** Choosing ends in a configuration result exactly when an undecided candidate misses a Fact no question leads to. */
  lemma ChoiceDefectExactlyIf(definitions: Registry, service: Service, facts: PreparedFacts)
    requires forall c | c in service.candidates :: Shaped(c.selection)
    ensures var rows := SortBy(service.candidates, CandidateLe);
            Choose(definitions, service, facts).ChoiceDefect?
            <==> |WithValue(rows, facts, TRUE)| <= 1
                 && exists k | k in MissingForAll(WithValue(rows, facts, UNKNOWN), facts) ::
                      !Resolvable(k, definitions, service.questions, facts, SelectionProfile)
  {
    var rows := SortBy(service.candidates, CandidateLe);
    SortKeeps(service.candidates, CandidateLe);
    UnknownRowsMiss(rows, facts);
    var missing := MissingForAll(WithValue(rows, facts, UNKNOWN), facts);
    if missing != {} {
      AlwaysACandidate(definitions, service.questions, facts, missing, SelectionProfile);
      PickedExactlyIf(definitions, service.questions, facts, missing, SelectionProfile);
    }
  }

  lemma ChoiceIsReady(definitions: Registry, service: Service, facts: PreparedFacts, source: map<string, FactValue>,
                      on: Date)
    requires PreparedFrom(facts, DERIVED_KEYS, definitions, source, on)
             && SoundQuestions(definitions, service.questions)
    requires CandidatesCovered(service, definitions)
    ensures var choice := Choose(definitions, service, facts);
            && !choice.ChoiceDefect? && !choice.ChoiceRaised?
            && (choice.AskFirst? ==> Answerable(definitions, choice.question.resolved))
  {
    var rows := SortBy(service.candidates, CandidateLe);
    SortKeeps(service.candidates, CandidateLe);
    var unknown := WithValue(rows, facts, UNKNOWN);
    WithValueAreRows(rows, facts, UNKNOWN);
    UnknownRowsMiss(rows, facts);
    if unknown != [] { CandidatesAreAsked(definitions, service, unknown, facts, source, on); }
  }

  // ----- weighing

  /** A basis that applies and is asserted as current, though no current source supports it any more. */
  predicate UnbackedBasis(item: EligibilityBasis, facts: PreparedFacts, on: Date) {
    && InForce(item.claim, on) && Verdict(item.reachability, facts) == TRUE
       && Verdict(item.qualification, facts) == TRUE
    && AssessDatedClaim(item.claim, on).disposition == AssertCurrent
       && SupportingSources(item.claim.links, on, false).None?
  }

  predicate UnbackedDependency(item: Dependency, facts: PreparedFacts, on: Date) {
    && InForce(item.claim, on) && Verdict(item.applicability, facts) == TRUE
       && Verdict(item.satisfiedWhen, facts) != UNKNOWN
    && AssessDatedClaim(item.claim, on).disposition == AssertCurrent
       && SupportingSources(item.claim.links, on, false).None?
  }

  ghost predicate SomeUnbackedBasis(v: Version, facts: PreparedFacts, on: Date) {
    exists r | r in v.bases :: UnbackedBasis(r, facts, on)
  }

  ghost predicate SomeUnbackedDependency(v: Version, facts: PreparedFacts, on: Date) {
    exists r | r in v.dependencies :: UnbackedDependency(r, facts, on)
  }

  lemma BasisInvalidIf(item: EligibilityBasis, facts: PreparedFacts, on: Date)
    requires item.qualification.Some?
    ensures BasisEffect(item, facts, on).invalid <==> UnbackedBasis(item, facts, on)
  {}

  lemma DependencyInvalidIf(item: Dependency, s: Snapshot, facts: PreparedFacts, on: Date)
    requires item.blocking && item.satisfiedWhen.Some?
    ensures DependencyEffect(item, s, facts, on).invalid <==> UnbackedDependency(item, facts, on)
  {}

  /** Some row of the sorted selection raises a flag exactly when some authored row does. */
  lemma InvalidIfSome<R, P>(authored: seq<R>, le: (R, R) -> bool, effect: R -> Effect<P>)
    ensures Total(SortBy(authored, le), effect).configurationInvalid <==> exists r | r in authored :: effect(r).invalid
    ensures Total(SortBy(authored, le), effect).basisRequired <==> exists r | r in authored :: effect(r).needsBasis
  {
    var rows := SortBy(authored, le);
    SortKeeps(authored, le);
    TotalFlags(rows, effect);
    forall i | 0 <= i < |rows| ensures rows[i] in authored {
      var r := rows[i];
      assert r in rows && multiset(rows)[r] > 0;
    }
    forall r | r in authored ensures exists i | 0 <= i < |rows| :: rows[i] == r { assert r in SortBy(authored, le); }
  }

  lemma BasesInvalidExactlyIf(v: Version, facts: PreparedFacts, on: Date)
    requires Rooted(v)
    ensures SelectBases(v, facts, on).configurationInvalid <==> SomeUnbackedBasis(v, facts, on)
  {
    InvalidIfSome(v.bases, BasisLe, BasisEffects(facts, on));
    forall r | r in v.bases
      ensures BasisEffects(facts, on)(r).invalid <==> UnbackedBasis(r, facts, on)
    {
      BasisInvalidIf(r, facts, on);
    }
  }

  lemma DependenciesInvalidExactlyIf(s: Snapshot, v: Version, facts: PreparedFacts, on: Date)
    requires Rooted(v)
    ensures SelectDependencies(s, v, facts, on).configurationInvalid <==> SomeUnbackedDependency(v, facts, on)
  {
    InvalidIfSome(v.dependencies, DependencyLe, DependencyEffects(s, facts, on));
    forall r | r in v.dependencies
      ensures DependencyEffects(s, facts, on)(r).invalid <==> UnbackedDependency(r, facts, on)
    {
      DependencyInvalidIf(r, s, facts, on);
    }
  }

  // ----- listing

  ghost predicate KnowsBases(v: Version, c: Case) {
    Rooted(v) && c.knownBases == BasisIds(v) && c.matched.Some?
  }

  lemma ItemFindsItsBasis(item: ChecklistItem, c: Case)
    requires c.matched.Some? && (item.scope.BasisScope? ==> item.scopeReference in c.knownBases)
    ensures !ChecklistEffect(item, c).needsBasis
  {}

  lemma StepFindsItsBasis(item: Step, c: Case)
    requires c.matched.Some? && (item.scope.BasisScope? ==> InSet(item.basisId, c.knownBases))
    ensures !StepEffect(item, c).needsBasis
  {}

  lemma FeeFindsItsBasis(item: Fee, c: Case)
    requires c.matched.Some? && (item.scope.BasisScope? ==> InSet(item.basisId, c.knownBases))
    ensures !FeeEffect(item, c).needsBasis
  {}

  lemma ItemsFindTheirBasis(v: Version, c: Case)
    requires KnowsBases(v, c)
    ensures !SelectChecklist(v, c).basisRequired
  {
    InvalidIfSome(v.checklist, ItemLe, ChecklistEffects(c));
    forall r | r in v.checklist ensures !ChecklistEffects(c)(r).needsBasis { ItemFindsItsBasis(r, c); }
  }

  lemma StepsFindTheirBasis(v: Version, c: Case)
    requires KnowsBases(v, c)
    ensures !SelectStepRows(v, c).basisRequired
  {
    InvalidIfSome(v.steps, StepLe, StepEffects(c));
    forall r | r in v.steps ensures !StepEffects(c)(r).needsBasis { StepFindsItsBasis(r, c); }
  }

  lemma FeesFindTheirBasis(v: Version, c: Case)
    requires KnowsBases(v, c)
    ensures !SelectFeeRows(v, c).basisRequired
  {
    InvalidIfSome(v.fees, FeeLe, FeeEffects(c));
    forall r | r in v.fees ensures !FeeEffects(c)(r).needsBasis { FeeFindsItsBasis(r, c); }
  }

  // ----- phase by phase

  /** The case was prepared, and the version went through the gates. */
  ghost predicate Ready(s: Snapshot, service: Service, v: Version, facts: PreparedFacts, source: map<string, FactValue>,
                        on: Date) {
    && PreparedFrom(facts, DERIVED_KEYS, s.definitions, source, on)
    && SoundQuestions(s.definitions, service.questions) && VersionCovered(v, s.definitions, service.questions)
       && Rooted(v)
  }

  lemma FeesAreAnswered(s: Snapshot, service: Service, procedure: string, v: Version, c: Case,
                        source: map<string, FactValue>, bases: Selection<PublicBasis>,
                        dependencies: Selection<PublicDependency>)
    requires Ready(s, service, v, c.facts, source, c.on) && KnowsBases(v, c)
    ensures Answered(ListFees(s, service, procedure, v, c, c.on, bases, dependencies).result)
  {
    FeesFindTheirBasis(v, c);
    FeesAreAsked(s.definitions, service, v, c, source);
  }

  lemma StepsAreAnswered(s: Snapshot, service: Service, procedure: string, v: Version, c: Case,
                         source: map<string, FactValue>, bases: Selection<PublicBasis>,
                         dependencies: Selection<PublicDependency>)
    requires Ready(s, service, v, c.facts, source, c.on) && KnowsBases(v, c)
    ensures Answered(ListSteps(s, service, procedure, v, c, c.on, bases, dependencies).result)
  {
    StepsFindTheirBasis(v, c);
    StepsAreAsked(s.definitions, service, v, c, source);
    FeesAreAnswered(s, service, procedure, v, c, source, bases, dependencies);
  }

  lemma ItemsAreAnswered(s: Snapshot, service: Service, procedure: string, v: Version, c: Case,
                         source: map<string, FactValue>, bases: Selection<PublicBasis>,
                         dependencies: Selection<PublicDependency>)
    requires Ready(s, service, v, c.facts, source, c.on) && KnowsBases(v, c)
    ensures var o := ListItems(s, service, procedure, v, c, c.on, bases, dependencies);
            Answered(o.result) && o.phase >= LISTING_CHECKLIST
  {
    ItemsFindTheirBasis(v, c);
    ChecklistIsAsked(s.definitions, service, v, c, source);
    StepsAreAnswered(s, service, procedure, v, c, source, bases, dependencies);
  }

  /** Weighing ends without an answer exactly where something current has lost its sources. */
  ghost predicate StalledWeighing(v: Version, facts: PreparedFacts, on: Date, phase: Phase) {
    (phase == WEIGHING_BASES && SomeUnbackedBasis(v, facts, on))
    || (phase == WEIGHING_DEPENDENCIES && SomeUnbackedDependency(v, facts, on))
  }

  ghost predicate AnsweredUnless(o: Outcome, stalled: bool) {
    if stalled then o.result == CONFIGURATION_INVALID else Answered(o.result)
  }

  lemma WeighingIsAnswered(s: Snapshot, service: Service, procedure: string, v: Version, facts: PreparedFacts,
                           source: map<string, FactValue>, on: Date)
    requires Ready(s, service, v, facts, source, on)
    ensures var o := Weigh(s, service, procedure, v, facts, on);
            AnsweredUnless(o, StalledWeighing(v, facts, on, o.phase))
  {
    var bases, dependencies := SelectBases(v, facts, on), SelectDependencies(s, v, facts, on);
    BasesInvalidExactlyIf(v, facts, on);
    DependenciesInvalidExactlyIf(s, v, facts, on);
    BasesAreAsked(s.definitions, service, v, facts, source, on);
    DependenciesAreAsked(s, service, v, facts, source, on);
    ItemsAreAnswered(s, service, procedure, v, CaseOf(v, facts, on, bases), source, bases, dependencies);
  }

  lemma ApplyingIsAnswered(s: Snapshot, service: Service, procedure: string, v: Version, facts: PreparedFacts,
                           source: map<string, FactValue>, on: Date)
    requires Ready(s, service, v, facts, source, on)
    ensures var o := Apply(s, service, procedure, v, facts, on);
            AnsweredUnless(o, StalledWeighing(v, facts, on, o.phase))
  {
    if Eval(v.applicability, facts.values, facts.submittedKeys) == UNKNOWN {
      ApplicabilityIsAsked(s.definitions, service, v.applicability, facts, source, on);
    }
    WeighingIsAnswered(s, service, procedure, v, facts, source, on);
  }

  /** Stored versions of the chosen Procedure conflict, or weighing the one in force stalled. */
  ghost predicate Stalled(s: Snapshot, service: Service, facts: PreparedFacts, on: Date, phase: Phase) {
    var choice := Choose(s.definitions, service, facts);
    && choice.Selected?
    && var target := Resolve(s, choice.procedure, on, None);
       if phase == RESOLVING then target.Defect?
       else target.Resolved? && StalledWeighing(target.version, facts, on, phase)
  }

  lemma GatedIsServed(s: Snapshot, service: Service)
    requires Gated(s, service)
    ensures Served(s, service)
  {
    if service.candidates != [] {
      assert service.candidates[0] in service.candidates;
      var v :| v in s.versions && v.procedure == service.candidates[0].procedure
               && CoverageGates.Silent(v, service, s.definitions);
      SilentGatesCover(v, service, s.definitions);
    }
    forall c | c in service.candidates
      ensures Shaped(c.selection) && RuleCovered(c.selection, s.definitions, service.questions)
    {
      var v :| v in s.versions && v.procedure == c.procedure && CoverageGates.Silent(v, service, s.definitions);
      SilentSelectionCovers(service, c, s.definitions);
    }
    forall v | v in s.versions && CoverageGates.Silent(v, service, s.definitions)
      ensures VersionCovered(v, s.definitions, service.questions) && Rooted(v)
    {
      SilentGatesCover(v, service, s.definitions);
      SilentIsRooted(v, service, s.definitions);
    }
  }

  lemma ResolvedIsReady(s: Snapshot, service: Service, facts: PreparedFacts, source: map<string, FactValue>, on: Date)
    requires PreparedFrom(facts, DERIVED_KEYS, s.definitions, source, on) && Served(s, service)
    requires var choice := Choose(s.definitions, service, facts);
             choice.Selected? && Resolve(s, choice.procedure, on, None).Resolved?
    ensures Ready(s, service, Resolve(s, Choose(s.definitions, service, facts).procedure, on, None).version, facts,
                  source, on)
  {
    var procedure := Choose(s.definitions, service, facts).procedure;
    var v := Resolve(s, procedure, on, None).version;
    ResolvedIsStored(s, procedure, on);
    var c := ChosenIsCandidate(s.definitions, service, facts);
  }

  lemma ChosenIsCandidate(definitions: Registry, service: Service, facts: PreparedFacts) returns (c: Candidate)
    requires Choose(definitions, service, facts).Selected?
    ensures c in service.candidates && c.procedure == Choose(definitions, service, facts).procedure
  {
    var rows := SortBy(service.candidates, CandidateLe);
    SortKeeps(service.candidates, CandidateLe);
    WithValueAreRows(rows, facts, TRUE);
    c := WithValue(rows, facts, TRUE)[0];
  }

  lemma ChosenIsAnswered(s: Snapshot, service: Service, facts: PreparedFacts, source: map<string, FactValue>, on: Date)
    requires PreparedFrom(facts, DERIVED_KEYS, s.definitions, source, on) && Served(s, service)
    requires Choose(s.definitions, service, facts).Selected?
    ensures var o := Select(s, service, facts, on); AnsweredUnless(o, Stalled(s, service, facts, on, o.phase))
  {
    var procedure := Choose(s.definitions, service, facts).procedure;
    var target := Resolve(s, procedure, on, None);
    if target.Resolved? {
      ResolvedIsReady(s, service, facts, source, on);
      ApplyingIsAnswered(s, service, procedure, target.version, facts, source, on);
      ChosenIsApplied(s, service, procedure, target.version, facts, on);
    }
  }

  lemma ChosenIsApplied(s: Snapshot, service: Service, procedure: string, v: Version, facts: PreparedFacts, on: Date)
    requires Choose(s.definitions, service, facts) == Selected(procedure)
    requires Resolve(s, procedure, on, None).Resolved? && Resolve(s, procedure, on, None).version == v
    ensures Select(s, service, facts, on) == Apply(s, service, procedure, v, facts, on)
  {}

  lemma SelectionIsAnswered(s: Snapshot, service: Service, facts: PreparedFacts, source: map<string, FactValue>,
                            on: Date)
    requires PreparedFrom(facts, DERIVED_KEYS, s.definitions, source, on) && Served(s, service)
    ensures var o := Select(s, service, facts, on); AnsweredUnless(o, Stalled(s, service, facts, on, o.phase))
  {
    var choice := Choose(s.definitions, service, facts);
    if service.candidates == [] {
      assert choice == NoChoice(NoMatchingResearchedProcedure);
    } else {
      ChoiceIsReady(s.definitions, service, facts, source, on);
      if choice.Selected? { ChosenIsAnswered(s, service, facts, source, on); }
    }
  }

  lemma ServedCasesAreAnswered(s: Snapshot, input: Input) returns (service: Service, facts: PreparedFacts)
    requires Operate(s, input).phase >= CHOOSING
    requires forall x | x in s.services :: Served(s, x)
    ensures FindService(s.services, input.service) == Some(service)
    ensures Prepare(s.definitions, service.contradictions, input.facts, input.on) == Prepared(facts)
    ensures AnsweredUnless(Operate(s, input), Stalled(s, service, facts, input.on, Operate(s, input).phase))
  {
    BeyondPreparation(s, input);
    service := FindService(s.services, input.service).value;
    FoundIsMember(s.services, input.service);
    facts := Prepare(s.definitions, service.contradictions, input.facts, input.on).facts;
    var source := PreparationMeaning(s.definitions, service.contradictions, input.facts, input.on);
    SelectionIsAnswered(s, service, facts, source, input.on);
  }

  /**
    A prepared case of a service that went through the gates is answered with a plan, a question or a reason,
    except exactly where stored versions conflict or something current has lost its sources; nothing is raised.
   */
  lemma GatedCasesAreAnswered(s: Snapshot, input: Input) returns (service: Service, facts: PreparedFacts)
    requires Operate(s, input).phase >= CHOOSING
    requires forall x | x in s.services :: Gated(s, x)
    ensures FindService(s.services, input.service) == Some(service)
    ensures Prepare(s.definitions, service.contradictions, input.facts, input.on) == Prepared(facts)
    ensures AnsweredUnless(Operate(s, input), Stalled(s, service, facts, input.on, Operate(s, input).phase))
  {
    forall x | x in s.services ensures Served(s, x) { GatedIsServed(s, x); }
    service, facts := ServedCasesAreAnswered(s, input);
  }
}
