/**
  Answers only move the questionnaire forward: when answers are added and no `exists` test sees a
  difference, the chosen Procedure never changes and no later question comes from an earlier phase.
 */
module PhaseOrder {
  import opened Wrappers
  import opened Ordering
  import opened Calendar
  import opened Facts
  import opened Rules
  import opened Evaluator
  import opened CasePreparation
  import opened CaseProperties
  import opened Catalog
  import opened Trust
  import opened Tally
  import opened Versions
  import opened Guidance
  import opened Prerequisites
  import opened Planner
  import opened Questionnaire

  // ----- rules whose `exists` tests see the same submissions

  ghost predicate Steady(p: Predicate, a: set<string>, b: set<string>) {
    Shaped(p) && SameExists(p, a, b)
  }

  ghost predicate SteadyIfAny(p: Option<Predicate>, a: set<string>, b: set<string>) {
    p.Some? ==> Steady(p.value, a, b)
  }

  ghost predicate SteadyVersion(v: Version, a: set<string>, b: set<string>) {
    && Steady(v.applicability, a, b)
    && (forall r | r in v.bases :: SteadyIfAny(r.reachability, a, b) && SteadyIfAny(r.qualification, a, b))
    && (forall r | r in v.dependencies :: SteadyIfAny(r.applicability, a, b) && SteadyIfAny(r.satisfiedWhen, a, b))
    && (forall r | r in v.checklist :: SteadyIfAny(r.applicability, a, b))
    && (forall r | r in v.steps :: SteadyIfAny(r.applicability, a, b))
    && (forall r | r in v.fees :: SteadyIfAny(r.applicability, a, b))
  }

  ghost predicate SteadySnapshot(s: Snapshot, a: set<string>, b: set<string>) {
    && (forall x, c | x in s.services && c in x.candidates :: Steady(c.selection, a, b))
    && forall v | v in s.versions :: SteadyVersion(v, a, b)
  }

  /** Rules without `exists` are steady under any submissions. */
  lemma ExistsFreeIsSteady(p: Predicate, a: set<string>, b: set<string>)
    requires Shaped(p) && ExistsKeys(p) == {}
    ensures Steady(p, a, b)
  {}

  ghost predicate ExistsFree(p: Predicate) {
    Shaped(p) && ExistsKeys(p) == {}
  }

  ghost predicate ExistsFreeIfAny(p: Option<Predicate>) {
    p.Some? ==> ExistsFree(p.value)
  }

  ghost predicate ExistsFreeSnapshot(s: Snapshot) {
    && (forall x, c | x in s.services && c in x.candidates :: ExistsFree(c.selection))
    && forall v | v in s.versions ::
         && ExistsFree(v.applicability)
         && (forall r | r in v.bases :: ExistsFreeIfAny(r.reachability) && ExistsFreeIfAny(r.qualification))
         && (forall r | r in v.dependencies :: ExistsFreeIfAny(r.applicability) && ExistsFreeIfAny(r.satisfiedWhen))
         && (forall r | r in v.checklist :: ExistsFreeIfAny(r.applicability))
         && (forall r | r in v.steps :: ExistsFreeIfAny(r.applicability))
         && (forall r | r in v.fees :: ExistsFreeIfAny(r.applicability))
  }

  /** A snapshot without `exists` tests is steady whatever is submitted. */
  lemma ExistsFreeSnapshotIsSteady(s: Snapshot, a: set<string>, b: set<string>)
    requires ExistsFreeSnapshot(s)
    ensures SteadySnapshot(s, a, b)
  {
    forall p | ExistsFree(p) ensures Steady(p, a, b) { ExistsFreeIsSteady(p, a, b); }
  }

  /** More prepared Facts, nothing retracted. */
  ghost predicate Grows(f: PreparedFacts, f': PreparedFacts) {
    Extends(f'.values, f.values)
  }

  lemma VerdictStays(rule: Option<Predicate>, f: PreparedFacts, f': PreparedFacts)
    requires Grows(f, f') && SteadyIfAny(rule, f.submittedKeys, f'.submittedKeys)
    ensures Verdict(rule, f) != UNKNOWN ==> Verdict(rule, f') == Verdict(rule, f)
    ensures Verdict(rule, f) == UNKNOWN <==> Unanswered(rule, f) != {}
    ensures Verdict(rule, f') == UNKNOWN <==> Unanswered(rule, f') != {}
  {
    if rule.Some? {
      UnknownExactlyIfMissing(rule.value, f.values, f.submittedKeys);
      SteadyIsShaped(rule.value, f, f');
      UnknownExactlyIfMissing(rule.value, f'.values, f'.submittedKeys);
      if Verdict(rule, f) != UNKNOWN {
        DecidedStays(rule.value, f.values, f.submittedKeys, f'.values, f'.submittedKeys);
      }
    }
  }

  lemma SteadyIsShaped(p: Predicate, f: PreparedFacts, f': PreparedFacts)
    requires Steady(p, f.submittedKeys, f'.submittedKeys)
    ensures Shaped(p)
  {}

  // ----- a row that asks nothing never asks later

  lemma BasisStays(item: EligibilityBasis, f: PreparedFacts, f': PreparedFacts, on: Date)
    requires Grows(f, f')
    requires SteadyIfAny(item.reachability, f.submittedKeys, f'.submittedKeys)
    requires SteadyIfAny(item.qualification, f.submittedKeys, f'.submittedKeys)
    requires BasisEffect(item, f, on).asks == {}
    ensures BasisEffect(item, f', on).asks == {}
    ensures BasisEffect(item, f', on).trusted == BasisEffect(item, f, on).trusted
  {
    VerdictStays(item.reachability, f, f');
    VerdictStays(item.qualification, f, f');
    AssertedIsNotDistrusted(item.claim, on);
  }

  lemma AssertedIsNotDistrusted(c: Claim, on: Date)
    ensures AssessDatedClaim(c, on).disposition == AssertCurrent ==> !Distrusted(AssessDatedClaim(c, on).freshness)
  {}

  lemma DependencyStays(item: Dependency, s: Snapshot, f: PreparedFacts, f': PreparedFacts, on: Date)
    requires Grows(f, f')
    requires SteadyIfAny(item.applicability, f.submittedKeys, f'.submittedKeys)
    requires SteadyIfAny(item.satisfiedWhen, f.submittedKeys, f'.submittedKeys)
    requires DependencyEffect(item, s, f, on).asks == {}
    ensures DependencyEffect(item, s, f', on).asks == {}
  {
    VerdictStays(item.applicability, f, f');
    VerdictStays(item.satisfiedWhen, f, f');
  }

  lemma ChecklistItemStays(item: ChecklistItem, c: Case, c': Case)
    requires Grows(c.facts, c'.facts) && c'.(facts := c.facts) == c
    requires SteadyIfAny(item.applicability, c.facts.submittedKeys, c'.facts.submittedKeys)
    requires ChecklistEffect(item, c).asks == {}
    ensures ChecklistEffect(item, c').asks == {}
  {
    VerdictStays(item.applicability, c.facts, c'.facts);
  }

  lemma StepStays(item: Step, c: Case, c': Case)
    requires Grows(c.facts, c'.facts) && c'.(facts := c.facts) == c
    requires SteadyIfAny(item.applicability, c.facts.submittedKeys, c'.facts.submittedKeys)
    requires StepEffect(item, c).asks == {}
    ensures StepEffect(item, c').asks == {}
  {
    VerdictStays(item.applicability, c.facts, c'.facts);
  }

  lemma FeeStays(item: Fee, c: Case, c': Case)
    requires Grows(c.facts, c'.facts) && c'.(facts := c.facts) == c
    requires SteadyIfAny(item.applicability, c.facts.submittedKeys, c'.facts.submittedKeys)
    requires FeeEffect(item, c).asks == {}
    ensures FeeEffect(item, c').asks == {}
  {
    VerdictStays(item.applicability, c.facts, c'.facts);
  }

  /** If every row that asks nothing keeps asking nothing, so does the whole selection. */
  lemma {:induction false} SilentStays<R, P>(rows: seq<R>, f: R -> Effect<P>, g: R -> Effect<P>)
    requires forall r | r in rows && f(r).asks == {} :: g(r).asks == {}
    requires Total(rows, f).missing == {}
    ensures Total(rows, g).missing == {}
  {
    if rows != [] {
      assert rows[|rows| - 1] in rows;
      SilentStays(rows[..|rows| - 1], f, g);
    }
  }

  lemma {:induction false} TrustedStays<R, P>(rows: seq<R>, f: R -> Effect<P>, g: R -> Effect<P>)
    requires forall r | r in rows && f(r).asks == {} :: g(r).trusted == f(r).trusted
    requires Total(rows, f).missing == {}
    ensures Total(rows, g).trusted == Total(rows, f).trusted
  {
    if rows != [] {
      assert rows[|rows| - 1] in rows;
      TrustedStays(rows[..|rows| - 1], f, g);
    }
  }

  lemma BasesStay(v: Version, f: PreparedFacts, f': PreparedFacts, on: Date)
    requires Grows(f, f') && SteadyVersion(v, f.submittedKeys, f'.submittedKeys)
    requires SelectBases(v, f, on).missing == {}
    ensures SelectBases(v, f', on).missing == {}
    ensures SelectBases(v, f', on).trusted == SelectBases(v, f, on).trusted
  {
    var rows, x, y := SortBy(v.bases, BasisLe), BasisEffects(f, on), BasisEffects(f', on);
    SortKeeps(v.bases, BasisLe);
    forall r | r in rows && x(r).asks == {} ensures y(r).asks == {} && y(r).trusted == x(r).trusted {
      BasisStays(r, f, f', on);
    }
    SilentStays(rows, x, y);
    TrustedStays(rows, x, y);
  }

  lemma DependenciesStay(s: Snapshot, v: Version, f: PreparedFacts, f': PreparedFacts, on: Date)
    requires Grows(f, f') && SteadyVersion(v, f.submittedKeys, f'.submittedKeys)
    requires SelectDependencies(s, v, f, on).missing == {}
    ensures SelectDependencies(s, v, f', on).missing == {}
  {
    var rows, x, y := SortBy(v.dependencies, DependencyLe), DependencyEffects(s, f, on), DependencyEffects(s, f', on);
    SortKeeps(v.dependencies, DependencyLe);
    forall r | r in rows && x(r).asks == {} ensures y(r).asks == {} {
      DependencyStays(r, s, f, f', on);
    }
    SilentStays(rows, x, y);
  }

  lemma ChecklistStays(v: Version, c: Case, c': Case)
    requires Grows(c.facts, c'.facts) && c'.(facts := c.facts) == c
    requires SteadyVersion(v, c.facts.submittedKeys, c'.facts.submittedKeys)
    requires SelectChecklist(v, c).missing == {}
    ensures SelectChecklist(v, c').missing == {}
  {
    var rows, x, y := SortBy(v.checklist, ItemLe), ChecklistEffects(c), ChecklistEffects(c');
    SortKeeps(v.checklist, ItemLe);
    forall r | r in rows && x(r).asks == {} ensures y(r).asks == {} {
      ChecklistItemStays(r, c, c');
    }
    SilentStays(rows, x, y);
  }

  lemma StepsStay(v: Version, c: Case, c': Case)
    requires Grows(c.facts, c'.facts) && c'.(facts := c.facts) == c
    requires SteadyVersion(v, c.facts.submittedKeys, c'.facts.submittedKeys)
    requires SelectStepRows(v, c).missing == {}
    ensures SelectStepRows(v, c').missing == {}
  {
    var rows, x, y := SortBy(v.steps, StepLe), StepEffects(c), StepEffects(c');
    SortKeeps(v.steps, StepLe);
    forall r | r in rows && x(r).asks == {} ensures y(r).asks == {} {
      StepStays(r, c, c');
    }
    SilentStays(rows, x, y);
  }

  lemma FeesStay(v: Version, c: Case, c': Case)
    requires Grows(c.facts, c'.facts) && c'.(facts := c.facts) == c
    requires SteadyVersion(v, c.facts.submittedKeys, c'.facts.submittedKeys)
    requires SelectFeeRows(v, c).missing == {}
    ensures SelectFeeRows(v, c').missing == {}
  {
    var rows, x, y := SortBy(v.fees, FeeLe), FeeEffects(c), FeeEffects(c');
    SortKeeps(v.fees, FeeLe);
    forall r | r in rows && x(r).asks == {} ensures y(r).asks == {} {
      FeeStays(r, c, c');
    }
    SilentStays(rows, x, y);
  }

  // ----- the choice of procedure

  lemma {:induction false} CandidatesStay(rows: seq<Candidate>, f: PreparedFacts, f': PreparedFacts)
    requires Grows(f, f')
    requires forall c | c in rows :: Steady(c.selection, f.submittedKeys, f'.submittedKeys)
    ensures |WithValue(rows, f', TRUE)| >= |WithValue(rows, f, TRUE)|
    ensures WithValue(rows, f, UNKNOWN) == [] ==>
              WithValue(rows, f', UNKNOWN) == [] && WithValue(rows, f', TRUE) == WithValue(rows, f, TRUE)
  {
    if rows != [] {
      var last := rows[|rows| - 1];
      assert last in rows;
      CandidatesStay(rows[..|rows| - 1], f, f');
      if Eval(last.selection, f.values, f.submittedKeys) != UNKNOWN {
        DecidedStays(last.selection, f.values, f.submittedKeys, f'.values, f'.submittedKeys);
      }
    }
  }

  /** Once the choice is made, or made impossible, no further answer changes it. */
  lemma ChoiceStays(definitions: Registry, service: Service, f: PreparedFacts, f': PreparedFacts)
    requires Grows(f, f')
    requires forall c | c in service.candidates :: Steady(c.selection, f.submittedKeys, f'.submittedKeys)
    requires Choose(definitions, service, f).Selected? || Choose(definitions, service, f).NoChoice?
    ensures Choose(definitions, service, f') == Choose(definitions, service, f)
  {
    SortKeeps(service.candidates, CandidateLe);
    CandidatesStay(SortBy(service.candidates, CandidateLe), f, f');
  }

  // ----- phases

  /** What the resolver returns is stored, published, and of the procedure asked for. */
  lemma ResolvedIsStored(s: Snapshot, procedure: string, on: Date)
    requires Resolve(s, procedure, on, None).Resolved?
    ensures var v := Resolve(s, procedure, on, None).version;
            v in s.versions && v.procedure == procedure && v.state == Published
  {
    var versions := SortBy(VersionsOf(s.versions, procedure), IdLe);
    SortKeeps(VersionsOf(s.versions, procedure), IdLe);
    VersionsOfMembers(s.versions, procedure);
    PublishedMembers(versions);
    ApplicableMembers(PublishedOf(versions), on);
    var applicable := Applicable(PublishedOf(versions), on);
    assert applicable[0] in applicable;
  }

  lemma ListFeesMoveForward(s: Snapshot, service: Service, procedure: string, v: Version, c: Case, c': Case, on: Date,
                        bases: Selection<PublicBasis>, dependencies: Selection<PublicDependency>,
                        bases': Selection<PublicBasis>, dependencies': Selection<PublicDependency>)
    requires Grows(c.facts, c'.facts) && c'.(facts := c.facts) == c
    requires SteadyVersion(v, c.facts.submittedKeys, c'.facts.submittedKeys)
    requires ListFees(s, service, procedure, v, c', on, bases', dependencies').result.NextQuestion?
    ensures ListFees(s, service, procedure, v, c, on, bases, dependencies).phase
            <= ListFees(s, service, procedure, v, c', on, bases', dependencies').phase
  {
    var o' := ListFees(s, service, procedure, v, c', on, bases', dependencies');
    if SelectFeeRows(v, c).missing == {} {
      FeesStay(v, c, c');
    }
  }

  lemma ListStepsMoveForward(s: Snapshot, service: Service, procedure: string, v: Version, c: Case, c': Case, on: Date,
                        bases: Selection<PublicBasis>, dependencies: Selection<PublicDependency>,
                        bases': Selection<PublicBasis>, dependencies': Selection<PublicDependency>)
    requires Grows(c.facts, c'.facts) && c'.(facts := c.facts) == c
    requires SteadyVersion(v, c.facts.submittedKeys, c'.facts.submittedKeys)
    requires ListSteps(s, service, procedure, v, c', on, bases', dependencies').result.NextQuestion?
    ensures ListSteps(s, service, procedure, v, c, on, bases, dependencies).phase
            <= ListSteps(s, service, procedure, v, c', on, bases', dependencies').phase
  {
    var o' := ListSteps(s, service, procedure, v, c', on, bases', dependencies');
    if SelectStepRows(v, c).missing == {} {
      StepsStay(v, c, c');
      if o'.phase > LISTING_STEPS {
        ListFeesMoveForward(s, service, procedure, v, c, c', on, bases, dependencies, bases', dependencies');
      }
    }
  }

  lemma ListItemsMoveForward(s: Snapshot, service: Service, procedure: string, v: Version, c: Case, c': Case, on: Date,
                        bases: Selection<PublicBasis>, dependencies: Selection<PublicDependency>,
                        bases': Selection<PublicBasis>, dependencies': Selection<PublicDependency>)
    requires Grows(c.facts, c'.facts) && c'.(facts := c.facts) == c
    requires SteadyVersion(v, c.facts.submittedKeys, c'.facts.submittedKeys)
    requires ListItems(s, service, procedure, v, c', on, bases', dependencies').result.NextQuestion?
    ensures ListItems(s, service, procedure, v, c, on, bases, dependencies).phase
            <= ListItems(s, service, procedure, v, c', on, bases', dependencies').phase
  {
    var o' := ListItems(s, service, procedure, v, c', on, bases', dependencies');
    if SelectChecklist(v, c).missing == {} {
      ChecklistStays(v, c, c');
      if o'.phase > LISTING_CHECKLIST {
        ListStepsMoveForward(s, service, procedure, v, c, c', on, bases, dependencies, bases', dependencies');
      }
    }
  }

  lemma WeighMovesForward(s: Snapshot, service: Service, procedure: string, v: Version, f: PreparedFacts,
                          f': PreparedFacts, on: Date)
    requires Grows(f, f') && SteadyVersion(v, f.submittedKeys, f'.submittedKeys)
    requires Weigh(s, service, procedure, v, f', on).result.NextQuestion?
    ensures Weigh(s, service, procedure, v, f, on).phase <= Weigh(s, service, procedure, v, f', on).phase
  {
    var bases, bases' := SelectBases(v, f, on), SelectBases(v, f', on);
    var dependencies, dependencies' := SelectDependencies(s, v, f, on), SelectDependencies(s, v, f', on);
    if bases.missing == {} {
      BasesStay(v, f, f', on);
      if dependencies.missing == {} {
        DependenciesStay(s, v, f, f', on);
        if dependencies'.missing == {} && !dependencies'.configurationInvalid {
          ListItemsMoveForward(s, service, procedure, v, CaseOf(v, f, on, bases), CaseOf(v, f', on, bases'), on,
                               bases, dependencies, bases', dependencies');
        }
      }
    }
  }

  lemma SelectMovesForward(s: Snapshot, service: Service, f: PreparedFacts, f': PreparedFacts, on: Date)
    requires Grows(f, f') && SteadySnapshot(s, f.submittedKeys, f'.submittedKeys) && service in s.services
    requires Select(s, service, f', on).result.NextQuestion?
    ensures Select(s, service, f, on).phase <= Select(s, service, f', on).phase
  {
    if Choose(s.definitions, service, f).Selected? || Choose(s.definitions, service, f).NoChoice? {
      ChoiceStays(s.definitions, service, f, f');
      var procedure := Choose(s.definitions, service, f).procedure;
      var v := Resolve(s, procedure, on, None).version;
      ResolvedIsStored(s, procedure, on);
      var rule := v.applicability;
      if Eval(rule, f.values, f.submittedKeys) != UNKNOWN {
        DecidedStays(rule, f.values, f.submittedKeys, f'.values, f'.submittedKeys);
        WeighMovesForward(s, service, procedure, v, f, f', on);
      }
    }
  }

  // ----- the theorems

  /** The later input only adds answers: same service, same day, earlier answers unchanged. */
  ghost predicate AddsAnswers(earlier: Input, later: Input) {
    && later.service == earlier.service && later.on == earlier.on
    && forall k | k in earlier.facts :: k in later.facts && later.facts[k] == earlier.facts[k]
  }

  lemma {:induction false} FoundIsMember(services: seq<Service>, id: string)
    requires FindService(services, id).Some?
    ensures FindService(services, id).value in services
  {
    if services[0].id != id { FoundIsMember(services[1..], id); }
  }

  lemma PreparedGrows(s: Snapshot, service: Service, earlier: Input, later: Input)
    requires AddsAnswers(earlier, later)
    requires Prepare(s.definitions, service.contradictions, earlier.facts, earlier.on).Prepared?
    requires Prepare(s.definitions, service.contradictions, later.facts, later.on).Prepared?
    ensures var f, f' := Prepare(s.definitions, service.contradictions, earlier.facts, earlier.on).facts,
                         Prepare(s.definitions, service.contradictions, later.facts, later.on).facts;
            Grows(f, f') && f.submittedKeys == earlier.facts.Keys && f'.submittedKeys == later.facts.Keys
  {
    var a := PreparationMeaning(s.definitions, service.contradictions, earlier.facts, earlier.on);
    var b := PreparationMeaning(s.definitions, service.contradictions, later.facts, later.on);
    AcceptanceCopiesAll(earlier.facts, s.definitions);
    AcceptanceCopiesAll(later.facts, s.definitions);
    forall k | k in a ensures k in b && b[k] == a[k] {
      assert earlier.facts[k] == Typed(a[k]) && later.facts[k] == Typed(b[k]);
    }
    PreparationExtends(Prepare(s.definitions, service.contradictions, earlier.facts, earlier.on).facts, a,
                       Prepare(s.definitions, service.contradictions, later.facts, later.on).facts, b,
                       DERIVED_KEYS, s.definitions, earlier.on);
  }

  /** Beyond preparation, the operation is the selection over the prepared case. */
  lemma BeyondPreparation(s: Snapshot, input: Input)
    requires Operate(s, input).phase >= CHOOSING
    ensures FindService(s.services, input.service).Some?
    ensures var service := FindService(s.services, input.service).value;
            && Prepare(s.definitions, service.contradictions, input.facts, input.on).Prepared?
            && Operate(s, input)
               == Select(s, service, Prepare(s.definitions, service.contradictions, input.facts, input.on).facts,
                         input.on)
  {
    AcceptedAgain(input.facts, s.definitions);
  }

  lemma QuestionsComeAfterPreparation(s: Snapshot, input: Input)
    requires PlanStateless(s, input).NextQuestion?
    ensures Operate(s, input).phase >= CHOOSING
  {}

  /** No question is ever followed by one from an earlier phase. */
  lemma QuestionsNeverGoBack(s: Snapshot, earlier: Input, later: Input)
    requires AddsAnswers(earlier, later) && SteadySnapshot(s, earlier.facts.Keys, later.facts.Keys)
    requires PlanStateless(s, later).NextQuestion?
    ensures Operate(s, earlier).phase <= Operate(s, later).phase
  {
    QuestionsComeAfterPreparation(s, later);
    BeyondPreparation(s, later);
    if Operate(s, earlier).phase >= CHOOSING {
      BeyondPreparation(s, earlier);
      var service := FindService(s.services, earlier.service).value;
      FoundIsMember(s.services, earlier.service);
      PreparedGrows(s, service, earlier, later);
      SelectMovesForward(s, service, Prepare(s.definitions, service.contradictions, earlier.facts, earlier.on).facts,
                         Prepare(s.definitions, service.contradictions, later.facts, later.on).facts, earlier.on);
    }
  }

  /** The Procedure chosen for an input, if the operation got that far. */
  function ChosenProcedure(s: Snapshot, input: Input): Option<string> {
    match FindService(s.services, input.service)
    case None => None
    case Some(service) =>
      match Prepare(s.definitions, service.contradictions, input.facts, input.on)
      case Prepared(facts) =>
        var choice := Choose(s.definitions, service, facts);
        if choice.Selected? then Some(choice.procedure) else None
      case _ => None
  }

  /** A chosen Procedure never changes: later answers keep it, or make the case itself invalid. */
  lemma ChosenProcedureIsStable(s: Snapshot, earlier: Input, later: Input)
    requires AddsAnswers(earlier, later) && SteadySnapshot(s, earlier.facts.Keys, later.facts.Keys)
    requires ChosenProcedure(s, earlier).Some?
    ensures ChosenProcedure(s, later) == ChosenProcedure(s, earlier)
            || !Prepare(s.definitions, FindService(s.services, later.service).value.contradictions, later.facts,
                        later.on).Prepared?
    ensures PlanStateless(s, earlier).Plan? && PlanStateless(s, later).Plan? ==>
              PlanStateless(s, later).plan.procedure == PlanStateless(s, earlier).plan.procedure
  {
    var service := FindService(s.services, earlier.service).value;
    FoundIsMember(s.services, earlier.service);
    if Prepare(s.definitions, service.contradictions, later.facts, later.on).Prepared? {
      PreparedGrows(s, service, earlier, later);
      ChoiceStays(s.definitions, service,
                  Prepare(s.definitions, service.contradictions, earlier.facts, earlier.on).facts,
                  Prepare(s.definitions, service.contradictions, later.facts, later.on).facts);
    }
    if PlanStateless(s, earlier).Plan? && PlanStateless(s, later).Plan? {
      PlannedProcedureIsChosen(s, earlier);
      PlannedProcedureIsChosen(s, later);
    }
  }

  lemma PlannedProcedureIsChosen(s: Snapshot, input: Input)
    requires PlanStateless(s, input).Plan?
    ensures ChosenProcedure(s, input) == Some(PlanStateless(s, input).plan.procedure)
    ensures Prepare(s.definitions, FindService(s.services, input.service).value.contradictions, input.facts,
                    input.on).Prepared?
  {
    AcceptedAgain(input.facts, s.definitions);
  }
}
