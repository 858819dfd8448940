/** Procedure selection and the stateless planning operation (planning/selection.py, planning/operation.py). */
module Planner {
  import opened Wrappers
  import opened Ordering
  import opened Calendar
  import opened Facts
  import opened Evaluator
  import opened CasePreparation
  import opened Catalog
  import opened Tally
  import opened Versions
  import opened Guidance
  import opened Prerequisites
  import opened Routing
  import opened Questions

  // ----- results

  datatype PublicDiagnostic = PublicDiagnostic(family: Family, path: Path)

  /** The part of a diagnostic code before the colon. */
  datatype Family = UnsupportedKey | DerivedSubmitted | InvalidValue | Contradictory | RuleFamily | KnowledgeInvalid

  datatype Answer = Answer(key: string, kind: FactKind, options: seq<string>, minimum: Option<int>)

  datatype PublicQuestion = PublicQuestion(id: string, text: Text, answers: seq<Answer>)

  datatype PlanResult =
    PlanResult(service: string, procedure: string, version: string, title: Text,
               checklist: seq<PublicChecklistItem>, steps: seq<PublicStep>, warnings: seq<PublicWarning>,
                   fees: seq<PublicFee>,
               bases: seq<PublicBasis>, inconclusiveBases: seq<string>, dependencies: seq<PublicDependency>,
                   routing: PublicRouting,
               checklistInconclusive: bool, stepsInconclusive: bool)

  datatype Result =
    | NextQuestion(service: string, question: PublicQuestion)
    | Plan(plan: PlanResult)
    | InconclusiveResult(reason: Reason)
    | InvalidResult(diagnostics: seq<PublicDiagnostic>)
    | Raised

  /** Where the operation stopped. */
  type Phase = nat

  const ADMISSION: Phase := 0
  const PREPARING: Phase := 1
  const CHOOSING: Phase := 2
  const RESOLVING: Phase := 3
  const APPLYING: Phase := 4
  const WEIGHING_BASES: Phase := 5
  const WEIGHING_DEPENDENCIES: Phase := 6
  const LISTING_CHECKLIST: Phase := 7
  const LISTING_STEPS: Phase := 8
  const LISTING_FEES: Phase := 9
  const DONE: Phase := 10

  datatype Outcome = Outcome(phase: Phase, result: Result)

  const CONFIGURATION_INVALID := InvalidResult([PublicDiagnostic(KnowledgeInvalid, [])])

  function FamilyOf(code: Code): Family {
    match code
    case UnsupportedFactKey(_) => UnsupportedKey
    case DerivedFactCannotBeSubmitted(_) => DerivedSubmitted
    case InvalidFactValue(_) => InvalidValue
    case ContradictoryFacts => Contradictory
    case _ => RuleFamily
  }

  function Publicly(diagnostics: seq<Diagnostic>): Result {
    InvalidResult(seq(|diagnostics|, i requires 0 <= i < |diagnostics| =>
                                       PublicDiagnostic(FamilyOf(diagnostics[i].code), diagnostics[i].path)))
  }

  // ----- question_result

  predicate Answerable(definitions: Registry, keys: seq<string>) {
    forall i | 0 <= i < |keys| :: keys[i] in definitions && !definitions[keys[i]].derived
  }

  function AnswersOf(definitions: Registry, keys: seq<string>): seq<Answer>
    requires Answerable(definitions, keys)
  {
    seq(|keys|, i requires 0 <= i < |keys| =>
                  Answer(keys[i], definitions[keys[i]].kind, definitions[keys[i]].enumValues,
                         definitions[keys[i]].minimum))
  }

  function QuestionResult(definitions: Registry, service: string, q: Question): (r: Result)
    ensures r.NextQuestion? || r == CONFIGURATION_INVALID
  {
    if Answerable(definitions, q.resolved)
      then NextQuestion(service, PublicQuestion(q.id, q.text, AnswersOf(definitions, q.resolved)))
    else CONFIGURATION_INVALID
  }

  // ----- select_procedure

  datatype Choice =
    | Selected(procedure: string)
    | AskFirst(question: Question)
    | NoChoice(reason: Reason)
    | ChoiceDefect
    | ChoiceRaised

  predicate CandidateLe(a: Candidate, b: Candidate) {
    TextLe(a.procedure, b.procedure)
  }

  function WithValue(candidates: seq<Candidate>, facts: PreparedFacts, v: Truth): seq<Candidate> {
    if candidates == [] then []
    else
      var init, last := WithValue(candidates[..|candidates| - 1], facts, v), candidates[|candidates| - 1];
      if Eval(last.selection, facts.values, facts.submittedKeys) == v then init + [last] else init
  }

  function MissingForAll(candidates: seq<Candidate>, facts: PreparedFacts): set<string> {
    if candidates == [] then {}
    else MissingForAll(candidates[..|candidates| - 1], facts)
         + MissingFacts(candidates[|candidates| - 1].selection, facts.values, facts.submittedKeys)
  }

  function Choose(definitions: Registry, service: Service, facts: PreparedFacts): Choice {
    var rows := SortBy(service.candidates, CandidateLe);
    var matching, unknown := WithValue(rows, facts, TRUE), WithValue(rows, facts, UNKNOWN);
    if |matching| > 1 then NoChoice(MultipleMatchingProcedures)
    else if |matching| == 1 && unknown == [] then Selected(matching[0].procedure)
    else if matching == [] && unknown == [] then NoChoice(NoMatchingResearchedProcedure)
    else
      match PickQuestion(definitions, service.questions, facts, MissingForAll(unknown, facts), SelectionProfile)
      case Picked(q) => AskFirst(q)
      case Diagnosed(_) => ChoiceDefect
      case EmptyMinimum => ChoiceRaised
  }

  // ----- plan_stateless

  datatype Input = Input(service: string, facts: map<string, RawValue>, on: Date)

  function FindService(services: seq<Service>, id: string): Option<Service> {
    if services == [] then None
    else if services[0].id == id then Some(services[0])
    else FindService(services[1..], id)
  }

  /** Ask for the missing Facts of one phase. */
  function AskFor(definitions: Registry, service: Service, facts: PreparedFacts, missing: set<string>): (r: Result)
    ensures r.NextQuestion? || r == CONFIGURATION_INVALID
  {
    match PickQuestion(definitions, service.questions, facts, missing, ConsequentialProfile)
    case Picked(q) => QuestionResult(definitions, service.id, q)
    case _ => CONFIGURATION_INVALID
  }

  function AsRaw(facts: map<string, FactValue>): map<string, RawValue> {
    map k | k in facts :: Typed(facts[k])
  }

  function PlanStateless(s: Snapshot, input: Input): Result {
    Operate(s, input).result
  }

  function Operate(s: Snapshot, input: Input): Outcome {
    match FindService(s.services, input.service)
    case None => Outcome(ADMISSION, InconclusiveResult(UnknownService))
    case Some(service) =>
      if !service.active then Outcome(ADMISSION, InconclusiveResult(InactiveService))
      else
        match SubmittedFacts(input.facts, s.definitions)
        case RejectedFacts(diagnostics) => Outcome(PREPARING, Publicly(diagnostics))
        case ValidFacts(facts) =>
          match Prepare(s.definitions, service.contradictions, AsRaw(facts), input.on)
          case ConfigurationDefect => Outcome(PREPARING, CONFIGURATION_INVALID)
          case InvalidCase(diagnostics) => Outcome(PREPARING, Publicly(diagnostics))
          case AssertionFailed => Outcome(PREPARING, Raised)
          case Prepared(prepared) => Select(s, service, prepared, input.on)
  }

  function Select(s: Snapshot, service: Service, facts: PreparedFacts, on: Date): (o: Outcome)
    ensures o.phase >= CHOOSING
    ensures o.result.Plan? ==> Choose(s.definitions, service, facts) == Selected(o.result.plan.procedure)
  {
    match Choose(s.definitions, service, facts)
    case AskFirst(q) => Outcome(CHOOSING, QuestionResult(s.definitions, service.id, q))
    case ChoiceDefect => Outcome(CHOOSING, CONFIGURATION_INVALID)
    case NoChoice(reason) => Outcome(CHOOSING, InconclusiveResult(reason))
    case ChoiceRaised => Outcome(CHOOSING, Raised)
    case Selected(procedure) =>
      match Resolve(s, procedure, on, None)
      case Defect(_, _, _) => Outcome(RESOLVING, CONFIGURATION_INVALID)
      case Unavailable(reason, _) => Outcome(RESOLVING, InconclusiveResult(reason))
      case Resolved(v, _, _) => Apply(s, service, procedure, v, facts, on)
  }

  function Apply(s: Snapshot, service: Service, procedure: string, v: Version, facts: PreparedFacts,
                 on: Date): (o: Outcome)
    ensures o.phase >= APPLYING
    ensures o.result.Plan? ==> o.result.plan.procedure == procedure
  {
    var applies := TraceOf(v.applicability, facts.values, facts.submittedKeys);
    if applies.result == UNKNOWN then
      Outcome(APPLYING, if applies.missing == {} then InconclusiveResult(ProcedureVersionApplicabilityUnknown)
                        else AskFor(s.definitions, service, facts, applies.missing))
    else if applies.result == FALSE then Outcome(APPLYING, InconclusiveResult(ProcedureVersionNotApplicable))
    else Weigh(s, service, procedure, v, facts, on)
  }

  function Weigh(s: Snapshot, service: Service, procedure: string, v: Version, facts: PreparedFacts,
                 on: Date): (o: Outcome)
    ensures o.phase >= WEIGHING_BASES
    ensures o.result.Plan? ==> o.result.plan.procedure == procedure
  {
    var bases := SelectBases(v, facts, on);
    var dependencies := SelectDependencies(s, v, facts, on);
    if bases.configurationInvalid then Outcome(WEIGHING_BASES, CONFIGURATION_INVALID)
    else if bases.missing != {} then Outcome(WEIGHING_BASES, AskFor(s.definitions, service, facts, bases.missing))
    else if NoApplicableBasis(v, bases) then Outcome(WEIGHING_BASES, InconclusiveResult(NoApplicableEligibilityBasis))
    else if dependencies.configurationInvalid then Outcome(WEIGHING_DEPENDENCIES, CONFIGURATION_INVALID)
    else if dependencies.missing != {} then
      Outcome(WEIGHING_DEPENDENCIES, AskFor(s.definitions, service, facts, dependencies.missing))
    else ListItems(s, service, procedure, v, CaseOf(v, facts, on, bases), on, bases, dependencies)
  }

  /** Weighing bases and dependencies stops with a question or without a plan, or goes on to the lists. */
  lemma WeighStopsOrLists(s: Snapshot, service: Service, procedure: string, v: Version, facts: PreparedFacts, on: Date)
    ensures var o := Weigh(s, service, procedure, v, facts, on); var bases := SelectBases(v, facts, on);
            || o == ListItems(s, service, procedure, v, CaseOf(v, facts, on, bases), on, bases,
                              SelectDependencies(s, v, facts, on))
            || o.result.NextQuestion? || o.result == CONFIGURATION_INVALID
            || o.result == InconclusiveResult(NoApplicableEligibilityBasis)
  {}

  function CaseOf(v: Version, facts: PreparedFacts, on: Date, bases: Selection<PublicBasis>): Case {
    Case(facts, on, BasisIds(v), Some(bases.trusted))
  }

  function ListItems(s: Snapshot, service: Service, procedure: string, v: Version, c: Case, on: Date,
                     bases: Selection<PublicBasis>, dependencies: Selection<PublicDependency>): (o: Outcome)
    ensures o.phase >= LISTING_CHECKLIST
    ensures o.result.Plan? ==> o.result.plan.procedure == procedure
  {
    var checklist := SelectChecklist(v, c);
    if checklist.basisRequired then Outcome(LISTING_CHECKLIST, CONFIGURATION_INVALID)
    else if checklist.missing != {}
           then Outcome(LISTING_CHECKLIST, AskFor(s.definitions, service, c.facts, checklist.missing))
    else if checklist.undecided then Outcome(LISTING_CHECKLIST, InconclusiveResult(ChecklistApplicabilityUnknown))
    else ListSteps(s, service, procedure, v, c, on, bases, dependencies)
  }

  function ListSteps(s: Snapshot, service: Service, procedure: string, v: Version, c: Case, on: Date,
                     bases: Selection<PublicBasis>, dependencies: Selection<PublicDependency>): (o: Outcome)
    ensures o.phase >= LISTING_STEPS
    ensures o.result.Plan? ==> o.result.plan.procedure == procedure
  {
    var steps := SelectStepRows(v, c);
    if steps.basisRequired then Outcome(LISTING_STEPS, CONFIGURATION_INVALID)
    else if steps.missing != {} then Outcome(LISTING_STEPS, AskFor(s.definitions, service, c.facts, steps.missing))
    else if steps.undecided then Outcome(LISTING_STEPS, InconclusiveResult(StepApplicabilityUnknown))
    else ListFees(s, service, procedure, v, c, on, bases, dependencies)
  }

  function ListFees(s: Snapshot, service: Service, procedure: string, v: Version, c: Case, on: Date,
                    bases: Selection<PublicBasis>, dependencies: Selection<PublicDependency>): (o: Outcome)
    ensures o.phase >= LISTING_FEES
    ensures o.result.Plan? ==> o.result.plan.procedure == procedure
  {
    var fees := SelectFeeRows(v, c);
    if fees.basisRequired then Outcome(LISTING_FEES, CONFIGURATION_INVALID)
    else if fees.missing != {} then Outcome(LISTING_FEES, AskFor(s.definitions, service, c.facts, fees.missing))
    else if fees.undecided then Outcome(LISTING_FEES, InconclusiveResult(FeeApplicabilityUnknown))
    else Outcome(DONE, Plan(Assemble(s, service, procedure, v, c, on, bases, dependencies)))
  }

  /** Listing items, and then steps, stops with a question or without a plan, or goes on. */
  lemma ItemsStopOrGoOn(s: Snapshot, service: Service, procedure: string, v: Version, c: Case, on: Date,
                         bases: Selection<PublicBasis>, dependencies: Selection<PublicDependency>)
    ensures var o := ListItems(s, service, procedure, v, c, on, bases, dependencies);
            || o == ListSteps(s, service, procedure, v, c, on, bases, dependencies)
            || o.result.NextQuestion? || o.result == CONFIGURATION_INVALID
               || o.result == InconclusiveResult(ChecklistApplicabilityUnknown)
  {}

  lemma StepsStopOrGoOn(s: Snapshot, service: Service, procedure: string, v: Version, c: Case, on: Date,
                         bases: Selection<PublicBasis>, dependencies: Selection<PublicDependency>)
    ensures var o := ListSteps(s, service, procedure, v, c, on, bases, dependencies);
            || o == ListFees(s, service, procedure, v, c, on, bases, dependencies)
            || o.result.NextQuestion? || o.result == CONFIGURATION_INVALID
               || o.result == InconclusiveResult(StepApplicabilityUnknown)
  {}

  lemma FeesStopOrAssemble(s: Snapshot, service: Service, procedure: string, v: Version, c: Case, on: Date,
                         bases: Selection<PublicBasis>, dependencies: Selection<PublicDependency>)
    ensures var o := ListFees(s, service, procedure, v, c, on, bases, dependencies);
            || o.result == Plan(Assemble(s, service, procedure, v, c, on, bases, dependencies))
            || o.result.NextQuestion? || o.result == CONFIGURATION_INVALID
               || o.result == InconclusiveResult(FeeApplicabilityUnknown)
  {}

  function Assemble(s: Snapshot, service: Service, procedure: string, v: Version, c: Case, on: Date,
                    bases: Selection<PublicBasis>, dependencies: Selection<PublicDependency>): (plan: PlanResult)
    ensures plan.procedure == procedure
  {
    var checklist, steps, fees := SelectChecklist(v, c), SelectStepRows(v, c), SelectFeeRows(v, c);
    PlanResult(
      service.id, procedure, v.id, v.text, checklist.items, steps.items, SelectWarnings(v, c), fees.items,
      WithGuidance(bases.items, checklist.items, steps.items), SortedTexts(bases.inconclusive), dependencies.items,
      SelectServicePoints(s.points, s.pointVersions, v, c.facts, on), checklist.trustInconclusive,
          steps.trustInconclusive)
  }

  // ----- each basis lists the guidance that hangs on it

  function ItemIdsOf(items: seq<PublicChecklistItem>, basis: string): seq<string> {
    if items == [] then []
    else
      var init, last := ItemIdsOf(items[..|items| - 1], basis), items[|items| - 1];
      if last.basisId == Some(basis) then init + [last.id] else init
  }

  function StepIdsOf(steps: seq<PublicStep>, basis: string): seq<string> {
    if steps == [] then []
    else
      var init, last := StepIdsOf(steps[..|steps| - 1], basis), steps[|steps| - 1];
      if last.basisId == Some(basis) then init + [last.id] else init
  }

  function WithGuidance(bases: seq<PublicBasis>, items: seq<PublicChecklistItem>,
                        steps: seq<PublicStep>): seq<PublicBasis> {
    seq(|bases|, i requires 0 <= i < |bases| =>
                   bases[i].(checklistIds := ItemIdsOf(items, bases[i].id), stepIds := StepIdsOf(steps, bases[i].id)))
  }
}
