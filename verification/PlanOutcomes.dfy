/**
  Every way the stateless operation can end (planning/operation.py): when there is a plan, and the exact condition of
  each reason why there is none.
 */
module PlanOutcomes {
  import opened Wrappers
  import opened Ordering
  import opened Calendar
  import opened Facts
  import opened Rules
  import opened Evaluator
  import opened CasePreparation
  import opened Catalog
  import opened Tally
  import opened Versions
  import opened VersionLaws
  import opened Guidance
  import opened Prerequisites
  import opened Routing
  import opened Questions
  import opened Planner
  import opened ChoiceLaws
  import opened Questionnaire

  // ----- how far a case gets

  /** The first service listed under the id. */
  ghost predicate IsService(s: Snapshot, id: string, service: Service) {
    exists i | 0 <= i < |s.services| ::
      s.services[i] == service && service.id == id && forall j | 0 <= j < i :: s.services[j].id != id
  }

  /** An active service, and a case it accepts. */
  ghost predicate CaseAccepted(s: Snapshot, input: Input, service: Service, facts: PreparedFacts) {
    && IsService(s, input.service, service) && service.active
    && Prepare(s.definitions, service.contradictions, input.facts, input.on) == Prepared(facts)
  }

  /** What an accepted case is carried through with. */
  datatype Walk = Walk(service: Service, facts: PreparedFacts, candidate: Candidate, version: Version)

  /** One Procedure is chosen. */
  ghost predicate Chosen(s: Snapshot, input: Input, w: Walk) {
    CaseAccepted(s, input, w.service, w.facts) && OnlyMatch(w.service, w.facts, w.candidate)
  }

  /** Its version in force is found. */
  ghost predicate Found(s: Snapshot, input: Input, w: Walk) {
    Chosen(s, input, w) && InForceOn(s, w.candidate.procedure, input.on, w.version)
  }

  predicate VersionVotes(w: Walk, v: Truth) {
    Eval(w.version.applicability, w.facts.values, w.facts.submittedKeys) == v
  }

  /** The version applies. */
  ghost predicate Applying(s: Snapshot, input: Input, w: Walk) {
    Found(s, input, w) && VersionVotes(w, TRUE)
  }

  function BasesOf(w: Walk, on: Date): Selection<PublicBasis> {
    SelectBases(w.version, w.facts, on)
  }

  function DependenciesOf(s: Snapshot, w: Walk, on: Date): Selection<PublicDependency> {
    SelectDependencies(s, w.version, w.facts, on)
  }

  /** What the rows are judged against: the version's bases, and those trusted. */
  function Judged(w: Walk, on: Date): Case {
    Case(w.facts, on, set b | b in w.version.bases :: b.claim.id, Some(BasesOf(w, on).trusted))
  }

  /** Bases were authored, and none is listed, inconclusive or in question. */
  predicate NoBasisLeft(w: Walk, on: Date) {
    var bases := BasesOf(w, on);
    w.version.bases != [] && bases.items == [] && bases.inconclusive == {} && bases.missing == {}
  }

  /** No basis is broken, asks, or is needed in vain. */
  ghost predicate BasesSettled(s: Snapshot, input: Input, w: Walk) {
    var bases := BasesOf(w, input.on);
    Applying(s, input, w) && !bases.configurationInvalid && bases.missing == {} && !NoBasisLeft(w, input.on)
  }

  ghost predicate DependenciesSettled(s: Snapshot, input: Input, w: Walk) {
    var dependencies := DependenciesOf(s, w, input.on);
    BasesSettled(s, input, w) && !dependencies.configurationInvalid && dependencies.missing == {}
  }

  /** The rows neither lack their basis nor ask. */
  predicate Complete<P>(rows: Selection<P>) {
    !rows.basisRequired && rows.missing == {}
  }

  ghost predicate ItemsComplete(s: Snapshot, input: Input, w: Walk) {
    DependenciesSettled(s, input, w) && Complete(SelectChecklist(w.version, Judged(w, input.on)))
  }

  ghost predicate StepsComplete(s: Snapshot, input: Input, w: Walk) {
    && ItemsComplete(s, input, w) && !SelectChecklist(w.version, Judged(w, input.on)).undecided
    && Complete(SelectStepRows(w.version, Judged(w, input.on)))
  }

  ghost predicate FeesComplete(s: Snapshot, input: Input, w: Walk) {
    && StepsComplete(s, input, w) && !SelectStepRows(w.version, Judged(w, input.on)).undecided
    && Complete(SelectFeeRows(w.version, Judged(w, input.on)))
  }

  ghost predicate AllSettled(s: Snapshot, input: Input, w: Walk) {
    FeesComplete(s, input, w) && !SelectFeeRows(w.version, Judged(w, input.on)).undecided
  }

  // ----- why there is no plan

  /** The service is unknown, or inactive. */
  ghost predicate StopsAdmission(s: Snapshot, input: Input, reason: Reason) {
    || (reason == UnknownService && forall x | x in s.services :: x.id != input.service)
    || (reason == InactiveService && exists service :: IsService(s, input.service, service) && !service.active)
  }

  /** Several candidates match, or none can. */
  ghost predicate StopsChoice(s: Snapshot, input: Input, service: Service, facts: PreparedFacts, reason: Reason) {
    && CaseAccepted(s, input, service, facts)
    && (|| (reason == MultipleMatchingProcedures && SeveralMatch(service, facts))
        || (reason == NoMatchingResearchedProcedure && NoneMatches(service, facts)))
  }

  /** The versions of the chosen Procedure are sound, and none is in force: none is published, all start later, or
      else. */
  ghost predicate StopsResolving(s: Snapshot, input: Input, w: Walk, reason: Reason) {
    var p := w.candidate.procedure;
    && Chosen(s, input, w) && !Flawed(s, p) && (forall v :: !InForceOn(s, p, input.on, v))
    && reason == if forall v :: !IsPublished(s, p, v) then NoPublishedVersion
                 else if forall v | IsPublished(s, p, v) :: StartsAfter(v, input.on) then NotYetEffective
                 else NoApplicableVersion
  }

  /** The version does not apply, or a selection leaves something undecided. */
  ghost predicate StopsWalk(s: Snapshot, input: Input, w: Walk, reason: Reason) {
    match reason
    case ProcedureVersionNotApplicable => Found(s, input, w) && VersionVotes(w, FALSE)
    case ProcedureVersionApplicabilityUnknown =>
      && Found(s, input, w) && VersionVotes(w, UNKNOWN)
      && MissingFacts(w.version.applicability, w.facts.values, w.facts.submittedKeys) == {}
    case NoApplicableEligibilityBasis =>
      Applying(s, input, w) && !BasesOf(w, input.on).configurationInvalid && NoBasisLeft(w, input.on)
    case ChecklistApplicabilityUnknown =>
      ItemsComplete(s, input, w) && SelectChecklist(w.version, Judged(w, input.on)).undecided
    case StepApplicabilityUnknown =>
      StepsComplete(s, input, w) && SelectStepRows(w.version, Judged(w, input.on)).undecided
    case FeeApplicabilityUnknown =>
      FeesComplete(s, input, w) && SelectFeeRows(w.version, Judged(w, input.on)).undecided
    case _ => false
  }

  /** The reason holds of the case. */
  ghost predicate Because(s: Snapshot, input: Input, reason: Reason) {
    || StopsAdmission(s, input, reason)
    || (exists service, facts :: StopsChoice(s, input, service, facts, reason))
    || (exists w :: StopsResolving(s, input, w, reason))
    || (exists w :: StopsWalk(s, input, w, reason))
  }

  // ----- each stage leads to the next

  lemma {:induction false} FirstIsFound(services: seq<Service>, id: string, i: nat)
    requires i < |services| && services[i].id == id && forall j | 0 <= j < i :: services[j].id != id
    ensures FindService(services, id) == Some(services[i])
  {
    if i > 0 { FirstIsFound(services[1..], id, i - 1); }
  }

  lemma {:induction false} FoundIsFirst(services: seq<Service>, id: string) returns (i: nat)
    requires FindService(services, id).Some?
    ensures i < |services| && services[i] == FindService(services, id).value && services[i].id == id
    ensures forall j | 0 <= j < i :: services[j].id != id
  {
    i := 0;
    if services[0].id != id {
      var k := FoundIsFirst(services[1..], id);
      i := k + 1;
      assert forall j | 0 < j < i :: services[j] == services[1..][j - 1];
    }
  }

  lemma {:induction false} NoneIsFound(services: seq<Service>, id: string)
    ensures FindService(services, id).None? <==> forall x | x in services :: x.id != id
  {
    if services != [] {
      NoneIsFound(services[1..], id);
      assert forall x :: x in services <==> x == services[0] || x in services[1..];
    }
  }

  lemma ServiceExactlyIf(s: Snapshot, id: string, service: Service)
    ensures IsService(s, id, service) <==> FindService(s.services, id) == Some(service)
  {
    if IsService(s, id, service) {
      var i :| 0 <= i < |s.services| && s.services[i] == service && service.id == id
               && forall j | 0 <= j < i :: s.services[j].id != id;
      FirstIsFound(s.services, id, i);
    }
    if FindService(s.services, id) == Some(service) { var i := FoundIsFirst(s.services, id); }
  }

  lemma AcceptedIsSelected(s: Snapshot, input: Input, service: Service, facts: PreparedFacts)
    requires CaseAccepted(s, input, service, facts)
    ensures Operate(s, input) == Select(s, service, facts, input.on)
  {
    ServiceExactlyIf(s, input.service, service);
    AcceptedAgain(input.facts, s.definitions);
  }

  lemma OnlyMatchIsUnique(service: Service, facts: PreparedFacts, c: Candidate, d: Candidate)
    requires OnlyMatch(service, facts, c) && OnlyMatch(service, facts, d)
    ensures c == d
  {}

  lemma ChosenIsSelected(s: Snapshot, input: Input, w: Walk)
    requires Chosen(s, input, w)
    ensures Operate(s, input) == Select(s, w.service, w.facts, input.on)
    ensures Choose(s.definitions, w.service, w.facts) == Selected(w.candidate.procedure)
  {
    AcceptedIsSelected(s, input, w.service, w.facts);
    ChoiceEndsAs(s.definitions, w.service, w.facts);
    OnlyMatchIsLone(w.service, w.facts, w.candidate);
    forall c | OnlyMatch(w.service, w.facts, c) { OnlyMatchIsUnique(w.service, w.facts, w.candidate, c); }
  }

  lemma SelectApplies(s: Snapshot, service: Service, procedure: string, v: Version, facts: PreparedFacts, on: Date)
    requires Choose(s.definitions, service, facts) == Selected(procedure)
    requires Resolve(s, procedure, on, None).Resolved? && Resolve(s, procedure, on, None).version == v
    ensures Select(s, service, facts, on) == Apply(s, service, procedure, v, facts, on)
  {}

  lemma FoundIsApplied(s: Snapshot, input: Input, w: Walk)
    requires Found(s, input, w)
    ensures Operate(s, input) == Apply(s, w.service, w.candidate.procedure, w.version, w.facts, input.on)
  {
    ChosenIsSelected(s, input, w);
    ResolvedExactlyIf(s, w.candidate.procedure, input.on, w.version);
    SelectApplies(s, w.service, w.candidate.procedure, w.version, w.facts, input.on);
  }

  lemma ApplyWeighs(s: Snapshot, service: Service, procedure: string, v: Version, facts: PreparedFacts, on: Date)
    requires Eval(v.applicability, facts.values, facts.submittedKeys) == TRUE
    ensures Apply(s, service, procedure, v, facts, on) == Weigh(s, service, procedure, v, facts, on)
  {}

  lemma ApplyingIsWeighed(s: Snapshot, input: Input, w: Walk)
    requires Applying(s, input, w)
    ensures Operate(s, input) == Weigh(s, w.service, w.candidate.procedure, w.version, w.facts, input.on)
  {
    FoundIsApplied(s, input, w);
    ApplyWeighs(s, w.service, w.candidate.procedure, w.version, w.facts, input.on);
  }

  lemma JudgedIsCase(w: Walk, on: Date)
    ensures Judged(w, on) == CaseOf(w.version, w.facts, on, BasesOf(w, on))
  {
    assert (set b | b in w.version.bases :: b.claim.id) == BasisIds(w.version) by {
      forall b | b in w.version.bases ensures b.claim.id in BasisIds(w.version) {
        var i :| 0 <= i < |w.version.bases| && w.version.bases[i] == b;
      }
      forall i | 0 <= i < |w.version.bases| ensures w.version.bases[i] in w.version.bases {}
    }
  }

  lemma WeighLists(s: Snapshot, service: Service, procedure: string, v: Version, facts: PreparedFacts, on: Date)
    requires var bases, dependencies := SelectBases(v, facts, on), SelectDependencies(s, v, facts, on);
             && !bases.configurationInvalid && bases.missing == {} && !NoApplicableBasis(v, bases)
             && !dependencies.configurationInvalid && dependencies.missing == {}
    ensures var bases, dependencies := SelectBases(v, facts, on), SelectDependencies(s, v, facts, on);
            Weigh(s, service, procedure, v, facts, on)
            == ListItems(s, service, procedure, v, CaseOf(v, facts, on, bases), on, bases, dependencies)
  {}

  lemma SettledIsListed(s: Snapshot, input: Input, w: Walk)
    requires DependenciesSettled(s, input, w)
    ensures Operate(s, input)
            == ListItems(s, w.service, w.candidate.procedure, w.version, Judged(w, input.on), input.on,
                         BasesOf(w, input.on), DependenciesOf(s, w, input.on))
  {
    ApplyingIsWeighed(s, input, w);
    JudgedIsCase(w, input.on);
    WeighLists(s, w.service, w.candidate.procedure, w.version, w.facts, input.on);
  }

  lemma ItemsThenSteps(s: Snapshot, service: Service, procedure: string, v: Version, c: Case, on: Date,
                       bases: Selection<PublicBasis>, dependencies: Selection<PublicDependency>)
    requires Complete(SelectChecklist(v, c)) && !SelectChecklist(v, c).undecided
    ensures ListItems(s, service, procedure, v, c, on, bases, dependencies)
            == ListSteps(s, service, procedure, v, c, on, bases, dependencies)
  {}

  lemma StepsThenFees(s: Snapshot, service: Service, procedure: string, v: Version, c: Case, on: Date,
                      bases: Selection<PublicBasis>, dependencies: Selection<PublicDependency>)
    requires Complete(SelectStepRows(v, c)) && !SelectStepRows(v, c).undecided
    ensures ListSteps(s, service, procedure, v, c, on, bases, dependencies)
            == ListFees(s, service, procedure, v, c, on, bases, dependencies)
  {}

  lemma ItemsAreFollowedBySteps(s: Snapshot, input: Input, w: Walk)
    requires ItemsComplete(s, input, w) && !SelectChecklist(w.version, Judged(w, input.on)).undecided
    ensures Operate(s, input)
            == ListSteps(s, w.service, w.candidate.procedure, w.version, Judged(w, input.on), input.on,
                         BasesOf(w, input.on), DependenciesOf(s, w, input.on))
  {
    SettledIsListed(s, input, w);
    ItemsThenSteps(s, w.service, w.candidate.procedure, w.version, Judged(w, input.on), input.on,
                   BasesOf(w, input.on), DependenciesOf(s, w, input.on));
  }

  lemma StepsAreFollowedByFees(s: Snapshot, input: Input, w: Walk)
    requires StepsComplete(s, input, w) && !SelectStepRows(w.version, Judged(w, input.on)).undecided
    ensures Operate(s, input)
            == ListFees(s, w.service, w.candidate.procedure, w.version, Judged(w, input.on), input.on,
                        BasesOf(w, input.on), DependenciesOf(s, w, input.on))
  {
    ItemsAreFollowedBySteps(s, input, w);
    StepsThenFees(s, w.service, w.candidate.procedure, w.version, Judged(w, input.on), input.on,
                  BasesOf(w, input.on), DependenciesOf(s, w, input.on));
  }

  // ----- what happens at each stage

  /** Before the case: no service, or an inactive one. */
  lemma AdmissionEndsAs(s: Snapshot, input: Input, service: Service)
    ensures (forall x | x in s.services :: x.id != input.service) ==>
              PlanStateless(s, input) == InconclusiveResult(UnknownService)
    ensures IsService(s, input.service, service) && !service.active ==>
              PlanStateless(s, input) == InconclusiveResult(InactiveService)
  {
    NoneIsFound(s.services, input.service);
    ServiceExactlyIf(s, input.service, service);
  }

  /** Then a refused submission, or a preparation that fails. */
  lemma PreparingEndsAs(s: Snapshot, input: Input, service: Service)
    requires IsService(s, input.service, service) && service.active
    ensures var r, p := PlanStateless(s, input), Prepare(s.definitions, service.contradictions, input.facts, input.on);
            match SubmittedFacts(input.facts, s.definitions)
            case RejectedFacts(diagnostics) => r == Publicly(diagnostics)
            case ValidFacts(_) =>
              match p
              case Prepared(_) => true
              case InvalidCase(diagnostics) => r == Publicly(diagnostics)
              case AssertionFailed => r == Raised
              case ConfigurationDefect => r == CONFIGURATION_INVALID
  {
    ServiceExactlyIf(s, input.service, service);
    if SubmittedFacts(input.facts, s.definitions).ValidFacts? { AcceptedAgain(input.facts, s.definitions); }
  }

  /** What the caller is told of a refused submission: one entry for each diagnostic, with its kind and place. */
  lemma PubliclyMeans(diagnostics: seq<Diagnostic>, i: nat)
    requires i < |diagnostics|
    ensures Publicly(diagnostics).InvalidResult? && |Publicly(diagnostics).diagnostics| == |diagnostics|
    ensures var d, told := diagnostics[i], Publicly(diagnostics).diagnostics[i];
            && told.path == d.path
            && (told.family == UnsupportedKey <==> d.code.UnsupportedFactKey?)
            && (told.family == DerivedSubmitted <==> d.code.DerivedFactCannotBeSubmitted?)
            && (told.family == InvalidValue <==> d.code.InvalidFactValue?)
            && (told.family == Contradictory <==> d.code == ContradictoryFacts)
  {}

  lemma ChoiceIsAnswered(s: Snapshot, service: Service, facts: PreparedFacts, on: Date)
    ensures var r := Select(s, service, facts, on).result;
            match Choose(s.definitions, service, facts)
            case NoChoice(reason) => r == InconclusiveResult(reason)
            case AskFirst(q) => r == QuestionResult(s.definitions, service.id, q)
            case ChoiceDefect => r == CONFIGURATION_INVALID
            case ChoiceRaised => r == Raised
            case Selected(procedure) =>
              match Resolve(s, procedure, on, None)
              case Defect(_, _, _) => r == CONFIGURATION_INVALID
              case Unavailable(reason, _) => r == InconclusiveResult(reason)
              case Resolved(_, _, _) => true
  {}

  /** Choosing: too many matches, none, or a question first. */
  lemma ChoosingEndsAs(s: Snapshot, input: Input, service: Service, facts: PreparedFacts)
    requires CaseAccepted(s, input, service, facts)
    ensures var r := PlanStateless(s, input);
            if SeveralMatch(service, facts) then r == InconclusiveResult(MultipleMatchingProcedures)
            else if NoneMatches(service, facts) then r == InconclusiveResult(NoMatchingResearchedProcedure)
            else if exists c :: OnlyMatch(service, facts, c) then true
            else
              match PickQuestion(s.definitions, service.questions, facts, UndecidedMisses(service, facts),
                                 SelectionProfile)
              case Picked(q) => ShowsQuestion(s.definitions, service.id, q, r)
              case Diagnosed(_) => r == CONFIGURATION_INVALID
              case EmptyMinimum => r == Raised
  {
    AcceptedIsSelected(s, input, service, facts);
    ChoiceEndsAs(s.definitions, service, facts);
    ChoiceIsAnswered(s, service, facts, input.on);
    var choice := Choose(s.definitions, service, facts);
    if choice.AskFirst? { QuestionShows(s.definitions, service.id, choice.question); }
    if c :| OnlyMatch(service, facts, c) { OnlyMatchIsLone(service, facts, c); }
  }

  /** Resolving: the stored versions are flawed, or none is in force. */
  lemma ResolvingEndsAs(s: Snapshot, input: Input, w: Walk)
    requires Chosen(s, input, w)
    ensures var r, p := PlanStateless(s, input), w.candidate.procedure;
            if Flawed(s, p) then r == CONFIGURATION_INVALID
            else if exists v :: InForceOn(s, p, input.on, v) then true
            else if forall v :: !IsPublished(s, p, v) then r == InconclusiveResult(NoPublishedVersion)
            else if forall v | IsPublished(s, p, v) :: StartsAfter(v, input.on)
            then r == InconclusiveResult(NotYetEffective)
            else r == InconclusiveResult(NoApplicableVersion)
  {
    ChosenIsSelected(s, input, w);
    ChoiceIsAnswered(s, w.service, w.facts, input.on);
    DefectExactlyIf(s, w.candidate.procedure, input.on);
    ChosenIsOffered(s, input, w);
    if !Flawed(s, w.candidate.procedure) { UnavailableExactlyIf(s, w.candidate.procedure, input.on); }
  }

  lemma ChosenIsOffered(s: Snapshot, input: Input, w: Walk)
    requires Chosen(s, input, w)
    ensures Offers(s, w.candidate.procedure)
  {
    OnlyMatchIsLone(w.service, w.facts, w.candidate);
    assert w.service in s.services;
  }

  /** Applying: a version that does not apply is not planned. */
  lemma ApplyingEndsAs(s: Snapshot, input: Input, w: Walk)
    requires Found(s, input, w)
    ensures var missing := MissingFacts(w.version.applicability, w.facts.values, w.facts.submittedKeys);
            && (VersionVotes(w, FALSE) ==> PlanStateless(s, input) == InconclusiveResult(ProcedureVersionNotApplicable))
            && (VersionVotes(w, UNKNOWN) ==>
                  PlanStateless(s, input)
                  == if missing == {} then InconclusiveResult(ProcedureVersionApplicabilityUnknown)
                     else AskFor(s.definitions, w.service, w.facts, missing))
  {
    FoundIsApplied(s, input, w);
  }

  /** Weighing bases, then dependencies. */
  lemma BasesEndAs(s: Snapshot, input: Input, w: Walk)
    requires Applying(s, input, w)
    ensures var r, bases := PlanStateless(s, input), BasesOf(w, input.on);
            if bases.configurationInvalid then r == CONFIGURATION_INVALID
            else if bases.missing != {} then r == AskFor(s.definitions, w.service, w.facts, bases.missing)
            else NoBasisLeft(w, input.on) ==> r == InconclusiveResult(NoApplicableEligibilityBasis)
  {
    ApplyingIsWeighed(s, input, w);
  }

  lemma DependenciesEndAs(s: Snapshot, input: Input, w: Walk)
    requires BasesSettled(s, input, w)
    ensures var r, dependencies := PlanStateless(s, input), DependenciesOf(s, w, input.on);
            if dependencies.configurationInvalid then r == CONFIGURATION_INVALID
            else dependencies.missing != {} ==> r == AskFor(s.definitions, w.service, w.facts, dependencies.missing)
  {
    ApplyingIsWeighed(s, input, w);
  }

  /** How a list of rows stops the operation: a basis is missing, Facts are, or a row stays undecided. */
  predicate StopsAt<P>(rows: Selection<P>, s: Snapshot, w: Walk, undecided: Reason, r: Result) {
    if rows.basisRequired then r == CONFIGURATION_INVALID
    else if rows.missing != {} then r == AskFor(s.definitions, w.service, w.facts, rows.missing)
    else rows.undecided ==> r == InconclusiveResult(undecided)
  }

  lemma ItemsEndAs(s: Snapshot, input: Input, w: Walk)
    requires DependenciesSettled(s, input, w)
    ensures StopsAt(SelectChecklist(w.version, Judged(w, input.on)), s, w, ChecklistApplicabilityUnknown,
                    PlanStateless(s, input))
  {
    SettledIsListed(s, input, w);
  }

  lemma StepsEndAs(s: Snapshot, input: Input, w: Walk)
    requires ItemsComplete(s, input, w) && !SelectChecklist(w.version, Judged(w, input.on)).undecided
    ensures StopsAt(SelectStepRows(w.version, Judged(w, input.on)), s, w, StepApplicabilityUnknown,
                    PlanStateless(s, input))
  {
    ItemsAreFollowedBySteps(s, input, w);
  }

  lemma FeesEndAs(s: Snapshot, input: Input, w: Walk)
    requires StepsComplete(s, input, w) && !SelectStepRows(w.version, Judged(w, input.on)).undecided
    ensures StopsAt(SelectFeeRows(w.version, Judged(w, input.on)), s, w, FeeApplicabilityUnknown,
                    PlanStateless(s, input))
  {
    StepsAreFollowedByFees(s, input, w);
  }

  // ----- the plan

  /** A listed basis with the guidance that hangs on it. */
  ghost predicate Guides(b: PublicBasis, listed: PublicBasis, plan: PlanResult) {
    && b == listed.(checklistIds := b.checklistIds, stepIds := b.stepIds)
    && (forall id :: id in b.checklistIds <==> exists x | x in plan.checklist :: x.basisId == Some(b.id) && x.id == id)
    && (forall id :: id in b.stepIds <==> exists x | x in plan.steps :: x.basisId == Some(b.id) && x.id == id)
  }

  /** The plan shows what the selections over the version yield, and nothing else. */
  ghost predicate Shown(plan: PlanResult, s: Snapshot, input: Input, w: Walk) {
    var bases, c := BasesOf(w, input.on), Judged(w, input.on);
    && plan.service == input.service && plan.procedure == w.candidate.procedure
    && plan.version == w.version.id && plan.title == w.version.text
    && plan.checklist == SelectChecklist(w.version, c).items && plan.steps == SelectStepRows(w.version, c).items
    && plan.warnings == SelectWarnings(w.version, c) && plan.fees == SelectFeeRows(w.version, c).items
    && |plan.bases| == |bases.items|
    && (forall i | 0 <= i < |plan.bases| :: Guides(plan.bases[i], bases.items[i], plan))
    && (forall id :: id in plan.inconclusiveBases <==> id in bases.inconclusive)
    && (forall i, j | 0 <= i < j < |plan.inconclusiveBases| ::
          plan.inconclusiveBases[i] != plan.inconclusiveBases[j]
          && TextLe(plan.inconclusiveBases[i], plan.inconclusiveBases[j]))
    && plan.dependencies == DependenciesOf(s, w, input.on).items
    && plan.routing == SelectServicePoints(s.points, s.pointVersions, w.version, w.facts, input.on)
    && plan.checklistInconclusive == SelectChecklist(w.version, c).trustInconclusive
    && plan.stepsInconclusive == SelectStepRows(w.version, c).trustInconclusive
  }

  lemma {:induction false} ItemIdsMean(items: seq<PublicChecklistItem>, basis: string)
    ensures forall id ::
              id in ItemIdsOf(items, basis) <==> exists x | x in items :: x.basisId == Some(basis) && x.id == id
  {
    if items != [] {
      ItemIdsMean(items[..|items| - 1], basis);
      assert forall x :: x in items <==> x in items[..|items| - 1] || x == items[|items| - 1];
    }
  }

  lemma {:induction false} StepIdsMean(steps: seq<PublicStep>, basis: string)
    ensures forall id ::
              id in StepIdsOf(steps, basis) <==> exists x | x in steps :: x.basisId == Some(basis) && x.id == id
  {
    if steps != [] {
      StepIdsMean(steps[..|steps| - 1], basis);
      assert forall x :: x in steps <==> x in steps[..|steps| - 1] || x == steps[|steps| - 1];
    }
  }

  lemma AssembledIsShown(s: Snapshot, input: Input, w: Walk)
    requires IsService(s, input.service, w.service)
    ensures Shown(Assemble(s, w.service, w.candidate.procedure, w.version, Judged(w, input.on), input.on,
                           BasesOf(w, input.on), DependenciesOf(s, w, input.on)), s, input, w)
  {
    var plan := Assemble(s, w.service, w.candidate.procedure, w.version, Judged(w, input.on), input.on,
                         BasesOf(w, input.on), DependenciesOf(s, w, input.on));
    forall i | 0 <= i < |plan.bases| ensures Guides(plan.bases[i], BasesOf(w, input.on).items[i], plan) {
      ItemIdsMean(plan.checklist, plan.bases[i].id);
      StepIdsMean(plan.steps, plan.bases[i].id);
    }
  }

  /** A case all of whose selections are settled is planned, and the plan shows exactly them. */
  lemma SettledIsPlanned(s: Snapshot, input: Input, w: Walk)
    requires AllSettled(s, input, w)
    ensures PlanStateless(s, input).Plan? && Shown(PlanStateless(s, input).plan, s, input, w)
  {
    StepsAreFollowedByFees(s, input, w);
    AssembledIsShown(s, input, w);
  }

  // ----- plans and reasons, exactly

  predicate Answers(r: Result) {
    r.Plan? || r.InconclusiveResult?
  }

  /** An active service's case that is answered was accepted. */
  lemma AnsweredIsAccepted(s: Snapshot, input: Input, service: Service) returns (facts: PreparedFacts)
    requires IsService(s, input.service, service) && service.active && Answers(PlanStateless(s, input))
    ensures CaseAccepted(s, input, service, facts)
  {
    PreparingEndsAs(s, input, service);
    PreparedWasSubmitted(s.definitions, service.contradictions, input.facts, input.on);
    facts := Prepare(s.definitions, service.contradictions, input.facts, input.on).facts;
  }

  lemma PreparedWasSubmitted(definitions: Registry, cs: seq<Contradiction>, facts: map<string, RawValue>, on: Date)
    ensures Prepare(definitions, cs, facts, on).Prepared? ==> SubmittedFacts(facts, definitions).ValidFacts?
  {}

  lemma QuestionDoesNotAnswer(definitions: Registry, service: Service, q: Question, r: Result)
    requires ShowsQuestion(definitions, service.id, q, r)
    ensures !Answers(r)
  {}

  /** One that is answered past the choice has chosen, and one that is answered past resolving has found its version. */
  lemma AcceptedHasChosen(s: Snapshot, input: Input, service: Service, facts: PreparedFacts) returns (w: Walk)
    requires CaseAccepted(s, input, service, facts) && Answers(PlanStateless(s, input))
    ensures w.service == service && w.facts == facts
    ensures SeveralMatch(service, facts) || NoneMatches(service, facts) || Chosen(s, input, w)
  {
    ChoosingEndsAs(s, input, service, facts);
    w := Walk(service, facts, NO_CANDIDATE, NO_VERSION);
    if c :| OnlyMatch(service, facts, c) {
      w := w.(candidate := c);
    } else if !SeveralMatch(service, facts) && !NoneMatches(service, facts) {
      var pick := PickQuestion(s.definitions, service.questions, facts, UndecidedMisses(service, facts),
                               SelectionProfile);
      if pick.Picked? { QuestionDoesNotAnswer(s.definitions, service, pick.question, PlanStateless(s, input)); }
    }
  }

  const NO_CANDIDATE := Candidate("", Text("", ""), Predicate(All, None, NoOperand, []))
  const NO_VERSION := Version("", "", Text("", ""), Predicate(All, None, NoOperand, []), true, Draft, None, None,
                              [], [], [], [], [], [], [])

  lemma ChosenHasFound(s: Snapshot, input: Input, w: Walk) returns (found: Walk)
    requires Chosen(s, input, w) && Answers(PlanStateless(s, input))
    ensures found == w.(version := found.version)
    ensures Found(s, input, found)
            || (!Flawed(s, w.candidate.procedure) && forall v :: !InForceOn(s, w.candidate.procedure, input.on, v))
  {
    ResolvingEndsAs(s, input, w);
    found := w;
    if v :| InForceOn(s, w.candidate.procedure, input.on, v) { found := w.(version := v); }
  }

  lemma FoundIsApplying(s: Snapshot, input: Input, w: Walk)
    requires Found(s, input, w) && Answers(PlanStateless(s, input))
    ensures || VersionVotes(w, FALSE) || Applying(s, input, w)
            || (VersionVotes(w, UNKNOWN)
                && MissingFacts(w.version.applicability, w.facts.values, w.facts.submittedKeys) == {})
  {
    ApplyingEndsAs(s, input, w);
  }

  lemma ApplyingIsSettled(s: Snapshot, input: Input, w: Walk)
    requires Applying(s, input, w) && Answers(PlanStateless(s, input))
    ensures DependenciesSettled(s, input, w) || (!BasesOf(w, input.on).configurationInvalid && NoBasisLeft(w, input.on))
  {
    BasesEndAs(s, input, w);
    if BasesSettled(s, input, w) { DependenciesEndAs(s, input, w); }
  }

  // A reason that holds is the one given.

  const NO_SERVICE := Service("", Text("", ""), [], [], [], false)

  lemma AdmissionReasonIsGiven(s: Snapshot, input: Input, reason: Reason)
    requires StopsAdmission(s, input, reason)
    ensures PlanStateless(s, input) == InconclusiveResult(reason)
  {
    var service := NO_SERVICE;
    if reason == InactiveService { service :| IsService(s, input.service, service) && !service.active; }
    AdmissionEndsAs(s, input, service);
  }

  lemma NoneIsNotSeveral(service: Service, facts: PreparedFacts)
    requires NoneMatches(service, facts)
    ensures !SeveralMatch(service, facts)
  {
    forall i | 0 <= i < |service.candidates| ensures !Votes(service.candidates[i], facts, TRUE) {
      assert Votes(service.candidates[i], facts, FALSE);
    }
  }

  lemma ChoiceReasonIsGiven(s: Snapshot, input: Input, service: Service, facts: PreparedFacts, reason: Reason)
    requires StopsChoice(s, input, service, facts, reason)
    ensures PlanStateless(s, input) == InconclusiveResult(reason)
  {
    if NoneMatches(service, facts) { NoneIsNotSeveral(service, facts); }
    ChoosingEndsAs(s, input, service, facts);
  }

  lemma ResolvingReasonIsGiven(s: Snapshot, input: Input, w: Walk, reason: Reason)
    requires StopsResolving(s, input, w, reason)
    ensures PlanStateless(s, input) == InconclusiveResult(reason)
  {
    ResolvingEndsAs(s, input, w);
  }

  lemma VersionReasonIsGiven(s: Snapshot, input: Input, w: Walk, reason: Reason)
    requires StopsWalk(s, input, w, reason)
    requires reason == ProcedureVersionNotApplicable || reason == ProcedureVersionApplicabilityUnknown
    ensures PlanStateless(s, input) == InconclusiveResult(reason)
  {
    ApplyingEndsAs(s, input, w);
  }

  lemma BasisReasonIsGiven(s: Snapshot, input: Input, w: Walk)
    requires StopsWalk(s, input, w, NoApplicableEligibilityBasis)
    ensures PlanStateless(s, input) == InconclusiveResult(NoApplicableEligibilityBasis)
  {
    BasesEndAs(s, input, w);
  }

  lemma ItemReasonIsGiven(s: Snapshot, input: Input, w: Walk)
    requires StopsWalk(s, input, w, ChecklistApplicabilityUnknown)
    ensures PlanStateless(s, input) == InconclusiveResult(ChecklistApplicabilityUnknown)
  {
    ItemsEndAs(s, input, w);
  }

  lemma StepReasonIsGiven(s: Snapshot, input: Input, w: Walk)
    requires StopsWalk(s, input, w, StepApplicabilityUnknown)
    ensures PlanStateless(s, input) == InconclusiveResult(StepApplicabilityUnknown)
  {
    StepsEndAs(s, input, w);
  }

  lemma FeeReasonIsGiven(s: Snapshot, input: Input, w: Walk)
    requires StopsWalk(s, input, w, FeeApplicabilityUnknown)
    ensures PlanStateless(s, input) == InconclusiveResult(FeeApplicabilityUnknown)
  {
    FeesEndAs(s, input, w);
  }

  lemma WalkReasonIsGiven(s: Snapshot, input: Input, w: Walk, reason: Reason)
    requires StopsWalk(s, input, w, reason)
    ensures PlanStateless(s, input) == InconclusiveResult(reason)
  {
    if reason == NoApplicableEligibilityBasis { BasisReasonIsGiven(s, input, w); }
    else if reason == ChecklistApplicabilityUnknown { ItemReasonIsGiven(s, input, w); }
    else if reason == StepApplicabilityUnknown { StepReasonIsGiven(s, input, w); }
    else if reason == FeeApplicabilityUnknown { FeeReasonIsGiven(s, input, w); }
    else { VersionReasonIsGiven(s, input, w, reason); }
  }

  lemma BecauseIsGiven(s: Snapshot, input: Input, reason: Reason)
    requires Because(s, input, reason)
    ensures PlanStateless(s, input) == InconclusiveResult(reason)
  {
    if StopsAdmission(s, input, reason) {
      AdmissionReasonIsGiven(s, input, reason);
    } else if service, facts :| StopsChoice(s, input, service, facts, reason) {
      ChoiceReasonIsGiven(s, input, service, facts, reason);
    } else if w :| StopsResolving(s, input, w, reason) {
      ResolvingReasonIsGiven(s, input, w, reason);
    } else {
      var w :| StopsWalk(s, input, w, reason);
      WalkReasonIsGiven(s, input, w, reason);
    }
  }

  // Where an answered case ends: some reason holds, or everything is settled.

  lemma ItemsAreComplete(s: Snapshot, input: Input, w: Walk)
    requires DependenciesSettled(s, input, w) && Answers(PlanStateless(s, input))
    ensures ItemsComplete(s, input, w)
  {
    ItemsEndAs(s, input, w);
  }

  lemma StepsAreComplete(s: Snapshot, input: Input, w: Walk)
    requires ItemsComplete(s, input, w) && !SelectChecklist(w.version, Judged(w, input.on)).undecided
    requires Answers(PlanStateless(s, input))
    ensures StepsComplete(s, input, w)
  {
    StepsEndAs(s, input, w);
  }

  lemma FeesAreComplete(s: Snapshot, input: Input, w: Walk)
    requires StepsComplete(s, input, w) && !SelectStepRows(w.version, Judged(w, input.on)).undecided
    requires Answers(PlanStateless(s, input))
    ensures FeesComplete(s, input, w)
  {
    FeesEndAs(s, input, w);
  }

  lemma DecidedFeesSettle(s: Snapshot, input: Input, w: Walk)
    requires FeesComplete(s, input, w) && !SelectFeeRows(w.version, Judged(w, input.on)).undecided
    ensures AllSettled(s, input, w)
  {}

  lemma UndecidedFeesStop(s: Snapshot, input: Input, w: Walk)
    requires FeesComplete(s, input, w) && SelectFeeRows(w.version, Judged(w, input.on)).undecided
    ensures StopsWalk(s, input, w, FeeApplicabilityUnknown)
  {}

  lemma UndecidedStepsStop(s: Snapshot, input: Input, w: Walk)
    requires StepsComplete(s, input, w) && SelectStepRows(w.version, Judged(w, input.on)).undecided
    ensures StopsWalk(s, input, w, StepApplicabilityUnknown)
  {}

  lemma UndecidedItemsStop(s: Snapshot, input: Input, w: Walk)
    requires ItemsComplete(s, input, w) && SelectChecklist(w.version, Judged(w, input.on)).undecided
    ensures StopsWalk(s, input, w, ChecklistApplicabilityUnknown)
  {}

  /** Some reason holds, or everything is settled. */
  ghost predicate Ends(s: Snapshot, input: Input, w: Walk) {
    AllSettled(s, input, w) || exists reason :: StopsWalk(s, input, w, reason)
  }

  lemma StepsEndSomewhere(s: Snapshot, input: Input, w: Walk)
    requires ItemsComplete(s, input, w) && !SelectChecklist(w.version, Judged(w, input.on)).undecided
    requires Answers(PlanStateless(s, input))
    ensures Ends(s, input, w)
  {
    StepsAreComplete(s, input, w);
    if SelectStepRows(w.version, Judged(w, input.on)).undecided {
      UndecidedStepsStop(s, input, w);
    } else {
      FeesAreComplete(s, input, w);
      if SelectFeeRows(w.version, Judged(w, input.on)).undecided {
        UndecidedFeesStop(s, input, w);
      } else {
        DecidedFeesSettle(s, input, w);
      }
    }
  }

  lemma SettledEndsSomewhere(s: Snapshot, input: Input, w: Walk)
    requires DependenciesSettled(s, input, w) && Answers(PlanStateless(s, input))
    ensures Ends(s, input, w)
  {
    ItemsAreComplete(s, input, w);
    if SelectChecklist(w.version, Judged(w, input.on)).undecided {
      UndecidedItemsStop(s, input, w);
    } else {
      StepsEndSomewhere(s, input, w);
    }
  }

  lemma ApplyingEndsSomewhere(s: Snapshot, input: Input, w: Walk)
    requires Applying(s, input, w) && Answers(PlanStateless(s, input))
    ensures Ends(s, input, w)
  {
    ApplyingIsSettled(s, input, w);
    if DependenciesSettled(s, input, w) {
      SettledEndsSomewhere(s, input, w);
    } else {
      assert StopsWalk(s, input, w, NoApplicableEligibilityBasis);
    }
  }

  lemma FoundEndsSomewhere(s: Snapshot, input: Input, w: Walk)
    requires Found(s, input, w) && Answers(PlanStateless(s, input))
    ensures Ends(s, input, w)
  {
    FoundIsApplying(s, input, w);
    if Applying(s, input, w) {
      ApplyingEndsSomewhere(s, input, w);
    } else {
      assert StopsWalk(s, input, w, if VersionVotes(w, FALSE) then ProcedureVersionNotApplicable
                                    else ProcedureVersionApplicabilityUnknown);
    }
  }

  /** Some walk is settled, or some reason holds of the case. */
  ghost predicate Answered(s: Snapshot, input: Input) {
    (exists w :: AllSettled(s, input, w)) || exists reason :: Because(s, input, reason)
  }

  lemma ChosenEndsSomewhere(s: Snapshot, input: Input, w: Walk)
    requires Chosen(s, input, w) && Answers(PlanStateless(s, input))
    ensures Answered(s, input)
  {
    var found := ChosenHasFound(s, input, w);
    if Found(s, input, found) {
      FoundEndsSomewhere(s, input, found);
      if reason :| StopsWalk(s, input, found, reason) { assert Because(s, input, reason); }
    } else {
      var reason := UnresolvedReason(s, input, w);
      assert Because(s, input, reason);
    }
  }

  lemma AcceptedEndsSomewhere(s: Snapshot, input: Input, service: Service, facts: PreparedFacts)
    requires CaseAccepted(s, input, service, facts) && Answers(PlanStateless(s, input))
    ensures Answered(s, input)
  {
    var w := AcceptedHasChosen(s, input, service, facts);
    if Chosen(s, input, w) {
      ChosenEndsSomewhere(s, input, w);
    } else {
      var reason := if SeveralMatch(service, facts) then MultipleMatchingProcedures else NoMatchingResearchedProcedure;
      assert StopsChoice(s, input, service, facts, reason);
      assert Because(s, input, reason);
    }
  }

  lemma AnsweredSomehow(s: Snapshot, input: Input)
    requires Answers(PlanStateless(s, input))
    ensures Answered(s, input)
  {
    if service :| IsService(s, input.service, service) {
      if service.active {
        var facts := AnsweredIsAccepted(s, input, service);
        AcceptedEndsSomewhere(s, input, service, facts);
      } else {
        assert Because(s, input, InactiveService);
      }
    } else {
      UnlistedService(s, input.service);
      assert Because(s, input, UnknownService);
    }
  }

  lemma UnlistedService(s: Snapshot, id: string)
    requires forall service :: !IsService(s, id, service)
    ensures forall x | x in s.services :: x.id != id
  {
    NoneIsFound(s.services, id);
    if FindService(s.services, id).Some? { ServiceExactlyIf(s, id, FindService(s.services, id).value); }
  }

  lemma UnresolvedReason(s: Snapshot, input: Input, w: Walk) returns (reason: Reason)
    requires Chosen(s, input, w) && !Flawed(s, w.candidate.procedure)
    requires forall v :: !InForceOn(s, w.candidate.procedure, input.on, v)
    ensures StopsResolving(s, input, w, reason)
  {
    var p := w.candidate.procedure;
    reason := if forall v :: !IsPublished(s, p, v) then NoPublishedVersion
              else if forall v | IsPublished(s, p, v) :: StartsAfter(v, input.on) then NotYetEffective
              else NoApplicableVersion;
  }

  /** There is a plan exactly when every stage is passed: the case is accepted, one Procedure chosen, its version found
      in force and applying, and no selection lacks, asks or leaves undecided anything. */
  lemma PlannedExactlyIf(s: Snapshot, input: Input)
    ensures PlanStateless(s, input).Plan? <==> exists w :: AllSettled(s, input, w)
  {
    if PlanStateless(s, input).Plan? {
      AnsweredSomehow(s, input);
      if reason :| Because(s, input, reason) { BecauseIsGiven(s, input, reason); }
    }
    if w :| AllSettled(s, input, w) { SettledIsPlanned(s, input, w); }
  }

  /** Each reason is given exactly when it holds. */
  lemma ReasonExactlyIf(s: Snapshot, input: Input, reason: Reason)
    ensures PlanStateless(s, input) == InconclusiveResult(reason) <==> Because(s, input, reason)
  {
    if PlanStateless(s, input) == InconclusiveResult(reason) {
      AnsweredSomehow(s, input);
      if w :| AllSettled(s, input, w) {
        SettledIsPlanned(s, input, w);
      } else {
        var given :| Because(s, input, given);
        BecauseIsGiven(s, input, given);
      }
    }
    if Because(s, input, reason) { BecauseIsGiven(s, input, reason); }
  }
}
