/** A catalog small enough to follow by hand: the premises of the theorems about questions, plans and runs are met. */
module Examples {
  import opened Wrappers
  import opened Ordering
  import opened Calendar
  import opened Facts
  import opened Rules
  import opened Evaluator
  import opened CasePreparation
  import opened Catalog
  import opened Tally
  import opened Versions
  import opened Guidance
  import opened Prerequisites
  import opened Questions
  import opened Planner

  const KEY := "k"
  const NO_TEXT := Text("", "")
  const RULE := Predicate(Eq, Some(KEY), One(BoolV(true)), [])
  const DEFINITIONS: Registry := map[KEY := FactDefinition(KEY, BooleanKind, [], None, false)]
  const QUESTION := Question("q", NO_TEXT, 1, [KEY])
  const CANDIDATE := Candidate("p", NO_TEXT, RULE)
  const SERVICE := Service("s", NO_TEXT, [CANDIDATE], [QUESTION], [], true)
  const VERSION := Version("v", "p", NO_TEXT, RULE, true, Published, None, None, [], [], [], [], [], [], [])
  const SMALL := Snapshot(DEFINITIONS, [SERVICE], [VERSION], [], [])

  const UNANSWERED: map<string, FactValue> := map[]
  const ANSWERED: map<string, FactValue> := map[KEY := BoolV(true)]

  function Answers(values: map<string, FactValue>): map<string, RawValue> {
    map k | k in values :: Typed(values[k])
  }

  lemma KeyIsNotPinned()
    ensures KEY !in DERIVED_KEYS
  {
    assert |KEY| == 1;
  }

  lemma {:induction false} NothingDerives(keys: seq<string>, source: map<string, FactValue>, on: Date)
    requires KEY !in keys
    ensures DeriveAll(keys, DEFINITIONS, source, on) == Derived(source, map[])
  {
    if keys != [] {
      NothingDerives(keys[..|keys| - 1], source, on);
      assert keys[|keys| - 1] !in DEFINITIONS;
    }
  }

  lemma NoDefects(values: map<string, FactValue>)
    requires values == UNANSWERED || values == ANSWERED
    ensures forall k | k in Answers(values) :: FactDefect(DEFINITIONS, k, Answers(values)[k]).None?
  {}

  lemma SameValues(raw: map<string, RawValue>, a: map<string, FactValue>, b: map<string, FactValue>)
    requires raw.Keys == a.Keys == b.Keys
    requires forall k | k in raw :: raw[k] == Typed(a[k]) == Typed(b[k])
    ensures a == b
  {}

  lemma Accepted(definitions: Registry, raw: map<string, RawValue>, values: map<string, FactValue>)
    requires raw.Keys == values.Keys && forall k | k in raw :: raw[k] == Typed(values[k])
    requires SubmittedFacts(raw, definitions).ValidFacts?
    ensures SubmittedFacts(raw, definitions) == ValidFacts(values)
  {
    AcceptanceCopiesAll(raw, definitions);
    SameValues(raw, SubmittedFacts(raw, definitions).facts, values);
  }

  /** Without derived Facts and contradictions, preparation is acceptance. */
  lemma PreparedPlainly(definitions: Registry, facts: map<string, RawValue>, source: map<string, FactValue>, on: Date)
    requires forall k | k in definitions :: !definitions[k].derived
    requires SubmittedFacts(facts, definitions) == ValidFacts(source)
    requires DeriveAll(DERIVED_KEYS, definitions, source, on) == Derived(source, map[])
    ensures Prepare(definitions, [], facts, on) == Prepared(PreparedFacts(source, source.Keys, map[]))
  {
    assert BlamedByAll([], PreparedFacts(source, source.Keys, map[])) == {};
  }

  lemma ExampleIsPrepared(values: map<string, FactValue>, on: Date)
    requires values == UNANSWERED || values == ANSWERED
    ensures SubmittedFacts(Answers(values), DEFINITIONS) == ValidFacts(values)
    ensures Prepare(DEFINITIONS, [], Answers(values), on) == Prepared(PreparedFacts(values, values.Keys, map[]))
  {
    NoDefects(values);
    NoDiagnosticsMeansNoDefect(Answers(values), DEFINITIONS);
    Accepted(DEFINITIONS, Answers(values), values);
    KeyIsNotPinned();
    NothingDerives(DERIVED_KEYS, values, on);
    PreparedPlainly(DEFINITIONS, Answers(values), values, on);
  }

  lemma RuleOn(values: map<string, FactValue>)
    requires values == UNANSWERED || values == ANSWERED
    ensures Eval(RULE, values, values.Keys) == if values == ANSWERED then TRUE else UNKNOWN
    ensures MissingFacts(RULE, values, values.Keys) == if values == ANSWERED then {} else {KEY}
  {
    assert values == ANSWERED <==> KEY in values;
  }

  lemma KeyIsCovered()
    ensures KEY in Covered(SERVICE.questions) && Covering(SERVICE.questions, {KEY}) == [QUESTION]
  {
    assert SERVICE.questions == [QUESTION] && [QUESTION][..0] == [];
    assert KEY in SERVICE.questions[0].resolved && 0 < |SERVICE.questions|;
    assert Covers(QUESTION, {KEY});
    assert Covering([], {KEY}) == [];
  }

  lemma QuestionIsPicked()
    ensures PickQuestion(DEFINITIONS, SERVICE.questions, PreparedFacts(UNANSWERED, {}, map[]), {KEY}, SelectionProfile)
            == Picked(QUESTION)
  {
    var facts := PreparedFacts(UNANSWERED, {}, map[]);
    assert Expand(KEY, DEFINITIONS, facts, SelectionProfile) == Sources({KEY});
    assert SourceFacts({KEY}, DEFINITIONS, facts, SelectionProfile) == {KEY};
    assert ExpansionDefects({KEY}, DEFINITIONS, facts, SelectionProfile) == {};
    KeyIsCovered();
    assert {KEY} - Covered(SERVICE.questions) == {};
  }

  lemma LoneCandidate(candidate: Candidate, facts: PreparedFacts)
    ensures var verdict := Eval(candidate.selection, facts.values, facts.submittedKeys);
            forall v :: WithValue([candidate], facts, v) == if v == verdict then [candidate] else []
    ensures MissingForAll([candidate], facts) == MissingFacts(candidate.selection, facts.values, facts.submittedKeys)
  {
    assert [candidate][..0] == [];
  }

  lemma CandidateIsUndecided()
    ensures var facts := PreparedFacts(UNANSWERED, {}, map[]);
            && WithValue([CANDIDATE], facts, UNKNOWN) == [CANDIDATE] && WithValue([CANDIDATE], facts, TRUE) == []
            && MissingForAll([CANDIDATE], facts) == {KEY}
  {
    var facts := PreparedFacts(UNANSWERED, {}, map[]);
    RuleOn(UNANSWERED);
    assert UNANSWERED.Keys == {};
    LoneCandidate(CANDIDATE, facts);
  }

  lemma FirstItAsks()
    ensures Choose(DEFINITIONS, SERVICE, PreparedFacts(UNANSWERED, {}, map[])) == AskFirst(QUESTION)
  {
    assert SortBy([CANDIDATE], CandidateLe) == [CANDIDATE];
    CandidateIsUndecided();
    QuestionIsPicked();
  }

  lemma ThenItChooses()
    ensures Choose(DEFINITIONS, SERVICE, PreparedFacts(ANSWERED, {KEY}, map[])) == Selected("p")
  {
    var facts := PreparedFacts(ANSWERED, {KEY}, map[]);
    RuleOn(ANSWERED);
    assert ANSWERED.Keys == {KEY};
    assert SortBy([CANDIDATE], CandidateLe) == [CANDIDATE];
    LoneCandidate(CANDIDATE, facts);
  }

  lemma ItResolves(on: Date)
    ensures Resolve(SMALL, "p", on, None).Resolved? && Resolve(SMALL, "p", on, None).version == VERSION
  {
    assert [VERSION][..0] == [];
    assert VersionsOf([VERSION], "p") == [VERSION];
    assert SortBy([VERSION], IdLe) == [VERSION];
    assert PublishedOf([VERSION]) == [VERSION];
    assert VersionCodes(VERSION) == {};
    assert AllCodes([VERSION]) == {};
    assert ConflictingIds([VERSION]) == {};
    assert Applicable([VERSION], on) == [VERSION];
  }

  lemma NothingToWeigh(on: Date)
    ensures Weigh(SMALL, SERVICE, "p", VERSION, PreparedFacts(ANSWERED, {KEY}, map[]), on).result.Plan?
  {
    var facts := PreparedFacts(ANSWERED, {KEY}, map[]);
    assert SelectBases(VERSION, facts, on) == Empty();
    assert SelectDependencies(SMALL, VERSION, facts, on) == Empty();
    var c := CaseOf(VERSION, facts, on, Empty());
    assert SelectChecklist(VERSION, c) == Empty() && SelectStepRows(VERSION, c) == Empty()
           && SelectFeeRows(VERSION, c) == Empty();
  }

  /** An accepted and prepared case of an active service goes to the selection. */
  lemma PreparedIsSelected(s: Snapshot, input: Input, service: Service, source: map<string, FactValue>,
                           facts: PreparedFacts)
    requires FindService(s.services, input.service) == Some(service) && service.active
    requires SubmittedFacts(input.facts, s.definitions) == ValidFacts(source) && AsRaw(source) == input.facts
    requires Prepare(s.definitions, service.contradictions, input.facts, input.on) == Prepared(facts)
    ensures Operate(s, input) == Select(s, service, facts, input.on)
  {}

  lemma ServiceIsFound()
    ensures FindService(SMALL.services, "s") == Some(SERVICE)
  {}

  lemma AnswersAreRaw(values: map<string, FactValue>)
    ensures AsRaw(values) == Answers(values)
  {}

  lemma ExampleReachesSelection(values: map<string, FactValue>, on: Date)
    requires values == UNANSWERED || values == ANSWERED
    ensures Operate(SMALL, Input("s", Answers(values), on))
            == Select(SMALL, SERVICE, PreparedFacts(values, values.Keys, map[]), on)
  {
    ExampleIsPrepared(values, on);
    ServiceIsFound();
    AnswersAreRaw(values);
    PreparedIsSelected(SMALL, Input("s", Answers(values), on), SERVICE, values,
                       PreparedFacts(values, values.Keys, map[]));
  }

  lemma SelectionAsks(on: Date)
    ensures Select(SMALL, SERVICE, PreparedFacts(UNANSWERED, {}, map[]), on).result.NextQuestion?
  {
    FirstItAsks();
    assert Answerable(DEFINITIONS, QUESTION.resolved);
  }

  lemma SelectionPlans(on: Date)
    ensures Select(SMALL, SERVICE, PreparedFacts(ANSWERED, {KEY}, map[]), on).result.Plan?
  {
    ThenItChooses();
    ItResolves(on);
    RuleOn(ANSWERED);
    assert ANSWERED.Keys == {KEY};
    NothingToWeigh(on);
    assert Apply(SMALL, SERVICE, "p", VERSION, PreparedFacts(ANSWERED, {KEY}, map[]), on)
        == Weigh(SMALL, SERVICE, "p", VERSION, PreparedFacts(ANSWERED, {KEY}, map[]), on);
  }

  /** Without answers the example asks its question; with the answer it plans. */
  lemma AsksThenPlans(on: Date)
    ensures PlanStateless(SMALL, Input("s", Answers(UNANSWERED), on)).NextQuestion?
    ensures PlanStateless(SMALL, Input("s", Answers(ANSWERED), on)).Plan?
  {
    assert UNANSWERED.Keys == {} && ANSWERED.Keys == {KEY};
    ExampleReachesSelection(UNANSWERED, on);
    ExampleReachesSelection(ANSWERED, on);
    SelectionAsks(on);
    SelectionPlans(on);
  }
}
