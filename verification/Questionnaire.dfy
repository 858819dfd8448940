/**
  Whole runs of the questionnaire: it terminates, never asks a settled question again, never
  returns to an earlier phase, and never changes its mind about the Procedure.
 */
module Questionnaire {
  import opened Wrappers
  import opened Ordering
  import opened Calendar
  import opened Facts
  import opened Rules
  import opened Evaluator
  import opened CasePreparation
  import opened CaseProperties
  import opened Catalog
  import opened Tally
  import opened Versions
  import opened Guidance
  import opened Prerequisites
  import opened Questions
  import opened Planner

  // ----- missing Facts are always unsubmitted

  lemma {:induction false} MissingIsAbsent(p: Predicate, facts: map<string, FactValue>, submitted: set<string>)
    ensures MissingFacts(p, facts, submitted) !! facts.Keys
  {
    if p.op.All? || p.op.Any? {
      var ts := seq(|p.children|, i requires 0 <= i < |p.children| => TraceOf(p.children[i], facts, submitted));
      forall i | 0 <= i < |ts| ensures ts[i].missing !! facts.Keys {
        MissingIsAbsent(p.children[i], facts, submitted);
      }
    } else if p.op.Not? && p.children != [] {
      MissingIsAbsent(p.children[0], facts, submitted);
    }
  }

  lemma UnansweredIsAbsent(rule: Option<Predicate>, facts: PreparedFacts)
    ensures Unanswered(rule, facts) !! facts.values.Keys
  {
    if rule.Some? { MissingIsAbsent(rule.value, facts.values, facts.submittedKeys); }
  }

  lemma {:induction false} MissingForAllIsAbsent(candidates: seq<Candidate>, facts: PreparedFacts)
    ensures MissingForAll(candidates, facts) !! facts.values.Keys
  {
    if candidates != [] {
      MissingForAllIsAbsent(candidates[..|candidates| - 1], facts);
      MissingIsAbsent(candidates[|candidates| - 1].selection, facts.values, facts.submittedKeys);
    }
  }

  /** Expanding absent Facts only names source Facts that were not submitted. */
  lemma SourcesAreUnsubmitted(facts: PreparedFacts, keys: seq<string>, definitions: Registry,
                              source: map<string, FactValue>, on: Date, missing: set<string>, profile: Profile)
    requires PreparedFrom(facts, keys, definitions, source, on)
    requires missing !! facts.values.Keys
    ensures SourceFacts(missing, definitions, facts, profile) !! source.Keys
  {
    forall k, s | k in missing && Expand(k, definitions, facts, profile).Sources?
           && s in Expand(k, definitions, facts, profile).keys
      ensures s !in source
    {
      if k in definitions && definitions[k].derived {
        assert k in facts.missingSources;
        assert facts.missingSources[k] == DerivedSources(k) - source.Keys;
      }
    }
  }

  /** Only defined source Facts. */
  ghost predicate NamesSources(q: PublicQuestion, definitions: Registry) {
    forall i | 0 <= i < |q.answers| :: q.answers[i].key in definitions && !definitions[q.answers[i].key].derived
  }

  /** At least one of its Facts has not been submitted. */
  ghost predicate HasGap(q: PublicQuestion, submitted: set<string>) {
    exists i | 0 <= i < |q.answers| :: q.answers[i].key !in submitted
  }

  /** The questions of a service a client can ever see. */
  function Askable(definitions: Registry, questions: seq<Question>): set<PublicQuestion> {
    if questions == [] then {}
    else
      var last := questions[|questions| - 1];
      Askable(definitions, questions[..|questions| - 1])
      + (if Answerable(definitions, last.resolved) then {Projected(definitions, last)} else {})
  }

  lemma {:induction false} AskableMember(definitions: Registry, questions: seq<Question>, i: nat)
    requires i < |questions| && Answerable(definitions, questions[i].resolved)
    ensures Projected(definitions, questions[i]) in Askable(definitions, questions)
  {
    if i < |questions| - 1 { AskableMember(definitions, questions[..|questions| - 1], i); }
  }

  function Projected(definitions: Registry, q: Question): PublicQuestion
    requires Answerable(definitions, q.resolved)
  {
    PublicQuestion(q.id, q.text, AnswersOf(definitions, q.resolved))
  }

  lemma ProjectionMeaning(definitions: Registry, q: Question, submitted: set<string>, sources: set<string>)
    requires Answerable(definitions, q.resolved)
    ensures NamesSources(Projected(definitions, q), definitions)
    ensures Covers(q, sources) && sources !! submitted ==> HasGap(Projected(definitions, q), submitted)
  {
    var answers := AnswersOf(definitions, q.resolved);
    assert forall j | 0 <= j < |answers| :: answers[j].key == q.resolved[j];
    if Covers(q, sources) && sources !! submitted {
      var k :| k in q.resolved && k in sources;
      var i :| 0 <= i < |q.resolved| && q.resolved[i] == k;
      assert answers[i].key !in submitted;
    }
  }

  lemma AskedIsOpen(definitions: Registry, service: Service, facts: PreparedFacts, keys: seq<string>,
                    source: map<string, FactValue>, on: Date, missing: set<string>, profile: Profile, r: Result)
    requires PreparedFrom(facts, keys, definitions, source, on)
    requires AskedFor(r, definitions, service, facts, missing, profile) && r.NextQuestion?
    ensures NamesSources(r.question, definitions) && HasGap(r.question, source.Keys)
    ensures r.question in Askable(definitions, service.questions)
  {
    var picked := PickQuestion(definitions, service.questions, facts, missing, profile).question;
    PickedCovers(definitions, service.questions, facts, missing, profile);
    SourcesAreUnsubmitted(facts, keys, definitions, source, on, missing, profile);
    ProjectionMeaning(definitions, picked, source.Keys, SourceFacts(missing, definitions, facts, profile));
    var i :| 0 <= i < |service.questions| && service.questions[i] == picked;
    AskableMember(definitions, service.questions, i);
  }

  // ----- which missing set a question came from

  /** The result is the projection of the question picked for these missing Facts. */
  ghost predicate AskedFor(r: Result, definitions: Registry, service: Service, facts: PreparedFacts,
                           missing: set<string>, profile: Profile) {
    && missing !! facts.values.Keys
    && PickQuestion(definitions, service.questions, facts, missing, profile).Picked?
    && r == QuestionResult(definitions, service.id,
                           PickQuestion(definitions, service.questions, facts, missing, profile).question)
  }

  lemma AskForAsks(definitions: Registry, service: Service, facts: PreparedFacts, missing: set<string>)
    requires missing !! facts.values.Keys && AskFor(definitions, service, facts, missing).NextQuestion?
    ensures AskedFor(AskFor(definitions, service, facts, missing), definitions, service, facts, missing,
                     ConsequentialProfile)
  {}

  lemma {:induction false} TotalAsksWithin<R, P>(rows: seq<R>, effect: R -> Effect<P>, present: set<string>)
    requires forall r | r in rows :: effect(r).asks !! present
    ensures Total(rows, effect).missing !! present
  {
    TotalAsks(rows, effect);
    forall k | k in Total(rows, effect).missing ensures k !in present {
      var i :| 0 <= i < |rows| && k in effect(rows[i]).asks;
      assert rows[i] in rows;
    }
  }

  lemma BasesAskAbsent(v: Version, facts: PreparedFacts, on: Date)
    ensures SelectBases(v, facts, on).missing !! facts.values.Keys
  {
    var effect := BasisEffects(facts, on);
    forall r ensures effect(r).asks !! facts.values.Keys {
      BasisAsks(r, facts, on);
      UnansweredIsAbsent(r.reachability, facts);
      UnansweredIsAbsent(r.qualification, facts);
    }
    TotalAsksWithin(SortBy(v.bases, BasisLe), effect, facts.values.Keys);
  }

  lemma DependenciesAskAbsent(s: Snapshot, v: Version, facts: PreparedFacts, on: Date)
    ensures SelectDependencies(s, v, facts, on).missing !! facts.values.Keys
  {
    var effect := DependencyEffects(s, facts, on);
    forall r ensures effect(r).asks !! facts.values.Keys {
      UnansweredIsAbsent(r.applicability, facts);
      UnansweredIsAbsent(r.satisfiedWhen, facts);
      DependencyAsks(r, s, facts, on);
    }
    TotalAsksWithin(SortBy(v.dependencies, DependencyLe), effect, facts.values.Keys);
  }

  lemma ChecklistAsksAbsent(v: Version, c: Case)
    ensures SelectChecklist(v, c).missing !! c.facts.values.Keys
  {
    var effect := ChecklistEffects(c);
    forall r ensures effect(r).asks !! c.facts.values.Keys {
      ChecklistAsksOfficial(r, c);
      UnansweredIsAbsent(r.applicability, c.facts);
    }
    TotalAsksWithin(SortBy(v.checklist, ItemLe), effect, c.facts.values.Keys);
  }

  lemma StepsAskAbsent(v: Version, c: Case)
    ensures SelectStepRows(v, c).missing !! c.facts.values.Keys
  {
    var effect := StepEffects(c);
    forall r ensures effect(r).asks !! c.facts.values.Keys {
      StepAsks(r, c);
      UnansweredIsAbsent(r.applicability, c.facts);
    }
    TotalAsksWithin(SortBy(v.steps, StepLe), effect, c.facts.values.Keys);
  }

  lemma FeesAskAbsent(v: Version, c: Case)
    ensures SelectFeeRows(v, c).missing !! c.facts.values.Keys
  {
    var effect := FeeEffects(c);
    forall r ensures effect(r).asks !! c.facts.values.Keys {
      FeeAsks(r, c);
      UnansweredIsAbsent(r.applicability, c.facts);
    }
    TotalAsksWithin(SortBy(v.fees, FeeLe), effect, c.facts.values.Keys);
  }

  lemma WhatSelectAsked(s: Snapshot, service: Service, facts: PreparedFacts, on: Date)
    returns (missing: set<string>, profile: Profile)
    requires Select(s, service, facts, on).result.NextQuestion?
    ensures AskedFor(Select(s, service, facts, on).result, s.definitions, service, facts, missing, profile)
  {
    profile := ConsequentialProfile;
    match Choose(s.definitions, service, facts)
    case AskFirst(q) =>
      var unknown := WithValue(SortBy(service.candidates, CandidateLe), facts, UNKNOWN);
      MissingForAllIsAbsent(unknown, facts);
      missing, profile := MissingForAll(unknown, facts), SelectionProfile;
    case Selected(procedure) =>
      var v := Resolve(s, procedure, on, None).version;
      var applies := TraceOf(v.applicability, facts.values, facts.submittedKeys);
      if applies.result == UNKNOWN {
        missing := applies.missing;
        MissingIsAbsent(v.applicability, facts.values, facts.submittedKeys);
        AskForAsks(s.definitions, service, facts, missing);
      } else {
        missing := WhatWeighAsked(s, service, procedure, v, facts, on);
      }
  }

  lemma WhatWeighAsked(s: Snapshot, service: Service, procedure: string, v: Version, facts: PreparedFacts, on: Date)
    returns (missing: set<string>)
    requires Weigh(s, service, procedure, v, facts, on).result.NextQuestion?
    ensures AskedFor(Weigh(s, service, procedure, v, facts, on).result, s.definitions, service, facts, missing,
                     ConsequentialProfile)
  {
    var bases, dependencies := SelectBases(v, facts, on), SelectDependencies(s, v, facts, on);
    if bases.missing != {} {
      missing := bases.missing;
      BasesAskAbsent(v, facts, on);
    } else if dependencies.missing != {} {
      missing := dependencies.missing;
      DependenciesAskAbsent(s, v, facts, on);
    } else {
      missing := WhatItemsAsked(s, service, procedure, v, CaseOf(v, facts, on, bases), on, bases, dependencies);
      return;
    }
    AskForAsks(s.definitions, service, facts, missing);
  }

  lemma WhatItemsAsked(s: Snapshot, service: Service, procedure: string, v: Version, c: Case, on: Date,
                       bases: Selection<PublicBasis>, dependencies: Selection<PublicDependency>)
    returns (missing: set<string>)
    requires ListItems(s, service, procedure, v, c, on, bases, dependencies).result.NextQuestion?
    ensures AskedFor(ListItems(s, service, procedure, v, c, on, bases, dependencies).result, s.definitions, service,
                     c.facts, missing, ConsequentialProfile)
  {
    if SelectChecklist(v, c).missing != {} {
      missing := SelectChecklist(v, c).missing;
      ChecklistAsksAbsent(v, c);
      AskForAsks(s.definitions, service, c.facts, missing);
    } else {
      missing := WhatStepsAsked(s, service, procedure, v, c, on, bases, dependencies);
    }
  }

  lemma WhatStepsAsked(s: Snapshot, service: Service, procedure: string, v: Version, c: Case, on: Date,
                       bases: Selection<PublicBasis>, dependencies: Selection<PublicDependency>)
    returns (missing: set<string>)
    requires ListSteps(s, service, procedure, v, c, on, bases, dependencies).result.NextQuestion?
    ensures AskedFor(ListSteps(s, service, procedure, v, c, on, bases, dependencies).result, s.definitions, service,
                     c.facts, missing, ConsequentialProfile)
  {
    if SelectStepRows(v, c).missing != {} {
      missing := SelectStepRows(v, c).missing;
      StepsAskAbsent(v, c);
      AskForAsks(s.definitions, service, c.facts, missing);
    } else {
      missing := WhatFeesAsked(s, service, procedure, v, c, on, bases, dependencies);
    }
  }

  lemma WhatFeesAsked(s: Snapshot, service: Service, procedure: string, v: Version, c: Case, on: Date,
                      bases: Selection<PublicBasis>, dependencies: Selection<PublicDependency>)
    returns (missing: set<string>)
    requires ListFees(s, service, procedure, v, c, on, bases, dependencies).result.NextQuestion?
    ensures AskedFor(ListFees(s, service, procedure, v, c, on, bases, dependencies).result, s.definitions, service,
                     c.facts, missing, ConsequentialProfile)
  {
    missing := SelectFeeRows(v, c).missing;
    FeesAskAbsent(v, c);
    AskForAsks(s.definitions, service, c.facts, missing);
  }

  lemma AcceptedAgain(facts: map<string, RawValue>, definitions: Registry)
    requires SubmittedFacts(facts, definitions).ValidFacts?
    ensures var copied := SubmittedFacts(facts, definitions).facts;
            AsRaw(copied) == facts && SubmittedFacts(AsRaw(copied), definitions) == ValidFacts(copied)
  {
    AcceptanceCopiesAll(facts, definitions);
  }

  /**
    A question never repeats settled ground: it names only defined source Facts, and at least one has no answer
    yet.
   */
  lemma EveryQuestionIsOpen(s: Snapshot, input: Input)
    requires PlanStateless(s, input).NextQuestion?
    ensures FindService(s.services, input.service).Some?
    ensures NamesSources(PlanStateless(s, input).question, s.definitions)
    ensures HasGap(PlanStateless(s, input).question, input.facts.Keys)
    ensures PlanStateless(s, input).question
            in Askable(s.definitions, FindService(s.services, input.service).value.questions)
  {
    var service := FindService(s.services, input.service).value;
    AcceptedAgain(input.facts, s.definitions);
    var source := PreparationMeaning(s.definitions, service.contradictions, input.facts, input.on);
    var facts := Prepare(s.definitions, service.contradictions, input.facts, input.on).facts;
    var missing, profile := WhatSelectAsked(s, service, facts, input.on);
    AskedIsOpen(s.definitions, service, facts, DERIVED_KEYS, source, input.on, missing, profile,
                PlanStateless(s, input));
  }

  // ----- runs

  /** The client answered the question completely. */
  ghost predicate Answered(q: PublicQuestion, facts: map<string, RawValue>) {
    forall a | 0 <= a < |q.answers| :: q.answers[a].key in facts
  }

  ghost predicate AllAsk(s: Snapshot, run: seq<Input>) {
    forall i | 0 <= i < |run| :: PlanStateless(s, run[i]).NextQuestion?
  }

  /** The client answers every asked question completely, in any way, and keeps earlier answers submitted. */
  ghost predicate IsRun(s: Snapshot, run: seq<Input>) {
    && AllAsk(s, run)
    && (forall i | 0 <= i < |run| :: run[i].service == run[0].service)
    && forall i, j | 0 <= i < j < |run| ::
         run[i].facts.Keys <= run[j].facts.Keys && Answered(PlanStateless(s, run[i]).question, run[j].facts)
  }

  lemma {:induction false} AskableBound(definitions: Registry, questions: seq<Question>)
    ensures |Askable(definitions, questions)| <= |questions|
  {
    if questions != [] { AskableBound(definitions, questions[..|questions| - 1]); }
  }

  function AskedIn(s: Snapshot, run: seq<Input>): seq<PublicQuestion>
    requires AllAsk(s, run)
  {
    seq(|run|, i requires 0 <= i < |run| => PlanStateless(s, run[i]).question)
  }

  /** A settled question is never asked again. */
  lemma SettledIsNotAsked(s: Snapshot, q: PublicQuestion, later: Input)
    requires PlanStateless(s, later).NextQuestion? && Answered(q, later.facts)
    ensures PlanStateless(s, later).question != q
  {
    EveryQuestionIsOpen(s, later);
  }

  lemma RoundsAskDistinctQuestions(s: Snapshot, run: seq<Input>)
    requires IsRun(s, run)
    ensures forall i, j | 0 <= i < j < |run| :: AskedIn(s, run)[i] != AskedIn(s, run)[j]
  {
    forall i, j | 0 <= i < j < |run| ensures AskedIn(s, run)[i] != AskedIn(s, run)[j] {
      SettledIsNotAsked(s, PlanStateless(s, run[i]).question, run[j]);
    }
  }

  function Members<T>(xs: seq<T>): set<T> {
    set x | x in xs
  }

  lemma {:induction false} DistinctSize<T>(xs: seq<T>)
    requires forall i, j | 0 <= i < j < |xs| :: xs[i] != xs[j]
    ensures |Members(xs)| == |xs|
  {
    if xs != [] {
      var init, last := xs[..|xs| - 1], xs[|xs| - 1];
      DistinctSize(init);
      assert Members(xs) == Members(init) + {last};
    }
  }

  lemma SubsetSize<T>(a: set<T>, b: set<T>)
    requires a <= b
    ensures |a| <= |b|
  {
    assert b == a + (b - a);
  }

  /** The questionnaire terminates: a run has at most as many rounds as the service has questions. */
  lemma RunsAreBounded(s: Snapshot, run: seq<Input>)
    requires IsRun(s, run) && run != []
    ensures FindService(s.services, run[0].service).Some?
    ensures |run| <= |FindService(s.services, run[0].service).value.questions|
  {
    EveryQuestionIsOpen(s, run[0]);
    var questions := FindService(s.services, run[0].service).value.questions;
    RoundsAskDistinctQuestions(s, run);
    var asked := AskedIn(s, run);
    forall i | 0 <= i < |run| ensures asked[i] in Askable(s.definitions, questions) {
      EveryQuestionIsOpen(s, run[i]);
    }
    DistinctSize(asked);
    SubsetSize(Members(asked), Askable(s.definitions, questions));
    AskableBound(s.definitions, questions);
  }
}
