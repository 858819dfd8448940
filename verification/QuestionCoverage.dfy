/**
  Why a published version never leaves the planner without a question to ask: the publication gates require a
  service question for every source Fact behind a consequential rule (knowledge/publication.py,
  knowledge/eligibility_bases.py), and that is what the question picker needs (planning/questions.py).
 */
module QuestionCoverage {
  import opened Wrappers
  import opened Ordering
  import opened Calendar
  import opened Facts
  import opened Rules
  import opened Evaluator
  import opened CasePreparation
  import opened CaseProperties
  import opened Catalog
  import opened Tally
  import opened Guidance
  import opened Prerequisites
  import opened Questions
  import opened Planner

  // ----- _source_fact_keys

  /** The source Facts behind a key, or None for a defect. */
  function SourcesBehind(key: string, definitions: Registry): Option<set<string>> {
    if key !in definitions then None
    else if !definitions[key].derived then Some({key})
    else if key !in DERIVED_KEYS
            || exists s | s in DerivedSources(key) :: s !in definitions || definitions[s].derived then None
    else Some(DerivedSources(key))
  }

  function NeededSources(keys: set<string>, definitions: Registry): set<string> {
    set k, s | k in keys && SourcesBehind(k, definitions).Some? && s in SourcesBehind(k, definitions).value :: s
  }

  function DefectKeys(keys: set<string>, definitions: Registry): set<string> {
    set k | k in keys && SourcesBehind(k, definitions).None?
  }

  lemma OneMoreKey(keys: set<string>, key: string, definitions: Registry)
    ensures var behind := SourcesBehind(key, definitions);
            && NeededSources(keys + {key}, definitions)
               == NeededSources(keys, definitions) + (if behind.Some? then behind.value else {})
            && DefectKeys(keys + {key}, definitions)
               == DefectKeys(keys, definitions) + (if behind.None? then {key} else {})
  {}

  method SourceFactKeys(rules: seq<Predicate>, definitions: Registry)
    returns (sources: set<string>, defects: set<string>)
    ensures sources == NeededSources(KeysOfAll(rules), definitions)
    ensures defects == DefectKeys(KeysOfAll(rules), definitions)
  {
    sources, defects := {}, {};
    for n := 0 to |rules|
      invariant sources == NeededSources(KeysOfAll(rules[..n]), definitions)
      invariant defects == DefectKeys(KeysOfAll(rules[..n]), definitions)
    {
      assert rules[..n + 1][..n] == rules[..n];
      var todo := ReferencedFactKeys(rules[n]);
      ghost var before, own := KeysOfAll(rules[..n]), FactKeys(rules[n]);
      assert before + (own - todo) == before;
      while todo != {}
        invariant todo <= own
        invariant sources == NeededSources(before + (own - todo), definitions)
        invariant defects == DefectKeys(before + (own - todo), definitions)
        decreases todo
      {
        var key :| key in todo;
        OneMoreKey(before + (own - todo), key, definitions);
        assert before + (own - (todo - {key})) == before + (own - todo) + {key};
        todo := todo - {key};
        if key !in definitions {
          defects := defects + {key};
          continue;
        }
        if !definitions[key].derived {
          sources := sources + {key};
          continue;
        }
        if key !in DERIVED_KEYS || exists s | s in DerivedSources(key) :: s !in definitions || definitions[s].derived {
          defects := defects + {key};
        } else {
          sources := sources + DerivedSources(key);
        }
      }
      assert before + (own - todo) == before + own;
    }
    assert rules[..|rules|] == rules;
  }

  // ----- the coverage check

  /** What the gates require of one rule: no defect, and a question for every source Fact behind it. */
  ghost predicate RuleCovered(rule: Predicate, definitions: Registry, questions: seq<Question>) {
    forall k | k in FactKeys(rule) ::
      SourcesBehind(k, definitions).Some? && SourcesBehind(k, definitions).value <= Covered(questions)
  }

  lemma {:induction false} KeysOfAllAreTheirs(rules: seq<Predicate>, k: string)
    ensures k in KeysOfAll(rules) <==> exists i | 0 <= i < |rules| :: k in FactKeys(rules[i])
  {
    if rules != [] {
      var init := rules[..|rules| - 1];
      KeysOfAllAreTheirs(init, k);
      assert forall i | 0 <= i < |init| :: init[i] == rules[i];
    }
  }

  /** The gate's two empty reports say exactly that every rule is covered. */
  lemma CoverageMeansEachRule(rules: seq<Predicate>, definitions: Registry, questions: seq<Question>)
    ensures DefectKeys(KeysOfAll(rules), definitions) == {}
            && NeededSources(KeysOfAll(rules), definitions) <= Covered(questions)
            <==> forall i | 0 <= i < |rules| :: RuleCovered(rules[i], definitions, questions)
  {
    var keys := KeysOfAll(rules);
    if DefectKeys(keys, definitions) == {} && NeededSources(keys, definitions) <= Covered(questions) {
      forall i | 0 <= i < |rules| ensures RuleCovered(rules[i], definitions, questions) {
        forall k | k in FactKeys(rules[i])
          ensures SourcesBehind(k, definitions).Some? && SourcesBehind(k, definitions).value <= Covered(questions)
        {
          KeysOfAllAreTheirs(rules, k);
          assert k !in DefectKeys(keys, definitions);
          assert forall s | s in SourcesBehind(k, definitions).value :: s in NeededSources(keys, definitions);
        }
      }
    }
    if forall i | 0 <= i < |rules| :: RuleCovered(rules[i], definitions, questions) {
      forall k | k in keys
        ensures SourcesBehind(k, definitions).Some? && SourcesBehind(k, definitions).value <= Covered(questions)
      {
        KeysOfAllAreTheirs(rules, k);
      }
    }
  }

  /** Every question of the service names source Facts only. */
  ghost predicate SoundQuestions(definitions: Registry, questions: seq<Question>) {
    forall q | q in questions :: Answerable(definitions, q.resolved)
  }

  // ----- what the planner gets out of it

  /** A missing key of a covered rule expands to source Facts some question resolves. */
  lemma CoveredKeyExpands(key: string, definitions: Registry, questions: seq<Question>, facts: PreparedFacts,
                          source: map<string, FactValue>, on: Date, profile: Profile)
    requires PreparedFrom(facts, DERIVED_KEYS, definitions, source, on) && key !in facts.values
    requires SourcesBehind(key, definitions).Some? && SourcesBehind(key, definitions).value <= Covered(questions)
    ensures Resolvable(key, definitions, questions, facts, profile)
  {
    if definitions[key].derived {
      MissingSourcesOf(key, definitions, facts, source, on);
      assert forall s | s in facts.missingSources[key] :: s in definitions && !definitions[s].derived;
    }
  }

  lemma MissingSourcesOf(key: string, definitions: Registry, facts: PreparedFacts, source: map<string, FactValue>,
                         on: Date)
    requires PreparedFrom(facts, DERIVED_KEYS, definitions, source, on) && key !in facts.values
    requires key in definitions && key in DERIVED_KEYS
    ensures key in facts.missingSources && facts.missingSources[key] == DerivedSources(key) - source.Keys
            && facts.missingSources[key] != {}
  {
    assert CaseProperties.Unavailable(key, definitions, source);
    var s :| s in DerivedSources(key) && s !in source;
    assert s in facts.missingSources[key];
  }

  /** Asked for missing Facts of covered rules, the planner always returns a question. */
  lemma CoveredIsAsked(definitions: Registry, service: Service, facts: PreparedFacts, source: map<string, FactValue>,
                       on: Date, missing: set<string>)
    requires PreparedFrom(facts, DERIVED_KEYS, definitions, source, on)
             && SoundQuestions(definitions, service.questions)
    requires missing != {} && missing !! facts.values.Keys
    requires forall k | k in missing ::
               SourcesBehind(k, definitions).Some? && SourcesBehind(k, definitions).value <= Covered(service.questions)
    ensures AskFor(definitions, service, facts, missing).NextQuestion?
  {
    forall k | k in missing ensures Resolvable(k, definitions, service.questions, facts, ConsequentialProfile) {
      CoveredKeyExpands(k, definitions, service.questions, facts, source, on, ConsequentialProfile);
    }
    PickedExactlyIf(definitions, service.questions, facts, missing, ConsequentialProfile);
    PickedCovers(definitions, service.questions, facts, missing, ConsequentialProfile);
  }

  ghost predicate CoveredIfAny(rule: Option<Predicate>, definitions: Registry, questions: seq<Question>) {
    rule.Some? ==> Shaped(rule.value) && RuleCovered(rule.value, definitions, questions)
  }

  /** The consequential rules of a version are covered: those every gate collects, current or not. */
  ghost predicate VersionCovered(v: Version, definitions: Registry, questions: seq<Question>) {
    && Shaped(v.applicability) && RuleCovered(v.applicability, definitions, questions)
    && (forall r | r in v.checklist && r.classification == OfficialRequirement && !r.scope.OtherScope? ::
          CoveredIfAny(r.applicability, definitions, questions))
    && (forall r | r in v.steps && !r.scope.OtherScope? :: CoveredIfAny(r.applicability, definitions, questions))
    && (forall r | r in v.fees && !r.scope.OtherScope? :: CoveredIfAny(r.applicability, definitions, questions))
    && (forall r | r in v.bases ::
          CoveredIfAny(r.reachability, definitions, questions) && CoveredIfAny(r.qualification, definitions, questions))
    && (forall r | r in v.dependencies ::
          CoveredIfAny(r.applicability, definitions, questions)
          && CoveredIfAny(r.satisfiedWhen, definitions, questions))
  }

  /** The key has no value yet, and a question of the service leads to one. */
  ghost predicate Obtainable(k: string, definitions: Registry, questions: seq<Question>, facts: PreparedFacts) {
    && k !in facts.values
    && SourcesBehind(k, definitions).Some? && SourcesBehind(k, definitions).value <= Covered(questions)
  }

  lemma UnansweredIsObtainable(rule: Option<Predicate>, definitions: Registry, questions: seq<Question>,
                               facts: PreparedFacts)
    requires CoveredIfAny(rule, definitions, questions)
    ensures forall k | k in Unanswered(rule, facts) :: Obtainable(k, definitions, questions, facts)
  {
    if rule.Some? { UnknownExactlyIfMissing(rule.value, facts.values, facts.submittedKeys); }
  }

  /** If every row asks only for obtainable Facts, the selection's missing Facts can be asked for. */
  lemma ObtainableIsAsked<R, P>(rows: seq<R>, effect: R -> Effect<P>, definitions: Registry, service: Service,
                                facts: PreparedFacts, source: map<string, FactValue>, on: Date)
    requires PreparedFrom(facts, DERIVED_KEYS, definitions, source, on)
             && SoundQuestions(definitions, service.questions)
    requires forall r, k | r in rows && k in effect(r).asks :: Obtainable(k, definitions, service.questions, facts)
    ensures Total(rows, effect).missing == {}
            || AskFor(definitions, service, facts, Total(rows, effect).missing).NextQuestion?
  {
    var missing := Total(rows, effect).missing;
    TotalAsks(rows, effect);
    forall k | k in missing ensures Obtainable(k, definitions, service.questions, facts) {
      var i :| 0 <= i < |rows| && k in effect(rows[i]).asks;
      assert rows[i] in rows;
    }
    if missing != {} {
      CoveredIsAsked(definitions, service, facts, source, on, missing);
    }
  }

  lemma ChecklistIsAsked(definitions: Registry, service: Service, v: Version, c: Case, source: map<string, FactValue>)
    requires PreparedFrom(c.facts, DERIVED_KEYS, definitions, source, c.on)
             && SoundQuestions(definitions, service.questions)
    requires VersionCovered(v, definitions, service.questions)
    ensures var missing := SelectChecklist(v, c).missing;
            missing == {} || AskFor(definitions, service, c.facts, missing).NextQuestion?
  {
    var rows, effect := SortBy(v.checklist, ItemLe), ChecklistEffects(c);
    SortKeeps(v.checklist, ItemLe);
    forall r, k | r in rows && k in effect(r).asks ensures Obtainable(k, definitions, service.questions, c.facts) {
      ChecklistAsksOfficial(r, c);
      UnansweredIsObtainable(r.applicability, definitions, service.questions, c.facts);
    }
    ObtainableIsAsked(rows, effect, definitions, service, c.facts, source, c.on);
  }

  lemma StepsAreAsked(definitions: Registry, service: Service, v: Version, c: Case, source: map<string, FactValue>)
    requires PreparedFrom(c.facts, DERIVED_KEYS, definitions, source, c.on)
             && SoundQuestions(definitions, service.questions)
    requires VersionCovered(v, definitions, service.questions)
    ensures var missing := SelectStepRows(v, c).missing;
            missing == {} || AskFor(definitions, service, c.facts, missing).NextQuestion?
  {
    var rows, effect := SortBy(v.steps, StepLe), StepEffects(c);
    SortKeeps(v.steps, StepLe);
    forall r, k | r in rows && k in effect(r).asks ensures Obtainable(k, definitions, service.questions, c.facts) {
      StepAsks(r, c);
      UnansweredIsObtainable(r.applicability, definitions, service.questions, c.facts);
    }
    ObtainableIsAsked(rows, effect, definitions, service, c.facts, source, c.on);
  }

  lemma FeesAreAsked(definitions: Registry, service: Service, v: Version, c: Case, source: map<string, FactValue>)
    requires PreparedFrom(c.facts, DERIVED_KEYS, definitions, source, c.on)
             && SoundQuestions(definitions, service.questions)
    requires VersionCovered(v, definitions, service.questions)
    ensures var missing := SelectFeeRows(v, c).missing;
            missing == {} || AskFor(definitions, service, c.facts, missing).NextQuestion?
  {
    var rows, effect := SortBy(v.fees, FeeLe), FeeEffects(c);
    SortKeeps(v.fees, FeeLe);
    forall r, k | r in rows && k in effect(r).asks ensures Obtainable(k, definitions, service.questions, c.facts) {
      FeeAsks(r, c);
      UnansweredIsObtainable(r.applicability, definitions, service.questions, c.facts);
    }
    ObtainableIsAsked(rows, effect, definitions, service, c.facts, source, c.on);
  }

  lemma BasesAreAsked(definitions: Registry, service: Service, v: Version, facts: PreparedFacts,
                      source: map<string, FactValue>, on: Date)
    requires PreparedFrom(facts, DERIVED_KEYS, definitions, source, on)
             && SoundQuestions(definitions, service.questions)
    requires VersionCovered(v, definitions, service.questions)
    ensures var missing := SelectBases(v, facts, on).missing;
            missing == {} || AskFor(definitions, service, facts, missing).NextQuestion?
  {
    var rows, effect := SortBy(v.bases, BasisLe), BasisEffects(facts, on);
    SortKeeps(v.bases, BasisLe);
    forall r, k | r in rows && k in effect(r).asks ensures Obtainable(k, definitions, service.questions, facts) {
      UnansweredIsObtainable(r.reachability, definitions, service.questions, facts);
      UnansweredIsObtainable(r.qualification, definitions, service.questions, facts);
      BasisAsks(r, facts, on);
    }
    ObtainableIsAsked(rows, effect, definitions, service, facts, source, on);
  }

  lemma DependenciesAreAsked(s: Snapshot, service: Service, v: Version, facts: PreparedFacts,
                             source: map<string, FactValue>, on: Date)
    requires PreparedFrom(facts, DERIVED_KEYS, s.definitions, source, on)
             && SoundQuestions(s.definitions, service.questions)
    requires VersionCovered(v, s.definitions, service.questions)
    ensures var missing := SelectDependencies(s, v, facts, on).missing;
            missing == {} || AskFor(s.definitions, service, facts, missing).NextQuestion?
  {
    var rows, effect := SortBy(v.dependencies, DependencyLe), DependencyEffects(s, facts, on);
    SortKeeps(v.dependencies, DependencyLe);
    forall r, k | r in rows && k in effect(r).asks ensures Obtainable(k, s.definitions, service.questions, facts) {
      UnansweredIsObtainable(r.applicability, s.definitions, service.questions, facts);
      UnansweredIsObtainable(r.satisfiedWhen, s.definitions, service.questions, facts);
      DependencyAsks(r, s, facts, on);
    }
    ObtainableIsAsked(rows, effect, s.definitions, service, facts, source, on);
  }

  /**
    For a version that passed the coverage checks, a phase that lacks Facts always has a question: whenever the
    version's applicability, bases, dependencies, checklist, steps or fees leave something open, the planner asks.
   */
  lemma CoveredVersionsAlwaysAsk(s: Snapshot, service: Service, v: Version, facts: PreparedFacts,
                                 source: map<string, FactValue>, on: Date)
    requires PreparedFrom(facts, DERIVED_KEYS, s.definitions, source, on)
             && SoundQuestions(s.definitions, service.questions)
    requires VersionCovered(v, s.definitions, service.questions)
    ensures Eval(v.applicability, facts.values, facts.submittedKeys) == UNKNOWN ==>
              var missing := MissingFacts(v.applicability, facts.values, facts.submittedKeys);
              AskFor(s.definitions, service, facts, missing).NextQuestion?
    ensures var bases := SelectBases(v, facts, on); var c := CaseOf(v, facts, on, bases);
            && (bases.missing != {} ==> AskFor(s.definitions, service, facts, bases.missing).NextQuestion?)
            && (SelectDependencies(s, v, facts, on).missing != {} ==>
                  AskFor(s.definitions, service, facts, SelectDependencies(s, v, facts, on).missing).NextQuestion?)
            && (SelectChecklist(v, c).missing != {} ==>
                  AskFor(s.definitions, service, facts, SelectChecklist(v, c).missing).NextQuestion?)
            && (SelectStepRows(v, c).missing != {} ==>
                  AskFor(s.definitions, service, facts, SelectStepRows(v, c).missing).NextQuestion?)
            && (SelectFeeRows(v, c).missing != {} ==>
                  AskFor(s.definitions, service, facts, SelectFeeRows(v, c).missing).NextQuestion?)
  {
    var c := CaseOf(v, facts, on, SelectBases(v, facts, on));
    if Eval(v.applicability, facts.values, facts.submittedKeys) == UNKNOWN {
      ApplicabilityIsAsked(s.definitions, service, v.applicability, facts, source, on);
    }
    BasesAreAsked(s.definitions, service, v, facts, source, on);
    DependenciesAreAsked(s, service, v, facts, source, on);
    ChecklistIsAsked(s.definitions, service, v, c, source);
    StepsAreAsked(s.definitions, service, v, c, source);
    FeesAreAsked(s.definitions, service, v, c, source);
  }

  lemma ApplicabilityIsAsked(definitions: Registry, service: Service, rule: Predicate, facts: PreparedFacts,
                             source: map<string, FactValue>, on: Date)
    requires PreparedFrom(facts, DERIVED_KEYS, definitions, source, on)
             && SoundQuestions(definitions, service.questions)
    requires Shaped(rule) && RuleCovered(rule, definitions, service.questions)
    requires Eval(rule, facts.values, facts.submittedKeys) == UNKNOWN
    ensures AskFor(definitions, service, facts, MissingFacts(rule, facts.values, facts.submittedKeys)).NextQuestion?
  {
    UnknownExactlyIfMissing(rule, facts.values, facts.submittedKeys);
    CoveredIsAsked(definitions, service, facts, source, on, MissingFacts(rule, facts.values, facts.submittedKeys));
  }
}
