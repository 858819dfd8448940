/**
  What each coverage gate reports, and about which rules (knowledge/publication.py, eligibility_bases.py,
  procedure_dependencies.py, selection.py): every rule that does not decode, every key without sound sources, every
  source Fact no question resolves, and nothing else.
 */
module CoverageLaws {
  import opened Wrappers
  import opened Facts
  import opened Rules
  import opened Evaluator
  import opened EvaluatorLaws
  import opened CasePreparation
  import opened Catalog
  import opened Guidance
  import opened Questions
  import opened Planner
  import opened QuestionCoverage
  import opened CoverageGates

  // ----- what is behind a key

  predicate IsSource(k: string, definitions: Registry) {
    k in definitions && !definitions[k].derived
  }

  /** What the five derived Facts are derived from. */
  predicate DerivesFrom(k: string, source: string) {
    || (k == AGE && source == BIRTH)
    || (k == ONLY_SON && (source == FATHER_ALIVE || source == OTHER_SONS))
    || ((k == CARD_EXPIRED || k == DEADLINE || k == DEADLINE_PASSED) && source == EXPIRY)
  }

  /** The key is a source Fact, or one of the derived Facts with all that it derives from. */
  predicate Sound(k: string, definitions: Registry) {
    && k in definitions
    && (definitions[k].derived ==>
          && k in DERIVED_KEYS
          && forall source | source in DerivedSources(k) :: IsSource(source, definitions))
  }

  predicate Behind(k: string, source: string, definitions: Registry) {
    Sound(k, definitions) && if definitions[k].derived then DerivesFrom(k, source) else source == k
  }

  lemma DerivesExactlyIf(k: string, source: string)
    requires k in DERIVED_KEYS
    ensures source in DerivedSources(k) <==> DerivesFrom(k, source)
  {}

  lemma BehindExactlyIf(k: string, source: string, definitions: Registry)
    ensures SourcesBehind(k, definitions).Some? <==> Sound(k, definitions)
    ensures SourcesBehind(k, definitions).Some? ==>
              (source in SourcesBehind(k, definitions).value <==> Behind(k, source, definitions))
  {
    if k in DERIVED_KEYS { DerivesExactlyIf(k, source); }
  }

  // ----- what is reported about some rules

  /** The part of a report about rules and keys. */
  ghost predicate RulesReported(f: CoverageFailure, consulted: Predicate -> bool, definitions: Registry,
                                asked: string -> bool) {
    match f
    case InvalidRule(rule) => consulted(rule) && !DecodesStored(rule, definitions)
    case InvalidDerivedDependency(k) =>
      !Sound(k, definitions)
      && exists rule :: consulted(rule) && DecodesStored(rule, definitions) && Mentions(rule, k)
    case MissingServiceQuestion(source) =>
      !asked(source)
      && exists rule, k :: && consulted(rule) && DecodesStored(rule, definitions) && Mentions(rule, k)
                           && Behind(k, source, definitions)
    case _ => false
  }

  lemma {:induction false} KeptMean(rules: seq<Predicate>, ok: Predicate -> bool)
    ensures forall p :: p in Kept(rules, ok) <==> p in rules && ok(p)
    ensures forall f :: f in Refused(rules, ok) <==> f.InvalidRule? && f.rule in rules && !ok(f.rule)
  {
    if rules != [] {
      KeptMean(rules[..|rules| - 1], ok);
      assert forall p :: p in rules <==> p in rules[..|rules| - 1] || p == rules[|rules| - 1];
    }
  }

  lemma KeysMean(rules: seq<Predicate>, k: string)
    ensures k in KeysOfAll(rules) <==> exists rule :: rule in rules && Mentions(rule, k)
  {
    KeysOfAllMean(rules, k);
    forall rule | rule in rules { MentionedExactlyIf(rule, k); }
    if rule :| rule in rules && Mentions(rule, k) {
      var i :| 0 <= i < |rules| && rules[i] == rule;
      assert k in FactKeys(rules[i]);
    }
    if i :| 0 <= i < |rules| && k in FactKeys(rules[i]) { assert rules[i] in rules; }
  }

  lemma DecodedMean(rules: seq<Predicate>, definitions: Registry)
    ensures forall p :: p in Decoded(rules, definitions) <==> p in rules && DecodesStored(p, definitions)
    ensures forall f :: f in Undecoded(rules, definitions)
                        <==> f.InvalidRule? && f.rule in rules && !DecodesStored(f.rule, definitions)
  {
    KeptMean(rules, Decodes(definitions));
  }

  lemma KeyFailuresMean(rules: seq<Predicate>, definitions: Registry, covered: set<string>, f: CoverageFailure)
    ensures f in KeyFailures(rules, definitions, covered)
            <==> || (f.InvalidDerivedDependency? && !Sound(f.key, definitions) && f.key in KeysOfAll(rules))
                 || (f.MissingServiceQuestion? && f.key !in covered
                     && exists k :: k in KeysOfAll(rules) && Behind(k, f.key, definitions))
  {
    if f.InvalidDerivedDependency? { BehindExactlyIf(f.key, f.key, definitions); }
    if f.MissingServiceQuestion? {
      forall k { BehindExactlyIf(k, f.key, definitions); }
    }
  }

  lemma RulesReportedExactlyIf(rules: seq<Predicate>, consulted: Predicate -> bool, definitions: Registry,
                               covered: set<string>, f: CoverageFailure)
    requires forall p :: p in rules <==> consulted(p)
    ensures f in Undecoded(rules, definitions) + KeyFailures(Decoded(rules, definitions), definitions, covered)
            <==> RulesReported(f, consulted, definitions, (k: string) => k in covered)
  {
    var decoded := Decoded(rules, definitions);
    DecodedMean(rules, definitions);
    KeyFailuresMean(decoded, definitions, covered, f);
    forall k ensures k in KeysOfAll(decoded)
                     <==> exists rule :: consulted(rule) && DecodesStored(rule, definitions) && Mentions(rule, k)
    {
      KeysMean(decoded, k);
    }
    if f.MissingServiceQuestion? {
      forall rule, k | consulted(rule) && DecodesStored(rule, definitions) && Mentions(rule, k)
        ensures k in KeysOfAll(decoded)
      {}
    }
  }

  // ----- which rules each gate consults

  lemma {:induction false} RulesOfMean<R>(rows: seq<R>, own: R -> seq<Predicate>, p: Predicate)
    ensures p in RulesOf(rows, own) <==> exists r | r in rows :: p in own(r)
  {
    if rows != [] {
      var init, last := rows[..|rows| - 1], rows[|rows| - 1];
      RulesOfMean(init, own, p);
      assert forall r :: r in rows <==> r in init || r == last;
    }
  }

  /** The version's own rule, and those that decide what an official item, a step or a fee is for. */
  predicate Applicability(v: Version, p: Predicate) {
    || p == v.applicability
    || (exists r | r in v.checklist ::
          r.applicability == Some(p) && r.classification == OfficialRequirement && r.scope != OtherScope)
    || (exists r | r in v.steps :: r.applicability == Some(p) && r.scope != OtherScope)
    || (exists r | r in v.fees :: r.applicability == Some(p) && r.scope != OtherScope)
  }

  predicate OfBases(v: Version, p: Predicate) {
    exists r | r in v.bases :: r.reachability == Some(p) || r.qualification == Some(p)
  }

  predicate OfDependencies(v: Version, p: Predicate) {
    exists r | r in v.dependencies :: r.applicability == Some(p) || r.satisfiedWhen == Some(p)
  }

  lemma ApplicabilityExactlyIf(v: Version, p: Predicate)
    ensures p in ApplicabilityRules(v) <==> Applicability(v, p)
  {
    RulesOfMean(v.checklist, OfficialRules(), p);
    RulesOfMean(v.steps, StepRules(), p);
    RulesOfMean(v.fees, FeeRules(), p);
    assert forall r: ChecklistItem ::
        p in OfficialRules()(r) <==>
        r.applicability == Some(p) && r.classification == OfficialRequirement && r.scope != OtherScope;
    assert forall r: Step :: p in StepRules()(r) <==> r.applicability == Some(p) && r.scope != OtherScope;
    assert forall r: Fee :: p in FeeRules()(r) <==> r.applicability == Some(p) && r.scope != OtherScope;
  }

  lemma OfBasesExactlyIf(v: Version, p: Predicate)
    ensures p in RulesOf(v.bases, BasisRules()) <==> OfBases(v, p)
  {
    RulesOfMean(v.bases, BasisRules(), p);
    assert forall r: EligibilityBasis ::
        p in BasisRules()(r) <==> r.reachability == Some(p) || r.qualification == Some(p);
  }

  lemma OfDependenciesExactlyIf(v: Version, p: Predicate)
    ensures p in RulesOf(v.dependencies, DependencyRules()) <==> OfDependencies(v, p)
  {
    RulesOfMean(v.dependencies, DependencyRules(), p);
    assert forall r: Dependency ::
        p in DependencyRules()(r) <==> r.applicability == Some(p) || r.satisfiedWhen == Some(p);
  }

  // ----- the reports

  predicate Resolves(questions: seq<Question>, k: string) {
    exists q | q in questions :: k in q.resolved
  }

  /** Some question resolves the Fact, and resolves source Facts only. */
  predicate SoundlyResolves(questions: seq<Question>, definitions: Registry, k: string) {
    exists q | q in questions :: k in q.resolved && forall x | x in q.resolved :: IsSource(x, definitions)
  }

  predicate QuestionReported(f: CoverageFailure, definitions: Registry, questions: seq<Question>) {
    f.InvalidQuestionFact? && exists q | q in questions ::
      q.id == f.question && f.key in q.resolved && !IsSource(f.key, definitions)
  }

  lemma ResolvesExactlyIf(questions: seq<Question>, k: string)
    ensures k in Covered(questions) <==> Resolves(questions, k)
  {
    if q :| q in questions && k in q.resolved {
      var i :| 0 <= i < |questions| && questions[i] == q;
      assert k in questions[i].resolved;
    }
  }

  lemma SoundlyExactlyIf(questions: seq<Question>, definitions: Registry, k: string)
    ensures k in SoundlyCovered(definitions, questions) <==> SoundlyResolves(questions, definitions, k)
  {
    forall q | q in questions
      ensures Answerable(definitions, q.resolved) <==> forall x | x in q.resolved :: IsSource(x, definitions)
    {
      assert forall i | 0 <= i < |q.resolved| :: q.resolved[i] in q.resolved;
    }
    if q :| q in questions && k in q.resolved && forall x | x in q.resolved :: IsSource(x, definitions) {
      var i :| 0 <= i < |questions| && questions[i] == q;
      assert Answerable(definitions, questions[i].resolved);
    }
  }

  lemma QuestionReportedExactlyIf(f: CoverageFailure, definitions: Registry, questions: seq<Question>)
    ensures f in QuestionFailures(definitions, questions) <==> QuestionReported(f, definitions, questions)
  {
    if QuestionReported(f, definitions, questions) {
      var q :| q in questions && q.id == f.question && f.key in q.resolved && !IsSource(f.key, definitions);
      var i :| 0 <= i < |questions| && questions[i] == q;
      assert f.key in questions[i].resolved && !AnswersSource(f.key, definitions);
    }
  }

  /** The applicability gate reports on its rules, and on the questions; a version rule that does not decode hides the
      rest. */
  lemma ApplicabilityReported(v: Version, definitions: Registry, questions: seq<Question>, f: CoverageFailure)
    ensures f in ApplicabilityReport(v, definitions, questions)
            <==> if !DecodesStored(v.applicability, definitions) then f == InvalidRule(v.applicability)
                 else
                   || RulesReported(f, (p: Predicate) => Applicability(v, p), definitions,
                                    (k: string) => k in SoundlyCovered(definitions, questions))
                   || QuestionReported(f, definitions, questions)
  {
    forall p { ApplicabilityExactlyIf(v, p); }
    RulesReportedExactlyIf(ApplicabilityRules(v), (p: Predicate) => Applicability(v, p), definitions,
                           SoundlyCovered(definitions, questions), f);
    QuestionReportedExactlyIf(f, definitions, questions);
  }

  /** The basis gate reports on the rules of both stages, on a basis that no rule decides, and on items of a basis the
      version does not have. */
  lemma BasisReported(v: Version, definitions: Registry, questions: seq<Question>, f: CoverageFailure)
    ensures f in BasisReport(v, definitions, questions)
            <==> || RulesReported(f, (p: Predicate) => OfBases(v, p), definitions,
                                  (k: string) => k in Covered(questions))
                 || (exists r | r in v.bases :: r.qualification == None && f == QualificationRequired(r.claim.id))
                 || (exists r | r in v.checklist ::
                       && r.scope == BasisScope && (forall b | b in v.bases :: b.claim.id != r.scopeReference)
                       && f == InvalidBasisOwner(r.claim.id))
  {
    forall p { OfBasesExactlyIf(v, p); }
    RulesReportedExactlyIf(RulesOf(v.bases, BasisRules()), (p: Predicate) => OfBases(v, p), definitions,
                           Covered(questions), f);
    forall id { KnownBasis(v, id); }
  }

  lemma KnownBasis(v: Version, id: string)
    ensures id in BasisIds(v) <==> exists b | b in v.bases :: b.claim.id == id
  {
    if b :| b in v.bases && b.claim.id == id {
      var i :| 0 <= i < |v.bases| && v.bases[i] == b;
      assert v.bases[i].claim.id == id;
    }
  }

  /** The dependency gate reports on both rules, and on a dependency that does not block or that nothing satisfies. */
  lemma DependencyReported(v: Version, definitions: Registry, questions: seq<Question>, f: CoverageFailure)
    ensures f in DependencyReport(v, definitions, questions)
            <==> || RulesReported(f, (p: Predicate) => OfDependencies(v, p), definitions,
                                  (k: string) => k in Covered(questions))
                 || (exists r | r in v.dependencies :: !r.blocking && f == UnsupportedRelation(r.claim.id))
                 || (exists r | r in v.dependencies ::
                       r.satisfiedWhen == None && f == SatisfiedWhenRequired(r.claim.id))
  {
    forall p { OfDependenciesExactlyIf(v, p); }
    RulesReportedExactlyIf(RulesOf(v.dependencies, DependencyRules()), (p: Predicate) => OfDependencies(v, p),
                           definitions, Covered(questions), f);
  }

  /** Steps and fees of a basis the version does not have are reported. */
  lemma UnownedReported(v: Version, f: CoverageFailure)
    ensures f in UnownedSteps(v)
            <==> exists r | r in v.steps ::
                   && r.scope == BasisScope && (forall b | b in v.bases :: r.basisId != Some(b.claim.id))
                   && f == InvalidBasisOwner(r.claim.id)
    ensures f in UnownedFees(v)
            <==> exists r | r in v.fees ::
                   && r.scope == BasisScope && (forall b | b in v.bases :: r.basisId != Some(b.claim.id))
                   && f == InvalidBasisOwner(r.claim.id)
  {
    forall id { KnownBasis(v, id); }
  }

  // ----- the selection gate

  /** The key itself, or what the pinned derived Fact derives from. */
  predicate Follows(k: string, source: string, definitions: Registry) {
    if k in definitions && definitions[k].derived && k in DERIVED_KEYS then DerivesFrom(k, source) else source == k
  }

  lemma FollowedExactlyIf(keys: set<string>, definitions: Registry, source: string)
    ensures source in Followed(keys, definitions) <==> exists k :: k in keys && Follows(k, source, definitions)
  {
    forall k ensures source in SourceDependencies(k, definitions, {}) <==> Follows(k, source, definitions) {
      DependenciesAreSources(k, definitions);
      if k in DERIVED_KEYS { DerivesExactlyIf(k, source); }
    }
  }

  predicate Selects(service: Service, procedure: string, p: Predicate) {
    exists c | c in service.candidates :: c.procedure == procedure && c.selection == p
  }

  lemma SelectsExactlyIf(service: Service, procedure: string, p: Predicate)
    ensures p in RulesOf(service.candidates, CandidateRules(procedure)) <==> Selects(service, procedure, p)
  {
    RulesOfMean(service.candidates, CandidateRules(procedure), p);
    assert forall c: Candidate :: p in CandidateRules(procedure)(c) <==> c.procedure == procedure && c.selection == p;
  }

  /** A decoding rule of the candidate leads to the source Fact. */
  predicate SelectionNeeds(service: Service, procedure: string, definitions: Registry, source: string) {
    exists k | k in KeysOfAll(Decoded(RulesOf(service.candidates, CandidateRules(procedure)), definitions)) ::
      Follows(k, source, definitions)
  }

  lemma NeededExactlyIf(service: Service, procedure: string, definitions: Registry, k: string)
    ensures k in KeysOfAll(Decoded(RulesOf(service.candidates, CandidateRules(procedure)), definitions))
            <==> exists rule :: && Selects(service, procedure, rule) && DecodesStored(rule, definitions)
                                && Mentions(rule, k)
  {
    var rules := RulesOf(service.candidates, CandidateRules(procedure));
    DecodedMean(rules, definitions);
    KeysMean(Decoded(rules, definitions), k);
    forall p { SelectsExactlyIf(service, procedure, p); }
  }

  lemma SourceAnswered(questions: seq<Question>, definitions: Registry, source: string)
    ensures source in SourceAnswers(definitions, questions)
            <==> Resolves(questions, source) && (source in definitions ==> !definitions[source].derived)
  {
    ResolvesExactlyIf(questions, source);
  }

  lemma SelectionParts(service: Service, procedure: string, definitions: Registry, f: CoverageFailure)
    ensures var rules := RulesOf(service.candidates, CandidateRules(procedure));
            f in SelectionReport(service, procedure, definitions)
            <==> || f in Undecoded(rules, definitions)
                 || (f.MissingServiceQuestion?
                     && f.key in Followed(KeysOfAll(Decoded(rules, definitions)), definitions)
                     && f.key !in SourceAnswers(definitions, service.questions))
  {}

  /** The selection gate reports the candidate's rules that do not decode, and the source Facts behind the others that
      no question resolves. */
  lemma SelectionReported(service: Service, procedure: string, definitions: Registry, f: CoverageFailure)
    ensures f in SelectionReport(service, procedure, definitions)
            <==> || (f.InvalidRule? && Selects(service, procedure, f.rule) && !DecodesStored(f.rule, definitions))
                 || (f.MissingServiceQuestion? && SelectionNeeds(service, procedure, definitions, f.key)
                     && (Resolves(service.questions, f.key) ==> f.key in definitions && definitions[f.key].derived))
  {
    var rules := RulesOf(service.candidates, CandidateRules(procedure));
    SelectionParts(service, procedure, definitions, f);
    DecodedMean(rules, definitions);
    if f.InvalidRule? { SelectsExactlyIf(service, procedure, f.rule); }
    if f.MissingServiceQuestion? {
      FollowedExactlyIf(KeysOfAll(Decoded(rules, definitions)), definitions, f.key);
      SourceAnswered(service.questions, definitions, f.key);
    }
  }
}
