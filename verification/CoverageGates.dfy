/**
  What the publication gates demand of a version's consequential rules, of the bases its rows hang on, and of
  its service's questions (knowledge/publication.py, eligibility_bases.py, procedure_dependencies.py, fees.py,
  selection_questions.py).
 */
module CoverageGates {
  import opened Wrappers
  import opened Facts
  import opened Rules
  import opened RuleDecoder
  import opened RuleRoundTrip
  import opened Evaluator
  import opened CasePreparation
  import opened Catalog
  import opened Guidance
  import opened Questions
  import opened Planner
  import opened QuestionCoverage

  datatype CoverageFailure =
    | InvalidRule(rule: Predicate)
    | InvalidDerivedDependency(key: string)
    | MissingServiceQuestion(key: string)
    | InvalidQuestionFact(question: string, key: string)
    | InvalidBasisOwner(owner: string)
    | QualificationRequired(owner: string)
    | UnsupportedRelation(owner: string)
    | SatisfiedWhenRequired(owner: string)

  // ----- the rules a gate reads

  /** The rules of the rows, row by row. */
  function RulesOf<R>(rows: seq<R>, own: R -> seq<Predicate>): seq<Predicate> {
    if rows == [] then [] else RulesOf(rows[..|rows| - 1], own) + own(rows[|rows| - 1])
  }

  lemma {:induction false} RulesOfMember<R>(rows: seq<R>, own: R -> seq<Predicate>, r: R, p: Predicate)
    requires r in rows && p in own(r)
    ensures p in RulesOf(rows, own)
  {
    if r != rows[|rows| - 1] { RulesOfMember(rows[..|rows| - 1], own, r, p); }
  }

  function Present(rule: Option<Predicate>): seq<Predicate> {
    if rule.Some? then [rule.value] else []
  }

  /** Practical preparation and rows of unsupported scopes are not consequential. */
  function OfficialRules(): ChecklistItem -> seq<Predicate> {
    (r: ChecklistItem) =>
      if r.classification == OfficialRequirement && !r.scope.OtherScope? then Present(r.applicability) else []
  }

  function StepRules(): Step -> seq<Predicate> {
    (r: Step) => if r.scope.OtherScope? then [] else Present(r.applicability)
  }

  function FeeRules(): Fee -> seq<Predicate> {
    (r: Fee) => if r.scope.OtherScope? then [] else Present(r.applicability)
  }

  function BasisRules(): EligibilityBasis -> seq<Predicate> {
    (r: EligibilityBasis) => Present(r.reachability) + Present(r.qualification)
  }

  function DependencyRules(): Dependency -> seq<Predicate> {
    (r: Dependency) => Present(r.applicability) + Present(r.satisfiedWhen)
  }

  function CandidateRules(procedure: string): Candidate -> seq<Predicate> {
    (c: Candidate) => if c.procedure == procedure then [c.selection] else []
  }

  // ----- decoding the stored rules

  /** The stored form of the rule decodes to it; anything else the gates report. */
  predicate DecodesStored(rule: Predicate, definitions: Registry) {
    Validation(Serialize(rule), definitions).rule == Some(rule)
  }

  lemma DecodedIsTyped(rule: Predicate, definitions: Registry)
    requires DecodesStored(rule, definitions)
    ensures RuleTyped(rule, definitions) && Shaped(rule)
  {
    AcceptedExactlyIfSerialized(Serialize(rule), rule, definitions);
    TypedIsShaped(rule, definitions);
  }

  /** The rules that pass, and a report of the others. */
  function Kept(rules: seq<Predicate>, ok: Predicate -> bool): seq<Predicate> {
    if rules == [] then []
    else
      var init, last := Kept(rules[..|rules| - 1], ok), rules[|rules| - 1];
      if ok(last) then init + [last] else init
  }

  function Refused(rules: seq<Predicate>, ok: Predicate -> bool): set<CoverageFailure> {
    if rules == [] then {}
    else
      var init, last := Refused(rules[..|rules| - 1], ok), rules[|rules| - 1];
      if ok(last) then init else init + {InvalidRule(last)}
  }

  lemma {:induction false} AllKept(rules: seq<Predicate>, ok: Predicate -> bool)
    ensures Refused(rules, ok) == {} <==> forall p | p in rules :: ok(p)
    ensures Refused(rules, ok) == {} ==> Kept(rules, ok) == rules
  {
    if rules != [] {
      var init, last := rules[..|rules| - 1], rules[|rules| - 1];
      AllKept(init, ok);
      assert rules == init + [last];
      if !ok(last) { assert InvalidRule(last) in Refused(rules, ok); }
    }
  }

  function Decodes(definitions: Registry): Predicate -> bool {
    (p: Predicate) => DecodesStored(p, definitions)
  }

  function Decoded(rules: seq<Predicate>, definitions: Registry): seq<Predicate> {
    Kept(rules, Decodes(definitions))
  }

  function Undecoded(rules: seq<Predicate>, definitions: Registry): set<CoverageFailure> {
    Refused(rules, Decodes(definitions))
  }

  method DecodeAll(rules: seq<Predicate>, definitions: Registry)
    returns (decoded: seq<Predicate>, failures: set<CoverageFailure>)
    ensures decoded == Decoded(rules, definitions) && failures == Undecoded(rules, definitions)
  {
    decoded, failures := [], {};
    ghost var ok := Decodes(definitions);
    for n := 0 to |rules|
      invariant decoded == Kept(rules[..n], ok) && failures == Refused(rules[..n], ok)
    {
      assert rules[..n + 1][..n] == rules[..n];
      var validation := ValidateRule(Serialize(rules[n]), definitions);
      if validation.rule == Some(rules[n]) {
        decoded := decoded + [rules[n]];
      } else {
        failures := failures + {InvalidRule(rules[n])};
      }
    }
    assert rules[..|rules|] == rules;
  }

  lemma AllDecoded(rules: seq<Predicate>, definitions: Registry)
    ensures Undecoded(rules, definitions) == {} <==> forall p | p in rules :: Decodes(definitions)(p)
    ensures Undecoded(rules, definitions) == {} ==> Decoded(rules, definitions) == rules
  {
    AllKept(rules, Decodes(definitions));
  }

  // ----- the Facts behind the rules, and the questions that resolve them

  /** Undefined sources of the rules' keys, and sources without a question. */
  function KeyFailures(rules: seq<Predicate>, definitions: Registry, covered: set<string>): set<CoverageFailure> {
    Unsound(DefectKeys(KeysOfAll(rules), definitions)) + Unasked(NeededSources(KeysOfAll(rules), definitions) - covered)
  }

  function Unsound(keys: set<string>): set<CoverageFailure> {
    set k | k in keys :: InvalidDerivedDependency(k)
  }

  function Unasked(keys: set<string>): set<CoverageFailure> {
    set k | k in keys :: MissingServiceQuestion(k)
  }

  lemma UnaskedMeans(keys: set<string>)
    ensures Unasked(keys) == {} <==> keys == {}
    ensures Unsound(keys) == {} <==> keys == {}
  {
    if k :| k in keys {
      assert MissingServiceQuestion(k) in Unasked(keys);
      assert InvalidDerivedDependency(k) in Unsound(keys);
    }
  }

  lemma BothEmpty<T>(a: set<T>, b: set<T>)
    ensures a + b == {} <==> a == {} && b == {}
  {
    assert a <= a + b && b <= a + b;
  }

  method CheckKeys(rules: seq<Predicate>, definitions: Registry, covered: set<string>)
    returns (failures: set<CoverageFailure>)
    ensures failures == KeyFailures(rules, definitions, covered)
  {
    var sources, defects := SourceFactKeys(rules, definitions);
    failures := Unsound(defects) + Unasked(sources - covered);
  }

  /**
    A gate's report on its rules is empty exactly when each of them decodes and has a question for every source
    Fact.
   */
  lemma SilentExactlyIf(rules: seq<Predicate>, definitions: Registry, questions: seq<Question>)
    ensures Undecoded(rules, definitions) + KeyFailures(Decoded(rules, definitions), definitions, Covered(questions))
            == {}
            <==> forall p | p in rules :: DecodesStored(p, definitions) && RuleCovered(p, definitions, questions)
  {
    AllDecoded(rules, definitions);
    assert forall p :: Decodes(definitions)(p) <==> DecodesStored(p, definitions);
    if forall p | p in rules :: DecodesStored(p, definitions) {
      KeyFailuresMean(rules, definitions, questions);
      assert forall i | 0 <= i < |rules| :: rules[i] in rules;
    }
  }

  lemma KeyFailuresMean(rules: seq<Predicate>, definitions: Registry, questions: seq<Question>)
    ensures KeyFailures(rules, definitions, Covered(questions)) == {}
            <==> forall i | 0 <= i < |rules| :: RuleCovered(rules[i], definitions, questions)
  {
    var keys := KeysOfAll(rules);
    CoverageMeansEachRule(rules, definitions, questions);
    var unasked := NeededSources(keys, definitions) - Covered(questions);
    UnaskedMeans(unasked);
    UnaskedMeans(DefectKeys(keys, definitions));
    BothEmpty(Unsound(DefectKeys(keys, definitions)), Unasked(unasked));
    NothingLeft(NeededSources(keys, definitions), Covered(questions));
  }

  // ----- the applicability gate, which also judges the questions

  predicate AnswersSource(key: string, definitions: Registry) {
    key in definitions && !definitions[key].derived
  }

  function QuestionFailures(definitions: Registry, questions: seq<Question>): set<CoverageFailure> {
    set i, k | 0 <= i < |questions| && k in questions[i].resolved && !AnswersSource(k, definitions) ::
      InvalidQuestionFact(questions[i].id, k)
  }

  /** The keys of the questions nothing is wrong with. */
  function SoundlyCovered(definitions: Registry, questions: seq<Question>): set<string> {
    set i, k | 0 <= i < |questions| && Answerable(definitions, questions[i].resolved) && k in questions[i].resolved :: k
  }

  lemma UnsoundIsReported(definitions: Registry, questions: seq<Question>, n: nat, i: nat)
    requires n < |questions| && i < |questions[n].resolved|
    ensures AnswersSource(questions[n].resolved[i], definitions)
            || InvalidQuestionFact(questions[n].id, questions[n].resolved[i])
               in QuestionFailures(definitions, questions)
  {
    assert questions[n].resolved[i] in questions[n].resolved;
  }

  lemma SoundQuestionsMean(definitions: Registry, questions: seq<Question>)
    ensures QuestionFailures(definitions, questions) == {} <==> SoundQuestions(definitions, questions)
    ensures SoundQuestions(definitions, questions) ==> SoundlyCovered(definitions, questions) == Covered(questions)
  {
    if QuestionFailures(definitions, questions) == {} {
      forall q | q in questions ensures Answerable(definitions, q.resolved) {
        var n :| 0 <= n < |questions| && questions[n] == q;
        forall i | 0 <= i < |q.resolved| ensures AnswersSource(q.resolved[i], definitions) {
          UnsoundIsReported(definitions, questions, n, i);
        }
      }
    }
    if SoundQuestions(definitions, questions) {
      forall i, k | 0 <= i < |questions| && k in questions[i].resolved ensures AnswersSource(k, definitions) {
        assert questions[i] in questions;
      }
    }
  }

  /** The version's own rule, and those of official items, steps and fees in the two supported scopes. */
  function ApplicabilityRules(v: Version): seq<Predicate> {
    [v.applicability] + RulesOf(v.checklist, OfficialRules()) + RulesOf(v.steps, StepRules())
    + RulesOf(v.fees, FeeRules())
  }

  /** A version rule that does not decode hides the rest of the report. */
  function ApplicabilityReport(v: Version, definitions: Registry, questions: seq<Question>): set<CoverageFailure> {
    if !DecodesStored(v.applicability, definitions) then {InvalidRule(v.applicability)}
    else
      Undecoded(ApplicabilityRules(v), definitions)
      + KeyFailures(Decoded(ApplicabilityRules(v), definitions), definitions, SoundlyCovered(definitions, questions))
      + QuestionFailures(definitions, questions)
  }

  method CheckQuestions(definitions: Registry, questions: seq<Question>)
    returns (covered: set<string>, invalid: set<CoverageFailure>)
    ensures covered == SoundlyCovered(definitions, questions) && invalid == QuestionFailures(definitions, questions)
  {
    covered, invalid := {}, {};
    for n := 0 to |questions|
      invariant covered == SoundlyCovered(definitions, questions[..n])
      invariant invalid == QuestionFailures(definitions, questions[..n])
    {
      OneMoreQuestion(definitions, questions, n);
      var unsound := set k | k in questions[n].resolved && !AnswersSource(k, definitions);
      if unsound != {} {
        invalid := invalid + set k | k in unsound :: InvalidQuestionFact(questions[n].id, k);
      } else {
        covered := covered + set k | k in questions[n].resolved;
      }
    }
    assert questions[..|questions|] == questions;
  }

  /** `ApplicabilityGate.validate` */
  method CheckApplicability(v: Version, definitions: Registry, questions: seq<Question>)
    returns (failures: set<CoverageFailure>)
    ensures failures == ApplicabilityReport(v, definitions, questions)
  {
    var own := ValidateRule(Serialize(v.applicability), definitions);
    if own.rule != Some(v.applicability) { return {InvalidRule(v.applicability)}; }
    var decoded, undecoded := DecodeAll(ApplicabilityRules(v), definitions);
    var covered, invalid := CheckQuestions(definitions, questions);
    var unasked := CheckKeys(decoded, definitions, covered);
    failures := undecoded + unasked + invalid;
  }

  lemma OneMoreQuestion(definitions: Registry, questions: seq<Question>, n: nat)
    requires n < |questions|
    ensures var unsound := set k | k in questions[n].resolved && !AnswersSource(k, definitions);
            && SoundlyCovered(definitions, questions[..n + 1])
               == SoundlyCovered(definitions, questions[..n])
                  + (if unsound == {} then set k | k in questions[n].resolved else {})
            && QuestionFailures(definitions, questions[..n + 1])
               == QuestionFailures(definitions, questions[..n])
                  + set k | k in unsound :: InvalidQuestionFact(questions[n].id, k)
  {
    var unsound := set k | k in questions[n].resolved && !AnswersSource(k, definitions);
    var next := questions[..n + 1];
    assert next == questions[..n] + [questions[n]];
    if !Answerable(definitions, questions[n].resolved) {
      var i :| 0 <= i < |questions[n].resolved| && !AnswersSource(questions[n].resolved[i], definitions);
      assert questions[n].resolved[i] in unsound;
    }
    forall i | 0 <= i < n ensures next[i] == questions[..n][i] {}
  }

  // ----- the gates of bases, dependencies, steps and fees

  function UnownedItems(v: Version): set<CoverageFailure> {
    set r | r in v.checklist && r.scope.BasisScope? && r.scopeReference !in BasisIds(v) :: InvalidBasisOwner(r.claim.id)
  }

  function UnownedSteps(v: Version): set<CoverageFailure> {
    set r | r in v.steps && r.scope.BasisScope? && !InSet(r.basisId, BasisIds(v)) :: InvalidBasisOwner(r.claim.id)
  }

  function UnownedFees(v: Version): set<CoverageFailure> {
    set r | r in v.fees && r.scope.BasisScope? && !InSet(r.basisId, BasisIds(v)) :: InvalidBasisOwner(r.claim.id)
  }

  function UnqualifiedBases(v: Version): set<CoverageFailure> {
    set r | r in v.bases && r.qualification.None? :: QualificationRequired(r.claim.id)
  }

  function UnsupportedDependencies(v: Version): set<CoverageFailure> {
    (set r | r in v.dependencies && !r.blocking :: UnsupportedRelation(r.claim.id))
    + (set r | r in v.dependencies && r.satisfiedWhen.None? :: SatisfiedWhenRequired(r.claim.id))
  }

  function BasisReport(v: Version, definitions: Registry, questions: seq<Question>): set<CoverageFailure> {
    var rules := RulesOf(v.bases, BasisRules());
    UnownedItems(v) + UnqualifiedBases(v)
    + Undecoded(rules, definitions) + KeyFailures(Decoded(rules, definitions), definitions, Covered(questions))
  }

  function DependencyReport(v: Version, definitions: Registry, questions: seq<Question>): set<CoverageFailure> {
    var rules := RulesOf(v.dependencies, DependencyRules());
    UnsupportedDependencies(v)
    + Undecoded(rules, definitions) + KeyFailures(Decoded(rules, definitions), definitions, Covered(questions))
  }

  /** The coverage part of `EligibilityBasisPublicationGate.validate`. */
  method CheckBases(v: Version, definitions: Registry, questions: seq<Question>)
    returns (failures: set<CoverageFailure>)
    ensures failures == BasisReport(v, definitions, questions)
  {
    var decoded, undecoded := DecodeAll(RulesOf(v.bases, BasisRules()), definitions);
    var unasked := CheckKeys(decoded, definitions, Covered(questions));
    failures := UnownedItems(v) + UnqualifiedBases(v) + undecoded + unasked;
  }

  /** The coverage part of `ProcedureDependencyPublicationGate.validate`. */
  method CheckDependencies(v: Version, definitions: Registry, questions: seq<Question>)
    returns (failures: set<CoverageFailure>)
    ensures failures == DependencyReport(v, definitions, questions)
  {
    var decoded, undecoded := DecodeAll(RulesOf(v.dependencies, DependencyRules()), definitions);
    var unasked := CheckKeys(decoded, definitions, Covered(questions));
    failures := UnsupportedDependencies(v) + undecoded + unasked;
  }

  // ----- the selection gate

  /** `_source_dependencies`: a derived Fact is followed to what it derives from. */
  function SourceDependencies(key: string, definitions: Registry, visiting: set<string>): set<string>
    decreases (set k | k in DERIVED_KEYS) - visiting
  {
    if key !in definitions || !definitions[key].derived || key in visiting || key !in DERIVED_KEYS then {key}
    else set d, s | d in DerivedSources(key) && s in SourceDependencies(d, definitions, visiting + {key}) :: s
  }

  /** The pinned sources are not pinned themselves, so one step is all there is. */
  lemma DependenciesAreSources(key: string, definitions: Registry)
    ensures SourceDependencies(key, definitions, {})
            == if key in definitions && definitions[key].derived && key in DERIVED_KEYS then DerivedSources(key)
               else {key}
  {
    if key in definitions && definitions[key].derived && key in DERIVED_KEYS {
      forall d | d in DerivedSources(key) ensures SourceDependencies(d, definitions, {key}) == {d} {
        SourceIsNotPinned(key, d);
      }
      assert {} + {key} == {key};
      assert forall d | d in DerivedSources(key) :: d in SourceDependencies(d, definitions, {key});
    }
  }

  lemma SourceIsNotPinned(key: string, d: string)
    requires d in DerivedSources(key)
    ensures d !in DERIVED_KEYS
  {}

  function Followed(keys: set<string>, definitions: Registry): set<string> {
    set k, s | k in keys && s in SourceDependencies(k, definitions, {}) :: s
  }

  /** The keys of the questions that are not derived Facts. */
  function SourceAnswers(definitions: Registry, questions: seq<Question>): set<string> {
    set k | k in Covered(questions) && !(k in definitions && definitions[k].derived)
  }

  function SelectionReport(service: Service, procedure: string, definitions: Registry): set<CoverageFailure> {
    var rules := RulesOf(service.candidates, CandidateRules(procedure));
    Undecoded(rules, definitions)
    + Unasked(Followed(KeysOfAll(Decoded(rules, definitions)), definitions)
              - SourceAnswers(definitions, service.questions))
  }

  /** `SelectionQuestionPublicationGate.validate` */
  method CheckSelection(service: Service, procedure: string, definitions: Registry)
    returns (failures: set<CoverageFailure>)
    ensures failures == SelectionReport(service, procedure, definitions)
  {
    var decoded, undecoded := DecodeAll(RulesOf(service.candidates, CandidateRules(procedure)), definitions);
    var required := FollowAll(decoded, definitions);
    failures := undecoded + Unasked(required - SourceAnswers(definitions, service.questions));
  }

  method FollowAll(rules: seq<Predicate>, definitions: Registry) returns (required: set<string>)
    ensures required == Followed(KeysOfAll(rules), definitions)
  {
    required := {};
    for n := 0 to |rules|
      invariant required == Followed(KeysOfAll(rules[..n]), definitions)
    {
      assert rules[..n + 1][..n] == rules[..n];
      var keys := ReferencedFactKeys(rules[n]);
      FollowedUnion(KeysOfAll(rules[..n]), keys, definitions);
      required := required + Followed(keys, definitions);
    }
    assert rules[..|rules|] == rules;
  }

  lemma FollowedUnion(a: set<string>, b: set<string>, definitions: Registry)
    ensures Followed(a + b, definitions) == Followed(a, definitions) + Followed(b, definitions)
  {}

  // ----- what silent gates say

  /** No coverage gate has anything to report on the version. */
  ghost predicate Silent(v: Version, service: Service, definitions: Registry) {
    && ApplicabilityReport(v, definitions, service.questions) == {}
    && BasisReport(v, definitions, service.questions) == {}
    && DependencyReport(v, definitions, service.questions) == {}
    && UnownedSteps(v) == {} && UnownedFees(v) == {}
    && SelectionReport(service, v.procedure, definitions) == {}
  }

  /**
    Every row that hangs on a basis hangs on one of the version's, and no basis or dependency lacks its deciding
    rule.
   */
  ghost predicate Rooted(v: Version) {
    && (forall r | r in v.checklist && r.scope.BasisScope? :: r.scopeReference in BasisIds(v))
    && (forall r | r in v.steps && r.scope.BasisScope? :: InSet(r.basisId, BasisIds(v)))
    && (forall r | r in v.fees && r.scope.BasisScope? :: InSet(r.basisId, BasisIds(v)))
    && (forall r | r in v.bases :: r.qualification.Some?)
    && (forall r | r in v.dependencies :: r.blocking && r.satisfiedWhen.Some?)
  }

  lemma SilentIsRooted(v: Version, service: Service, definitions: Registry)
    requires Silent(v, service, definitions)
    ensures Rooted(v)
  {
    forall r | r in v.checklist && r.scope.BasisScope? ensures r.scopeReference in BasisIds(v) {
      assert r.scopeReference !in BasisIds(v) ==> InvalidBasisOwner(r.claim.id) in UnownedItems(v);
    }
    forall r | r in v.steps && r.scope.BasisScope? ensures InSet(r.basisId, BasisIds(v)) {
      assert !InSet(r.basisId, BasisIds(v)) ==> InvalidBasisOwner(r.claim.id) in UnownedSteps(v);
    }
    forall r | r in v.fees && r.scope.BasisScope? ensures InSet(r.basisId, BasisIds(v)) {
      assert !InSet(r.basisId, BasisIds(v)) ==> InvalidBasisOwner(r.claim.id) in UnownedFees(v);
    }
    forall r | r in v.bases ensures r.qualification.Some? {
      assert r.qualification.None? ==> QualificationRequired(r.claim.id) in UnqualifiedBases(v);
    }
    forall r | r in v.dependencies ensures r.blocking && r.satisfiedWhen.Some? {
      assert !r.blocking ==> UnsupportedRelation(r.claim.id) in UnsupportedDependencies(v);
      assert r.satisfiedWhen.None? ==> SatisfiedWhenRequired(r.claim.id) in UnsupportedDependencies(v);
    }
  }

  ghost predicate RulesAreCovered(rules: seq<Predicate>, definitions: Registry, questions: seq<Question>) {
    forall p | p in rules :: Shaped(p) && RuleCovered(p, definitions, questions)
  }

  lemma SilentRulesAreCovered(rules: seq<Predicate>, definitions: Registry, questions: seq<Question>)
    requires Undecoded(rules, definitions) == {}
    requires KeyFailures(Decoded(rules, definitions), definitions, Covered(questions)) == {}
    ensures RulesAreCovered(rules, definitions, questions)
  {
    SilentExactlyIf(rules, definitions, questions);
    forall p | p in rules ensures Shaped(p) { DecodedIsTyped(p, definitions); }
  }

  /** Of the rules a gate collected from the rows, each row's own are covered. */
  lemma OwnRulesAreCovered<R>(rows: seq<R>, own: R -> seq<Predicate>, definitions: Registry, questions: seq<Question>)
    requires RulesAreCovered(RulesOf(rows, own), definitions, questions)
    ensures forall r, p | r in rows && p in own(r) :: Shaped(p) && RuleCovered(p, definitions, questions)
  {
    forall r, p | r in rows && p in own(r) ensures p in RulesOf(rows, own) { RulesOfMember(rows, own, r, p); }
  }

  lemma PresentIsCovered(rule: Option<Predicate>, definitions: Registry, questions: seq<Question>)
    requires forall p | p in Present(rule) :: Shaped(p) && RuleCovered(p, definitions, questions)
    ensures CoveredIfAny(rule, definitions, questions)
  {
    if rule.Some? { assert rule.value in Present(rule); }
  }

  lemma SplitRules(a: seq<Predicate>, b: seq<Predicate>, definitions: Registry, questions: seq<Question>)
    requires RulesAreCovered(a + b, definitions, questions)
    ensures RulesAreCovered(a, definitions, questions) && RulesAreCovered(b, definitions, questions)
  {
    forall p | p in a ensures p in a + b {}
    forall p | p in b ensures p in a + b {}
  }

  /** When every gate is silent, the version's consequential rules are covered by sound questions. */
  lemma SilentGatesCover(v: Version, service: Service, definitions: Registry)
    requires Silent(v, service, definitions)
    ensures VersionCovered(v, definitions, service.questions) && SoundQuestions(definitions, service.questions)
  {
    var questions := service.questions;
    SoundQuestionsMean(definitions, questions);
    SilentRulesAreCovered(ApplicabilityRules(v), definitions, questions);
    ApplicabilityRulesSplit(v, definitions, questions);
    SilentRulesAreCovered(RulesOf(v.bases, BasisRules()), definitions, questions);
    BasisRulesSplit(v, definitions, questions);
    SilentRulesAreCovered(RulesOf(v.dependencies, DependencyRules()), definitions, questions);
    DependencyRulesSplit(v, definitions, questions);
  }

  lemma ApplicabilityRulesSplit(v: Version, definitions: Registry, questions: seq<Question>)
    requires RulesAreCovered(ApplicabilityRules(v), definitions, questions)
    ensures Shaped(v.applicability) && RuleCovered(v.applicability, definitions, questions)
    ensures forall r | r in v.checklist && r.classification == OfficialRequirement && !r.scope.OtherScope? ::
              CoveredIfAny(r.applicability, definitions, questions)
    ensures forall r | r in v.steps && !r.scope.OtherScope? :: CoveredIfAny(r.applicability, definitions, questions)
    ensures forall r | r in v.fees && !r.scope.OtherScope? :: CoveredIfAny(r.applicability, definitions, questions)
  {
    var items, steps, fees :=
        RulesOf(v.checklist, OfficialRules()), RulesOf(v.steps, StepRules()), RulesOf(v.fees, FeeRules());
    SplitRules([v.applicability] + items + steps, fees, definitions, questions);
    SplitRules([v.applicability] + items, steps, definitions, questions);
    SplitRules([v.applicability], items, definitions, questions);
    assert v.applicability in [v.applicability];
    OwnRulesAreCovered(v.checklist, OfficialRules(), definitions, questions);
    OwnRulesAreCovered(v.steps, StepRules(), definitions, questions);
    OwnRulesAreCovered(v.fees, FeeRules(), definitions, questions);
    forall r | r in v.checklist && r.classification == OfficialRequirement && !r.scope.OtherScope?
      ensures CoveredIfAny(r.applicability, definitions, questions)
    {
      assert OfficialRules()(r) == Present(r.applicability);
      PresentIsCovered(r.applicability, definitions, questions);
    }
    forall r | r in v.steps && !r.scope.OtherScope? ensures CoveredIfAny(r.applicability, definitions, questions) {
      assert StepRules()(r) == Present(r.applicability);
      PresentIsCovered(r.applicability, definitions, questions);
    }
    forall r | r in v.fees && !r.scope.OtherScope? ensures CoveredIfAny(r.applicability, definitions, questions) {
      assert FeeRules()(r) == Present(r.applicability);
      PresentIsCovered(r.applicability, definitions, questions);
    }
  }

  lemma PairIsCovered(a: Option<Predicate>, b: Option<Predicate>, definitions: Registry, questions: seq<Question>)
    requires forall p | p in Present(a) + Present(b) :: Shaped(p) && RuleCovered(p, definitions, questions)
    ensures CoveredIfAny(a, definitions, questions) && CoveredIfAny(b, definitions, questions)
  {
    PresentIsCovered(a, definitions, questions);
    PresentIsCovered(b, definitions, questions);
  }

  lemma BasisRulesSplit(v: Version, definitions: Registry, questions: seq<Question>)
    requires RulesAreCovered(RulesOf(v.bases, BasisRules()), definitions, questions)
    ensures forall r | r in v.bases ::
              CoveredIfAny(r.reachability, definitions, questions)
              && CoveredIfAny(r.qualification, definitions, questions)
  {
    OwnRulesAreCovered(v.bases, BasisRules(), definitions, questions);
    forall r | r in v.bases
      ensures CoveredIfAny(r.reachability, definitions, questions)
              && CoveredIfAny(r.qualification, definitions, questions)
    {
      assert BasisRules()(r) == Present(r.reachability) + Present(r.qualification);
      PairIsCovered(r.reachability, r.qualification, definitions, questions);
    }
  }

  lemma DependencyRulesSplit(v: Version, definitions: Registry, questions: seq<Question>)
    requires RulesAreCovered(RulesOf(v.dependencies, DependencyRules()), definitions, questions)
    ensures forall r | r in v.dependencies ::
              CoveredIfAny(r.applicability, definitions, questions)
              && CoveredIfAny(r.satisfiedWhen, definitions, questions)
  {
    OwnRulesAreCovered(v.dependencies, DependencyRules(), definitions, questions);
    forall r | r in v.dependencies
      ensures CoveredIfAny(r.applicability, definitions, questions)
              && CoveredIfAny(r.satisfiedWhen, definitions, questions)
    {
      assert DependencyRules()(r) == Present(r.applicability) + Present(r.satisfiedWhen);
      PairIsCovered(r.applicability, r.satisfiedWhen, definitions, questions);
    }
  }

  lemma CoveredIsSource(k: string, definitions: Registry, questions: seq<Question>)
    requires SoundQuestions(definitions, questions) && k in Covered(questions)
    ensures k in definitions && !definitions[k].derived
  {
    var i :| 0 <= i < |questions| && k in questions[i].resolved;
    assert questions[i] in questions;
  }

  lemma FollowedIsBehind(key: string, definitions: Registry, questions: seq<Question>)
    requires SoundQuestions(definitions, questions)
    requires SourceDependencies(key, definitions, {}) <= SourceAnswers(definitions, questions)
    ensures SourcesBehind(key, definitions).Some? && SourcesBehind(key, definitions).value <= Covered(questions)
  {
    DependenciesAreSources(key, definitions);
    assert SourceAnswers(definitions, questions) <= Covered(questions);
    if key in definitions && definitions[key].derived && key in DERIVED_KEYS {
      AnsweredSourcesAreBehind(key, definitions, questions);
    } else {
      AnsweredKeyIsBehind(key, definitions, questions);
    }
  }

  lemma AnsweredSourcesAreBehind(key: string, definitions: Registry, questions: seq<Question>)
    requires SoundQuestions(definitions, questions) && DerivedSources(key) <= Covered(questions)
    requires key in definitions && definitions[key].derived && key in DERIVED_KEYS
    ensures SourcesBehind(key, definitions) == Some(DerivedSources(key))
  {
    forall s | s in DerivedSources(key) ensures s in definitions && !definitions[s].derived {
      CoveredIsSource(s, definitions, questions);
    }
  }

  lemma AnsweredKeyIsBehind(key: string, definitions: Registry, questions: seq<Question>)
    requires SoundQuestions(definitions, questions) && {key} <= Covered(questions)
    ensures SourcesBehind(key, definitions) == Some({key})
  {
    assert key in {key};
    CoveredIsSource(key, definitions, questions);
  }

  lemma FollowedRuleIsCovered(rules: seq<Predicate>, rule: Predicate, definitions: Registry, questions: seq<Question>)
    requires rule in rules && SoundQuestions(definitions, questions)
    requires Followed(KeysOfAll(rules), definitions) <= SourceAnswers(definitions, questions)
    ensures RuleCovered(rule, definitions, questions)
  {
    forall k | k in FactKeys(rule)
      ensures SourcesBehind(k, definitions).Some? && SourcesBehind(k, definitions).value <= Covered(questions)
    {
      KeysOfAllAreTheirs(rules, k);
      FollowedOne(k, KeysOfAll(rules), definitions);
      FollowedIsBehind(k, definitions, questions);
    }
  }

  lemma FollowedOne(key: string, keys: set<string>, definitions: Registry)
    requires key in keys
    ensures SourceDependencies(key, definitions, {}) <= Followed(keys, definitions)
  {}

  /** When the selection gate is silent and the questions are sound, the procedure's candidate rules are covered too. */
  lemma SilentSelectionCovers(service: Service, candidate: Candidate, definitions: Registry)
    requires candidate in service.candidates && SelectionReport(service, candidate.procedure, definitions) == {}
    requires SoundQuestions(definitions, service.questions)
    ensures Shaped(candidate.selection) && RuleCovered(candidate.selection, definitions, service.questions)
  {
    var rules := RulesOf(service.candidates, CandidateRules(candidate.procedure));
    assert CandidateRules(candidate.procedure)(candidate) == [candidate.selection];
    RulesOfMember(service.candidates, CandidateRules(candidate.procedure), candidate, candidate.selection);
    SilentCandidateIsCovered(rules, candidate.selection, definitions, service.questions);
  }

  lemma SilentCandidateIsCovered(rules: seq<Predicate>, rule: Predicate, definitions: Registry,
                                 questions: seq<Question>)
    requires rule in rules && SoundQuestions(definitions, questions) && Undecoded(rules, definitions) == {}
    requires Unasked(Followed(KeysOfAll(Decoded(rules, definitions)), definitions)
                     - SourceAnswers(definitions, questions)) == {}
    ensures Shaped(rule) && RuleCovered(rule, definitions, questions)
  {
    DecodesAmong(rules, rule, definitions);
    UnaskedMeans(Followed(KeysOfAll(rules), definitions) - SourceAnswers(definitions, questions));
    NothingLeft(Followed(KeysOfAll(rules), definitions), SourceAnswers(definitions, questions));
    FollowedRuleIsCovered(rules, rule, definitions, questions);
  }

  lemma DecodesAmong(rules: seq<Predicate>, rule: Predicate, definitions: Registry)
    requires rule in rules && Undecoded(rules, definitions) == {}
    ensures Decoded(rules, definitions) == rules && Shaped(rule)
  {
    AllDecoded(rules, definitions);
    assert Decodes(definitions)(rule);
    DecodedIsTyped(rule, definitions);
  }
}
