/**
  What the gates establish once stays true of every public version: whatever a publication was vetted for holds in
  every store a run of the lifecycle reaches, so the loader accepts each public version, also after the registry has
  grown, and the planner answers every prepared case of a service whose candidates were published.
 */
module PublishedStores {
  import opened Wrappers
  import opened Calendar
  import opened Facts
  import opened Rules
  import opened RuleRoundTrip
  import opened Catalog
  import opened CasePreparation
  import opened Evaluator
  import opened Questions
  import opened Planner
  import opened QuestionCoverage
  import opened CoverageGates
  import opened Lifecycle
  import opened Readiness
  import G = PublicationGates

  // ----- runs whose publications were vetted

  /** Each publication that passed the other gates met the condition. */
  ghost predicate Vetted(actions: seq<Action>, ok: Version -> bool) {
    forall i | 0 <= i < |actions| && actions[i].Publish? && actions[i].otherGatesPass ::
      var before := Run(EMPTY, actions[..i]);
      actions[i].pk in before.versions ==> ok(before.versions[actions[i].pk])
  }

  /** The condition is about what was authored. */
  ghost predicate StateBlind(ok: Version -> bool) {
    forall v: Version, state | ok(v) :: ok(v.(state := state))
  }

  /** A version is public after a step because it was before, or because the step published it. */
  lemma PublicNext(s: Store, action: Action, k: nat)
    requires k in Next(s, action).versions && Next(s, action).versions[k].state != Draft
    ensures k in s.versions && Next(s, action).versions[k].(state := s.versions[k].state) == s.versions[k]
    ensures s.versions[k].state != Draft || (action.Publish? && action.pk == k && action.otherGatesPass)
  {
    if action.Publish? { PassingMeans(s, action.pk, action.actorSaved, action.otherGatesPass); }
  }

  /** Whatever every publication was vetted for holds of every public version of the store reached. */
  lemma {:induction false} PublicIsVetted(actions: seq<Action>, ok: Version -> bool, k: nat)
    requires Vetted(actions, ok) && StateBlind(ok)
    requires k in Run(EMPTY, actions).versions && Run(EMPTY, actions).versions[k].state != Draft
    ensures ok(Run(EMPTY, actions).versions[k])
  {
    if actions != [] {
      var init, last := actions[..|actions| - 1], actions[|actions| - 1];
      var before := Run(EMPTY, init);
      PublicNext(before, last, k);
      if before.versions[k].state != Draft {
        assert forall i | 0 <= i < |init| :: init[..i] == actions[..i];
        PublicIsVetted(init, ok, k);
      }
      var after := Run(EMPTY, actions).versions[k];
      assert ok(before.versions[k]);
      assert after == before.versions[k].(state := after.state);
    }
  }

  // ----- acceptance survives a growing registry

  predicate Grown(later: Registry, earlier: Registry) {
    forall k | k in earlier :: k in later && later[k] == earlier[k]
  }

  lemma {:induction false} StillTyped(p: Predicate, earlier: Registry, later: Registry)
    requires RuleTyped(p, earlier) && Grown(later, earlier)
    ensures RuleTyped(p, later)
  {
    if IsBoolean(p.op) {
      forall i | 0 <= i < |p.children|
        ensures RuleTyped(p.children[i], later)
      {
        StillTyped(p.children[i], earlier, later);
      }
    }
  }

  /** A rule that decoded once decodes to the same predicate under every larger registry. */
  lemma StillDecodes(raw: Json, earlier: Registry, later: Registry)
    requires Validation(raw, earlier).rule.Some? && Grown(later, earlier)
    ensures Validation(raw, later).rule == Validation(raw, earlier).rule
  {
    var p := Validation(raw, earlier).rule.value;
    AcceptedExactlyIfSerialized(raw, p, earlier);
    StillTyped(p, earlier, later);
    AcceptedExactlyIfSerialized(raw, p, later);
  }

  ghost predicate StillDecode(earlier: Registry, later: Registry) {
    forall raw | G.Decodes(raw, earlier) :: G.Decodes(raw, later)
  }

  lemma ChecklistStillLoads(r: G.ChecklistRow, earlier: Registry, later: Registry)
    requires StillDecode(earlier, later) && G.LoadChecklist(r, earlier) == []
    ensures G.LoadChecklist(r, later) == []
  {}

  lemma StepStillLoads(r: G.StepRow, version: nat, earlier: Registry, later: Registry)
    requires StillDecode(earlier, later) && G.LoadStep(r, version, earlier) == []
    ensures G.LoadStep(r, version, later) == []
  {}

  lemma WarningStillLoads(r: G.WarningRow, earlier: Registry, later: Registry)
    requires StillDecode(earlier, later) && G.LoadWarning(r, earlier) == []
    ensures G.LoadWarning(r, later) == []
  {}

  lemma FeeStillLoads(r: G.FeeRow, version: nat, earlier: Registry, later: Registry)
    requires StillDecode(earlier, later) && G.LoadFee(r, version, earlier) == []
    ensures G.LoadFee(r, version, later) == []
  {}

  lemma BasisStillLoads(r: G.BasisRow, earlier: Registry, later: Registry)
    requires StillDecode(earlier, later) && G.LoadBasis(r, earlier) == []
    ensures G.LoadBasis(r, later) == []
  {}

  lemma DependencyStillLoads(r: G.DependencyRow, earlier: Registry, later: Registry)
    requires StillDecode(earlier, later) && G.LoadDependency(r, earlier) == []
    ensures G.LoadDependency(r, later) == []
  {}

  lemma AssociationStillLoads(r: G.AssociationRow, earlier: Registry, later: Registry)
    requires StillDecode(earlier, later) && G.LoadAssociation(r, earlier) == []
    ensures G.LoadAssociation(r, later) == []
  {}

  /** What the loader accepted it accepts again once the registry has grown. */
  lemma StillLoads(v: G.Aggregate, earlier: Registry, later: Registry)
    requires G.Loads(v, earlier) && Grown(later, earlier)
    ensures G.Loads(v, later)
  {
    forall raw | G.Decodes(raw, earlier) ensures G.Decodes(raw, later) { StillDecodes(raw, earlier, later); }
    forall r | r in v.checklist { ChecklistStillLoads(r, earlier, later); }
    forall r | r in v.steps { StepStillLoads(r, v.version, earlier, later); }
    forall r | r in v.warnings { WarningStillLoads(r, earlier, later); }
    forall r | r in v.fees { FeeStillLoads(r, v.version, earlier, later); }
    forall r | r in v.bases { BasisStillLoads(r, earlier, later); }
    forall r | r in v.dependencies { DependencyStillLoads(r, earlier, later); }
    forall r | r in v.associations { AssociationStillLoads(r, earlier, later); }
  }

  // ----- every public version loads

  /** At each publication the gates were silent on what was authored, under a registry that has only grown since. */
  ghost predicate GatedAtPublication(actions: seq<Action>, registries: seq<Registry>, authored: Version -> G.Aggregate,
                                     now: Registry) {
    && |registries| == |actions|
    && forall i | 0 <= i < |actions| && actions[i].Publish? && actions[i].otherGatesPass ::
         && Grown(now, registries[i])
         && var before := Run(EMPTY, actions[..i]);
            actions[i].pk in before.versions ==> GatesSilent(authored(before.versions[actions[i].pk]), registries[i])
  }

  ghost predicate GatesSilent(v: G.Aggregate, definitions: Registry) {
    G.AllGates(v, definitions) == {} && forall d | d in v.dependencies :: d.procedure == v.procedure
  }

  /** The loader accepts every public version of every store a gated run reaches. */
  lemma PublicVersionsLoad(actions: seq<Action>, registries: seq<Registry>, authored: Version -> G.Aggregate,
                           now: Registry, k: nat)
    requires GatedAtPublication(actions, registries, authored, now)
    requires forall v: Version, state :: authored(v.(state := state)) == authored(v)
    requires k in Run(EMPTY, actions).versions && Run(EMPTY, actions).versions[k].state != Draft
    ensures G.Loads(authored(Run(EMPTY, actions).versions[k]), now)
  {
    var ok := (v: Version) => G.Loads(authored(v), now);
    forall i | 0 <= i < |actions| && actions[i].Publish? && actions[i].otherGatesPass
               && actions[i].pk in Run(EMPTY, actions[..i]).versions
      ensures ok(Run(EMPTY, actions[..i]).versions[actions[i].pk])
    {
      var v := authored(Run(EMPTY, actions[..i]).versions[actions[i].pk]);
      G.GatesImplyLoader(v, registries[i]);
      StillLoads(v, registries[i], now);
    }
    PublicIsVetted(actions, ok, k);
  }

  // ----- coverage survives added definitions and questions

  lemma StillBehind(key: string, earlier: Registry, later: Registry)
    requires Grown(later, earlier) && SourcesBehind(key, earlier).Some?
    ensures SourcesBehind(key, later) == SourcesBehind(key, earlier)
  {}

  lemma StillRuleCovered(p: Predicate, earlier: Registry, questions: seq<Question>, later: Registry,
                         questions': seq<Question>)
    requires RuleCovered(p, earlier, questions)
    requires Grown(later, earlier) && Covered(questions) <= Covered(questions')
    ensures RuleCovered(p, later, questions')
  {
    forall k | k in FactKeys(p)
      ensures SourcesBehind(k, later).Some? && SourcesBehind(k, later).value <= Covered(questions')
    {
      StillBehind(k, earlier, later);
    }
  }

  lemma StillVersionCovered(v: Version, earlier: Registry, questions: seq<Question>, later: Registry,
                            questions': seq<Question>)
    requires VersionCovered(v, earlier, questions)
    requires Grown(later, earlier) && Covered(questions) <= Covered(questions')
    ensures VersionCovered(v, later, questions')
  {
    forall p | RuleCovered(p, earlier, questions) ensures RuleCovered(p, later, questions') {
      StillRuleCovered(p, earlier, questions, later, questions');
    }
  }

  // ----- every prepared case is answered

  /** Since `before`, definitions and questions were only added, and the Procedure's candidate rules were kept. */
  ghost predicate Kept(now: Snapshot, before: Snapshot, procedure: string) {
    && Grown(now.definitions, before.definitions)
    && forall x | x in now.services ::
         forall c | c in x.candidates && c.procedure == procedure :: CandidateKept(x, c, before)
  }

  ghost predicate CandidateKept(service: Service, c: Candidate, before: Snapshot) {
    exists y | y in before.services :: c in y.candidates && Covered(y.questions) <= Covered(service.questions)
  }

  /** The coverage gates were silent on the version over the catalog of the time, for every service that offered it. */
  ghost predicate SilentThen(v: Version, before: Snapshot) {
    forall y | y in before.services ::
      forall c | c in y.candidates && c.procedure == v.procedure :: CoverageGates.Silent(v, y, before.definitions)
  }

  /** So it was at each publication, over a catalog the present one keeps. */
  ghost predicate CoveredAtPublication(actions: seq<Action>, past: seq<Snapshot>, now: Snapshot) {
    && |past| == |actions|
    && forall i | 0 <= i < |actions| && actions[i].Publish? && actions[i].otherGatesPass ::
         var before := Run(EMPTY, actions[..i]);
         actions[i].pk in before.versions ==>
           var v := before.versions[actions[i].pk]; SilentThen(v, past[i]) && Kept(now, past[i], v.procedure)
  }

  /** What the gates establish of a version, in the present catalog. */
  ghost predicate ReadyIn(v: Version, now: Snapshot) {
    forall x | x in now.services ::
      forall c | c in x.candidates && c.procedure == v.procedure ::
        && VersionCovered(v, now.definitions, x.questions) && Rooted(v)
        && Shaped(c.selection) && RuleCovered(c.selection, now.definitions, x.questions)
  }

  lemma SilentThenReadyNow(v: Version, before: Snapshot, now: Snapshot)
    requires SilentThen(v, before) && Kept(now, before, v.procedure)
    ensures ReadyIn(v, now)
  {
    forall x, c | x in now.services && c in x.candidates && c.procedure == v.procedure
      ensures VersionCovered(v, now.definitions, x.questions) && Rooted(v)
      ensures Shaped(c.selection) && RuleCovered(c.selection, now.definitions, x.questions)
    {
      assert CandidateKept(x, c, before);
      var y :| y in before.services && c in y.candidates && Covered(y.questions) <= Covered(x.questions);
      SilentGatesCover(v, y, before.definitions);
      SilentIsRooted(v, y, before.definitions);
      SilentSelectionCovers(y, c, before.definitions);
      StillVersionCovered(v, before.definitions, y.questions, now.definitions, x.questions);
      StillRuleCovered(c.selection, before.definitions, y.questions, now.definitions, x.questions);
    }
  }

  ghost function IsReadyIn(now: Snapshot): Version -> bool {
    (v: Version) => ReadyIn(v, now)
  }

  lemma ReadinessIsStateBlind(now: Snapshot)
    ensures StateBlind(IsReadyIn(now))
  {
    forall v: Version, state | IsReadyIn(now)(v) ensures IsReadyIn(now)(v.(state := state)) {
      forall x, c | x in now.services && c in x.candidates && c.procedure == v.procedure
        ensures VersionCovered(v.(state := state), now.definitions, x.questions) && Rooted(v.(state := state))
        ensures Shaped(c.selection) && RuleCovered(c.selection, now.definitions, x.questions)
      {
        CoverageIgnoresState(v, state, now.definitions, x.questions);
      }
    }
  }

  lemma CoverageIgnoresState(v: Version, state: LifecycleState, definitions: Registry, questions: seq<Question>)
    requires VersionCovered(v, definitions, questions) && Rooted(v)
    ensures VersionCovered(v.(state := state), definitions, questions) && Rooted(v.(state := state))
  {}

  /** Every candidate of the service has a public version. */
  ghost predicate Offered(service: Service, versions: seq<Version>) {
    forall c | c in service.candidates :: exists v | v in versions :: v.procedure == c.procedure
  }

  /** The store's public versions, and services that each offer what is public and ask for source Facts only. */
  ghost predicate Serves(s: Snapshot, keys: seq<nat>, actions: seq<Action>) {
    && Lists(s.versions, keys, Run(EMPTY, actions))
    && forall x | x in s.services :: Offered(x, s.versions) && SoundQuestions(s.definitions, x.questions)
  }

  lemma PublicIsReady(actions: seq<Action>, past: seq<Snapshot>, s: Snapshot, keys: seq<nat>)
    requires Lists(s.versions, keys, Run(EMPTY, actions)) && CoveredAtPublication(actions, past, s)
    ensures forall v | v in s.versions :: ReadyIn(v, s)
  {
    forall i | 0 <= i < |actions| && actions[i].Publish? && actions[i].otherGatesPass
               && actions[i].pk in Run(EMPTY, actions[..i]).versions
      ensures IsReadyIn(s)(Run(EMPTY, actions[..i]).versions[actions[i].pk])
    {
      SilentThenReadyNow(Run(EMPTY, actions[..i]).versions[actions[i].pk], past[i], s);
    }
    ReadinessIsStateBlind(s);
    forall v | v in s.versions ensures ReadyIn(v, s) {
      var i :| 0 <= i < |s.versions| && s.versions[i] == v;
      PublicIsVetted(actions, IsReadyIn(s), keys[i]);
      assert IsReadyIn(s)(v);
    }
  }

  lemma ReadyIsServed(s: Snapshot, service: Service)
    requires service in s.services && Offered(service, s.versions) && SoundQuestions(s.definitions, service.questions)
    requires forall v | v in s.versions :: ReadyIn(v, s)
    ensures Served(s, service)
  {
    forall c | c in service.candidates
      ensures Shaped(c.selection) && RuleCovered(c.selection, s.definitions, service.questions)
    {
      var v :| v in s.versions && v.procedure == c.procedure;
      assert ReadyIn(v, s);
    }
  }

  /** Of the ways to stall, only lost sources remain in a store the lifecycle reached. */
  lemma NoVersionConflict(actions: seq<Action>, s: Snapshot, keys: seq<nat>, service: Service, facts: PreparedFacts,
                          on: Date)
    requires Lists(s.versions, keys, Run(EMPTY, actions))
    ensures !Stalled(s, service, facts, on, RESOLVING)
  {
    var choice := Choose(s.definitions, service, facts);
    if choice.Selected? { ResolverNeverReportsADefect(actions, s, keys, choice.procedure, on); }
  }

  /**
    Over a store reached by a run whose publications passed the coverage gates of their time, a prepared case gets
    a plan, a question or a reason; a configuration result means that a current basis or dependency has lost its
    sources.
   */
  lemma PublishedCasesAreAnswered(actions: seq<Action>, past: seq<Snapshot>, s: Snapshot, keys: seq<nat>, input: Input)
    returns (service: Service, facts: PreparedFacts)
    requires Serves(s, keys, actions) && CoveredAtPublication(actions, past, s)
    requires Operate(s, input).phase >= CHOOSING
    ensures FindService(s.services, input.service) == Some(service)
    ensures Prepare(s.definitions, service.contradictions, input.facts, input.on) == Prepared(facts)
    ensures AnsweredUnless(Operate(s, input), Stalled(s, service, facts, input.on, Operate(s, input).phase))
    ensures !Stalled(s, service, facts, input.on, RESOLVING)
  {
    PublicIsReady(actions, past, s, keys);
    forall x | x in s.services ensures Served(s, x) { ReadyIsServed(s, x); }
    service, facts := ServedCasesAreAnswered(s, input);
    NoVersionConflict(actions, s, keys, service, facts, input.on);
  }
}
