/**
  Disputed knowledge is never asserted: what a plan shows rests on claims that are current, so a claim
  with a discrepancy open on the day is asserted by no plan of that day, and a basis unlocks nothing.
 */
module AssertedClaims {
  import opened Wrappers
  import opened Ordering
  import opened Calendar
  import opened Facts
  import opened CasePreparation
  import opened Catalog
  import opened Tally
  import opened Versions
  import opened Guidance
  import opened Prerequisites
  import opened Routing
  import opened Planner
  import opened Questionnaire
  import opened PhaseOrder
  import opened EvidenceReplay
  import opened TrustProjection
  import W = EvidenceWorkflow

  // ----- what a plan is made of

  /** The plan lists what the selections over one stored version yield. */
  ghost predicate MadeFrom(plan: PlanResult, s: Snapshot, v: Version, facts: PreparedFacts, on: Date) {
    var bases := SelectBases(v, facts, on);
    var c := CaseOf(v, facts, on, bases);
    && v in s.versions && plan.version == v.id
    && plan.checklist == SelectChecklist(v, c).items && plan.steps == SelectStepRows(v, c).items
    && plan.fees == SelectFeeRows(v, c).items && plan.dependencies == SelectDependencies(s, v, facts, on).items
    && plan.routing == SelectServicePoints(s.points, s.pointVersions, v, facts, on)
    && plan.warnings == SelectWarnings(v, c)
    && plan.bases == WithGuidance(bases.items, plan.checklist, plan.steps)
    && plan.inconclusiveBases == SortedTexts(bases.inconclusive)
  }

  lemma ListedIsMade(s: Snapshot, service: Service, procedure: string, v: Version, facts: PreparedFacts, on: Date)
    requires v in s.versions && Weigh(s, service, procedure, v, facts, on).result.Plan?
    ensures MadeFrom(Weigh(s, service, procedure, v, facts, on).result.plan, s, v, facts, on)
  {
    var bases, dependencies := SelectBases(v, facts, on), SelectDependencies(s, v, facts, on);
    var c := CaseOf(v, facts, on, bases);
    WeighStopsOrLists(s, service, procedure, v, facts, on);
    ListedIsAssembled(s, service, procedure, v, c, on, bases, dependencies);
  }

  lemma ListedIsAssembled(s: Snapshot, service: Service, procedure: string, v: Version, c: Case, on: Date,
                          bases: Selection<PublicBasis>, dependencies: Selection<PublicDependency>)
    requires ListItems(s, service, procedure, v, c, on, bases, dependencies).result.Plan?
    ensures ListItems(s, service, procedure, v, c, on, bases, dependencies).result
            == Plan(Assemble(s, service, procedure, v, c, on, bases, dependencies))
  {
    ItemsStopOrGoOn(s, service, procedure, v, c, on, bases, dependencies);
    StepsStopOrGoOn(s, service, procedure, v, c, on, bases, dependencies);
    FeesStopOrAssemble(s, service, procedure, v, c, on, bases, dependencies);
  }

  /** The snapshot is there, and planning over it answers with this plan. */
  predicate Plans(s: Option<Snapshot>, input: Input, plan: PlanResult) {
    s.Some? && PlanStateless(s.value, input) == Plan(plan)
  }

  lemma PlanIsMade(s: Snapshot, input: Input, plan: PlanResult) returns (v: Version, facts: PreparedFacts)
    requires Plans(Some(s), input, plan)
    ensures MadeFrom(plan, s, v, facts, input.on)
  {
    PlannedProcedureIsChosen(s, input);
    AcceptedAgain(input.facts, s.definitions);
    var service := FindService(s.services, input.service).value;
    facts := Prepare(s.definitions, service.contradictions, input.facts, input.on).facts;
    assert PlanStateless(s, input) == Select(s, service, facts, input.on).result;
    v := SelectedIsMade(s, service, facts, input.on);
  }

  lemma SelectedIsMade(s: Snapshot, service: Service, facts: PreparedFacts, on: Date) returns (v: Version)
    requires Select(s, service, facts, on).result.Plan?
    ensures MadeFrom(Select(s, service, facts, on).result.plan, s, v, facts, on)
  {
    var procedure := Choose(s.definitions, service, facts).procedure;
    v := Resolve(s, procedure, on, None).version;
    ResolvedIsStored(s, procedure, on);
    AppliedIsWeighed(s, service, procedure, v, facts, on);
    ListedIsMade(s, service, procedure, v, facts, on);
  }

  lemma AppliedIsWeighed(s: Snapshot, service: Service, procedure: string, v: Version, facts: PreparedFacts, on: Date)
    requires Apply(s, service, procedure, v, facts, on).result.Plan?
    ensures Apply(s, service, procedure, v, facts, on) == Weigh(s, service, procedure, v, facts, on)
  {}

  // ----- rows under overlays that keep an owner from being current

  /** The owner's replayed state is known and is not `current`. */
  predicate Doubted(overlays: map<Owner, Overlay>, owner: Owner) {
    owner in overlays && overlays[owner].state.Some? && overlays[owner].state.value != Current
  }

  lemma DoubtedIsNotCurrent(c: Claim, kind: Kind, version: string, overlays: map<Owner, Overlay>)
    ensures ClaimUnder(c, kind, version, overlays).id == c.id
    ensures Doubted(overlays, Owner(kind, version, c.id)) ==> ClaimUnder(c, kind, version, overlays).state != Current
  {}

  /** Every claim of the version carries what its overlay says. */
  ghost predicate Reflects(v: Version, overlays: map<Owner, Overlay>) {
    && (forall r | r in v.checklist ::
          Doubted(overlays, Owner(ChecklistOwner, v.id, r.claim.id)) ==> r.claim.state != Current)
    && (forall r | r in v.steps :: Doubted(overlays, Owner(StepOwner, v.id, r.claim.id)) ==> r.claim.state != Current)
    && (forall r | r in v.warnings ::
          Doubted(overlays, Owner(WarningOwner, v.id, r.claim.id)) ==> r.claim.state != Current)
    && (forall r | r in v.fees :: Doubted(overlays, Owner(FeeOwner, v.id, r.claim.id)) ==> r.claim.state != Current)
    && (forall r | r in v.bases :: Doubted(overlays, Owner(BasisOwner, v.id, r.claim.id)) ==> r.claim.state != Current)
    && (forall r | r in v.dependencies ::
          Doubted(overlays, Owner(DependencyOwner, v.id, r.claim.id)) ==> r.claim.state != Current)
    && (forall r | r in v.associations ::
          Doubted(overlays, Owner(AssociationOwner, v.id, r.claim.id)) ==> r.claim.state != Current)
  }

  lemma MappedMember<R>(rows: seq<R>, f: R -> R, r: R) returns (was: R)
    requires r in MapRows(rows, f)
    ensures was in rows && r == f(was)
  {
    var i :| 0 <= i < |rows| && MapRows(rows, f)[i] == r;
    was := rows[i];
  }

  lemma ItemsReflect(rows: seq<ChecklistItem>, version: string, overlays: map<Owner, Overlay>)
    ensures forall r | r in MapRows(rows, ItemWith(version, Projection(overlays))) ::
              Doubted(overlays, Owner(ChecklistOwner, version, r.claim.id)) ==> r.claim.state != Current
  {
    forall r | r in MapRows(rows, ItemWith(version, Projection(overlays)))
           && Doubted(overlays, Owner(ChecklistOwner, version, r.claim.id))
      ensures r.claim.state != Current
    {
      var was := MappedMember(rows, ItemWith(version, Projection(overlays)), r);
      DoubtedIsNotCurrent(was.claim, ChecklistOwner, version, overlays);
    }
  }

  lemma StepsReflect(rows: seq<Step>, version: string, overlays: map<Owner, Overlay>)
    ensures forall r | r in MapRows(rows, StepWith(version, Projection(overlays))) ::
              Doubted(overlays, Owner(StepOwner, version, r.claim.id)) ==> r.claim.state != Current
  {
    forall r | r in MapRows(rows, StepWith(version, Projection(overlays)))
           && Doubted(overlays, Owner(StepOwner, version, r.claim.id))
      ensures r.claim.state != Current
    {
      var was := MappedMember(rows, StepWith(version, Projection(overlays)), r);
      DoubtedIsNotCurrent(was.claim, StepOwner, version, overlays);
    }
  }

  lemma WarningsReflect(rows: seq<Warning>, version: string, overlays: map<Owner, Overlay>)
    ensures forall r | r in MapRows(rows, WarningWith(version, Projection(overlays))) ::
              Doubted(overlays, Owner(WarningOwner, version, r.claim.id)) ==> r.claim.state != Current
  {
    forall r | r in MapRows(rows, WarningWith(version, Projection(overlays)))
           && Doubted(overlays, Owner(WarningOwner, version, r.claim.id))
      ensures r.claim.state != Current
    {
      var was := MappedMember(rows, WarningWith(version, Projection(overlays)), r);
      DoubtedIsNotCurrent(was.claim, WarningOwner, version, overlays);
    }
  }

  lemma FeesReflect(rows: seq<Fee>, version: string, overlays: map<Owner, Overlay>)
    ensures forall r | r in MapRows(rows, FeeWith(version, Projection(overlays))) ::
              Doubted(overlays, Owner(FeeOwner, version, r.claim.id)) ==> r.claim.state != Current
  {
    forall r | r in MapRows(rows, FeeWith(version, Projection(overlays)))
           && Doubted(overlays, Owner(FeeOwner, version, r.claim.id))
      ensures r.claim.state != Current
    {
      var was := MappedMember(rows, FeeWith(version, Projection(overlays)), r);
      DoubtedIsNotCurrent(was.claim, FeeOwner, version, overlays);
    }
  }

  lemma BasesReflect(rows: seq<EligibilityBasis>, version: string, overlays: map<Owner, Overlay>)
    ensures forall r | r in MapRows(rows, BasisWith(version, Projection(overlays))) ::
              Doubted(overlays, Owner(BasisOwner, version, r.claim.id)) ==> r.claim.state != Current
  {
    forall r | r in MapRows(rows, BasisWith(version, Projection(overlays)))
           && Doubted(overlays, Owner(BasisOwner, version, r.claim.id))
      ensures r.claim.state != Current
    {
      var was := MappedMember(rows, BasisWith(version, Projection(overlays)), r);
      DoubtedIsNotCurrent(was.claim, BasisOwner, version, overlays);
    }
  }

  lemma DependenciesReflect(rows: seq<Dependency>, version: string, overlays: map<Owner, Overlay>)
    ensures forall r | r in MapRows(rows, DependencyWith(version, Projection(overlays))) ::
              Doubted(overlays, Owner(DependencyOwner, version, r.claim.id)) ==> r.claim.state != Current
  {
    forall r | r in MapRows(rows, DependencyWith(version, Projection(overlays)))
           && Doubted(overlays, Owner(DependencyOwner, version, r.claim.id))
      ensures r.claim.state != Current
    {
      var was := MappedMember(rows, DependencyWith(version, Projection(overlays)), r);
      DoubtedIsNotCurrent(was.claim, DependencyOwner, version, overlays);
    }
  }

  lemma AssociationsReflect(rows: seq<Association>, version: string, overlays: map<Owner, Overlay>)
    ensures forall r | r in MapRows(rows, AssociationWith(version, Projection(overlays))) ::
              Doubted(overlays, Owner(AssociationOwner, version, r.claim.id)) ==> r.claim.state != Current
  {
    forall r | r in MapRows(rows, AssociationWith(version, Projection(overlays)))
           && Doubted(overlays, Owner(AssociationOwner, version, r.claim.id))
      ensures r.claim.state != Current
    {
      var was := MappedMember(rows, AssociationWith(version, Projection(overlays)), r);
      DoubtedIsNotCurrent(was.claim, AssociationOwner, version, overlays);
    }
  }

  lemma ProjectedReflects(s: Snapshot, overlays: map<Owner, Overlay>, v: Version)
    requires v in Under(s, overlays).versions
    ensures Reflects(v, overlays)
  {
    var was := MappedMember(s.versions, VersionWith(Projection(overlays)), v);
    ItemsReflect(was.checklist, v.id, overlays);
    StepsReflect(was.steps, v.id, overlays);
    WarningsReflect(was.warnings, v.id, overlays);
    FeesReflect(was.fees, v.id, overlays);
    BasesReflect(was.bases, v.id, overlays);
    DependenciesReflect(was.dependencies, v.id, overlays);
    AssociationsReflect(was.associations, v.id, overlays);
  }

  // ----- nothing doubted is shown

  /** Everything the plan asserts has an owner whose replayed state is not in doubt. */
  ghost predicate AssertsUndoubted(plan: PlanResult, overlays: map<Owner, Overlay>) {
    GuidanceIsUndoubted(plan, overlays) && PrerequisitesAreUndoubted(plan, overlays)
  }

  ghost predicate GuidanceIsUndoubted(plan: PlanResult, overlays: map<Owner, Overlay>) {
    && (forall x | x in plan.checklist ::
          && !Doubted(overlays, Owner(ChecklistOwner, plan.version, x.id))
          && (x.basisId.Some? ==> !Doubted(overlays, Owner(BasisOwner, plan.version, x.basisId.value))))
    && (forall x | x in plan.steps ::
          && !Doubted(overlays, Owner(StepOwner, plan.version, x.id))
          && (x.scope.BasisScope? ==>
                x.basisId.Some? && !Doubted(overlays, Owner(BasisOwner, plan.version, x.basisId.value))))
    && (forall x | x in plan.warnings && x.role != "regeneration" ::
          !Doubted(overlays, Owner(WarningOwner, plan.version, x.id)))
    && (forall x | x in plan.fees && (x.amount.Some? || x.minimum.Some? || x.maximum.Some?) ::
          !Doubted(overlays, Owner(FeeOwner, plan.version, x.id)))
  }

  ghost predicate PrerequisitesAreUndoubted(plan: PlanResult, overlays: map<Owner, Overlay>) {
    && (forall x | x in plan.bases && Doubted(overlays, Owner(BasisOwner, plan.version, x.id)) ::
          x.id in plan.inconclusiveBases && x.freshness.state != Current)
    && (forall x | x in plan.dependencies && (x.status == Satisfied || x.status == Blocking) ::
          !Doubted(overlays, Owner(DependencyOwner, plan.version, x.id)))
    && (forall x | x in plan.routing.destinations ::
          && !Doubted(overlays, Owner(AssociationOwner, plan.version, x.associationId))
          && !Doubted(overlays, Owner(MaterialOwner, "", x.versionId)))
  }

  /** The row is authored for an eligibility basis that is in doubt. */
  predicate HangsOnDoubted(v: Version, overlays: map<Owner, Overlay>, scope: Scope, basis: Option<string>) {
    scope.BasisScope? && basis.Some? && Doubted(overlays, Owner(BasisOwner, v.id, basis.value))
  }

  /** No doubted basis is trusted, and each fee is what some authored row shows that hangs on none. */
  ghost predicate UnlocksUndoubted(plan: PlanResult, v: Version, facts: PreparedFacts, on: Date,
                                   overlays: map<Owner, Overlay>) {
    var bases := SelectBases(v, facts, on);
    var c := CaseOf(v, facts, on, bases);
    && (forall b | b in bases.trusted :: !Doubted(overlays, Owner(BasisOwner, v.id, b)))
    && (forall x | x in plan.fees ::
          exists r | r in v.fees ::
            FeeEffect(r, c).shown == Some(x) && !HangsOnDoubted(v, overlays, r.scope, r.basisId))
  }

  lemma ChecklistIsUndoubted(v: Version, c: Case, overlays: map<Owner, Overlay>, x: PublicChecklistItem)
    requires Reflects(v, overlays) && x in SelectChecklist(v, c).items
    ensures !Doubted(overlays, Owner(ChecklistOwner, v.id, x.id))
    ensures x.basisId.Some? ==> c.matched.Some? && x.basisId.value in c.matched.value
  {
    var rows := SortBy(v.checklist, ItemLe);
    SortKeeps(v.checklist, ItemLe);
    TotalShows(rows, ChecklistEffects(c));
    var i :| 0 <= i < |rows| && ChecklistEffects(c)(rows[i]).shown == Some(x);
    var row := rows[i];
    assert row in v.checklist && ChecklistEffect(row, c).shown == Some(x);
    ChecklistShowsCurrent(row, c);
  }

  lemma StepsAreUndoubted(v: Version, c: Case, overlays: map<Owner, Overlay>, x: PublicStep)
    requires Reflects(v, overlays) && x in SelectStepRows(v, c).items
    ensures !Doubted(overlays, Owner(StepOwner, v.id, x.id))
    ensures x.scope.BasisScope? ==> x.basisId.Some? && c.matched.Some? && x.basisId.value in c.matched.value
  {
    var rows := SortBy(v.steps, StepLe);
    SortKeeps(v.steps, StepLe);
    TotalShows(rows, StepEffects(c));
    var i :| 0 <= i < |rows| && StepEffects(c)(rows[i]).shown == Some(x);
    assert rows[i] in rows;
    StepShowsCurrent(rows[i], c);
  }

  lemma WarningsAreUndoubted(v: Version, c: Case, overlays: map<Owner, Overlay>, x: PublicWarning)
    requires Reflects(v, overlays) && x in SelectWarnings(v, c) && x.role != "regeneration"
    ensures !Doubted(overlays, Owner(WarningOwner, v.id, x.id))
  {
    var rows := SortBy(v.warnings, WarningLe);
    SortKeeps(v.warnings, WarningLe);
    TotalShows(rows, WarningEffects(c));
    var i :| 0 <= i < |rows| && WarningEffects(c)(rows[i]).shown == Some(x);
    assert rows[i] in rows;
    WarningShowsCurrent(rows[i], c);
  }

  lemma FeeAmountsAreUndoubted(v: Version, c: Case, overlays: map<Owner, Overlay>, x: PublicFee)
    requires Reflects(v, overlays) && x in SelectFeeRows(v, c).items
             && (x.amount.Some? || x.minimum.Some? || x.maximum.Some?)
    ensures !Doubted(overlays, Owner(FeeOwner, v.id, x.id))
  {
    var rows := SortBy(v.fees, FeeLe);
    SortKeeps(v.fees, FeeLe);
    TotalShows(rows, FeeEffects(c));
    var i :| 0 <= i < |rows| && FeeEffects(c)(rows[i]).shown == Some(x);
    assert rows[i] in rows;
    FeeAmountIsCurrent(rows[i], c);
  }

  lemma FeeIsUnlocked(v: Version, c: Case, x: PublicFee) returns (r: Fee)
    requires x in SelectFeeRows(v, c).items
    ensures r in v.fees && FeeEffect(r, c).shown == Some(x)
    ensures r.scope.BasisScope? ==> c.matched.Some? && InSet(r.basisId, c.matched.value)
  {
    var rows := SortBy(v.fees, FeeLe);
    SortKeeps(v.fees, FeeLe);
    TotalShows(rows, FeeEffects(c));
    var i :| 0 <= i < |rows| && FeeEffects(c)(rows[i]).shown == Some(x);
    r := rows[i];
    assert r in rows;
    FeeAmountIsCurrent(r, c);
  }

  lemma GuidedBasis(bases: seq<PublicBasis>, items: seq<PublicChecklistItem>, steps: seq<PublicStep>, x: PublicBasis)
    returns (b: PublicBasis)
    requires x in WithGuidance(bases, items, steps)
    ensures b in bases && b.id == x.id && b.freshness == x.freshness
  {
    var i :| 0 <= i < |bases| && WithGuidance(bases, items, steps)[i] == x;
    b := bases[i];
  }

  lemma ListedBasesAreJudged(v: Version, facts: PreparedFacts, on: Date, overlays: map<Owner, Overlay>, x: PublicBasis)
    requires Reflects(v, overlays) && x in SelectBases(v, facts, on).items
             && Doubted(overlays, Owner(BasisOwner, v.id, x.id))
    ensures x.id in SelectBases(v, facts, on).inconclusive && x.freshness.state != Current
  {
    var rows := SortBy(v.bases, BasisLe);
    SortKeeps(v.bases, BasisLe);
    TotalShows(rows, BasisEffects(facts, on));
    TotalInconclusive(rows, BasisEffects(facts, on));
    var i :| 0 <= i < |rows| && BasisEffects(facts, on)(rows[i]).shown == Some(x);
    assert rows[i] in rows;
    ShownBasisIsTrustedOrInconclusive(rows[i], facts, on);
    assert x.id in BasisEffects(facts, on)(rows[i]).inconclusive;
  }

  lemma TrustedBasesAreUndoubted(v: Version, facts: PreparedFacts, on: Date, overlays: map<Owner, Overlay>, b: string)
    requires Reflects(v, overlays) && b in SelectBases(v, facts, on).trusted
    ensures !Doubted(overlays, Owner(BasisOwner, v.id, b))
  {
    var rows := SortBy(v.bases, BasisLe);
    SortKeeps(v.bases, BasisLe);
    TotalTrusted(rows, BasisEffects(facts, on));
    var i :| 0 <= i < |rows| && b in BasisEffects(facts, on)(rows[i]).trusted;
    assert rows[i] in rows;
    TrustedBasisIsCurrent(rows[i], facts, on);
  }

  lemma DecidedDependenciesAreUndoubted(s: Snapshot, v: Version, facts: PreparedFacts, on: Date,
                                        overlays: map<Owner, Overlay>, x: PublicDependency)
    requires Reflects(v, overlays) && x in SelectDependencies(s, v, facts, on).items
             && (x.status == Satisfied || x.status == Blocking)
    ensures !Doubted(overlays, Owner(DependencyOwner, v.id, x.id))
  {
    var rows := SortBy(v.dependencies, DependencyLe);
    SortKeeps(v.dependencies, DependencyLe);
    TotalShows(rows, DependencyEffects(s, facts, on));
    var i :| 0 <= i < |rows| && DependencyEffects(s, facts, on)(rows[i]).shown == Some(x);
    assert rows[i] in rows;
    DecidedDependencyIsCurrent(rows[i], s, facts, on);
  }

  lemma MaterialsReflect(s: Snapshot, overlays: map<Owner, Overlay>, m: PointVersion)
    requires m in Under(s, overlays).pointVersions
    ensures Doubted(overlays, Owner(MaterialOwner, "", m.claim.id)) ==> m.claim.state != Current
  {
    var was := MappedMember(s.pointVersions, MaterialWith(Projection(overlays)), m);
    DoubtedIsNotCurrent(was.claim, MaterialOwner, "", overlays);
  }

  lemma DestinationsAreUndoubted(s: Snapshot, v: Version, facts: PreparedFacts, on: Date, overlays: map<Owner, Overlay>,
                                 x: PublicServicePoint)
    requires Reflects(v, overlays)
    requires var t := Under(s, overlays); x in SelectServicePoints(t.points, t.pointVersions, v, facts, on).destinations
    ensures !Doubted(overlays, Owner(AssociationOwner, v.id, x.associationId))
    ensures !Doubted(overlays, Owner(MaterialOwner, "", x.versionId))
  {
    var t := Under(s, overlays);
    var a := SelectedDestination(t.points, t.pointVersions, v, facts, on, x);
    DestinationIsCurrent(a, t.points, t.pointVersions, facts, on);
    FoundMaterial(t.pointVersions, a.pointVersionId);
    MaterialsReflect(s, overlays, PointVersionOf(t.pointVersions, a.pointVersionId).value);
  }

  /** On a snapshot under its overlays, no plan asserts a doubted claim, and no doubted basis unlocks anything. */
  lemma PlansAssertUndoubted(s: Snapshot, overlays: map<Owner, Overlay>, input: Input, plan: PlanResult)
    returns (v: Version, facts: PreparedFacts)
    requires Plans(Some(Under(s, overlays)), input, plan)
    ensures MadeFrom(plan, Under(s, overlays), v, facts, input.on)
    ensures AssertsUndoubted(plan, overlays) && UnlocksUndoubted(plan, v, facts, input.on, overlays)
  {
    v, facts := PlanIsMade(Under(s, overlays), input, plan);
    ProjectedReflects(s, overlays, v);
    MadeGuidanceIsUndoubted(s, overlays, plan, v, facts, input.on);
    MadePrerequisitesAreUndoubted(s, overlays, plan, v, facts, input.on);
    MadeUnlocksUndoubted(s, overlays, plan, v, facts, input.on);
  }

  lemma MadeGuidanceIsUndoubted(s: Snapshot, overlays: map<Owner, Overlay>, plan: PlanResult, v: Version,
                                facts: PreparedFacts, on: Date)
    requires MadeFrom(plan, Under(s, overlays), v, facts, on) && Reflects(v, overlays)
    ensures GuidanceIsUndoubted(plan, overlays)
  {
    var bases := SelectBases(v, facts, on);
    var c := CaseOf(v, facts, on, bases);
    forall x | x in plan.checklist
      ensures !Doubted(overlays, Owner(ChecklistOwner, plan.version, x.id))
      ensures x.basisId.Some? ==> !Doubted(overlays, Owner(BasisOwner, plan.version, x.basisId.value))
    {
      ChecklistIsUndoubted(v, c, overlays, x);
      if x.basisId.Some? { TrustedBasesAreUndoubted(v, facts, on, overlays, x.basisId.value); }
    }
    forall x | x in plan.steps
      ensures !Doubted(overlays, Owner(StepOwner, plan.version, x.id))
      ensures x.scope.BasisScope? ==>
                x.basisId.Some? && !Doubted(overlays, Owner(BasisOwner, plan.version, x.basisId.value))
    {
      StepsAreUndoubted(v, c, overlays, x);
      if x.scope.BasisScope? { TrustedBasesAreUndoubted(v, facts, on, overlays, x.basisId.value); }
    }
    forall x | x in plan.warnings && x.role != "regeneration" { WarningsAreUndoubted(v, c, overlays, x); }
    forall x | x in plan.fees && (x.amount.Some? || x.minimum.Some? || x.maximum.Some?) {
      FeeAmountsAreUndoubted(v, c, overlays, x);
    }
  }

  lemma MadePrerequisitesAreUndoubted(s: Snapshot, overlays: map<Owner, Overlay>, plan: PlanResult, v: Version,
                                      facts: PreparedFacts, on: Date)
    requires MadeFrom(plan, Under(s, overlays), v, facts, on) && Reflects(v, overlays)
    ensures PrerequisitesAreUndoubted(plan, overlays)
  {
    var t, bases := Under(s, overlays), SelectBases(v, facts, on);
    forall x | x in plan.bases && Doubted(overlays, Owner(BasisOwner, plan.version, x.id))
      ensures x.id in plan.inconclusiveBases && x.freshness.state != Current
    {
      var b := GuidedBasis(bases.items, plan.checklist, plan.steps, x);
      ListedBasesAreJudged(v, facts, on, overlays, b);
    }
    forall x | x in plan.dependencies && (x.status == Satisfied || x.status == Blocking) {
      DecidedDependenciesAreUndoubted(t, v, facts, on, overlays, x);
    }
    forall x | x in plan.routing.destinations
      ensures !Doubted(overlays, Owner(AssociationOwner, plan.version, x.associationId))
      ensures !Doubted(overlays, Owner(MaterialOwner, "", x.versionId))
    {
      DestinationsAreUndoubted(s, v, facts, on, overlays, x);
    }
  }

  lemma MadeUnlocksUndoubted(s: Snapshot, overlays: map<Owner, Overlay>, plan: PlanResult, v: Version,
                             facts: PreparedFacts, on: Date)
    requires MadeFrom(plan, Under(s, overlays), v, facts, on) && Reflects(v, overlays)
    ensures UnlocksUndoubted(plan, v, facts, on, overlays)
  {
    var bases := SelectBases(v, facts, on);
    var c := CaseOf(v, facts, on, bases);
    forall b | b in bases.trusted { TrustedBasesAreUndoubted(v, facts, on, overlays, b); }
    forall x | x in plan.fees
      ensures exists r | r in v.fees ::
                FeeEffect(r, c).shown == Some(x) && !HangsOnDoubted(v, overlays, r.scope, r.basisId)
    {
      var r := FeeIsUnlocked(v, c, x);
      if r.scope.BasisScope? { TrustedBasesAreUndoubted(v, facts, on, overlays, r.basisId.value); }
    }
  }

  /** Nothing in the plan asserts the owner's claim or hangs on it. */
  ghost predicate AssertsNothingOf(plan: PlanResult, owner: Owner) {
    && (owner.kind == MaterialOwner && owner.version == "" ==>
          forall x | x in plan.routing.destinations :: x.versionId != owner.id)
    && (plan.version == owner.version ==>
      && (owner.kind == ChecklistOwner ==> forall x | x in plan.checklist :: x.id != owner.id)
      && (owner.kind == BasisOwner ==>
            && (forall x | x in plan.checklist :: x.basisId != Some(owner.id))
            && (forall x | x in plan.steps :: !(x.scope.BasisScope? && x.basisId == Some(owner.id)))
            && (forall x | x in plan.bases && x.id == owner.id ::
                  x.id in plan.inconclusiveBases && x.freshness.state != Current))
      && (owner.kind == StepOwner ==> forall x | x in plan.steps :: x.id != owner.id)
      && (owner.kind == WarningOwner ==> forall x | x in plan.warnings && x.id == owner.id :: x.role == "regeneration")
      && (owner.kind == FeeOwner ==>
            forall x | x in plan.fees && x.id == owner.id :: x.amount.None? && x.minimum.None? && x.maximum.None?)
      && (owner.kind == DependencyOwner ==>
            forall x | x in plan.dependencies && x.id == owner.id :: x.status != Satisfied && x.status != Blocking)
      && (owner.kind == AssociationOwner ==> forall x | x in plan.routing.destinations :: x.associationId != owner.id))
  }

  /** The owner, when it is a basis of the version, is not trusted, and no fee of the plan hangs on it. */
  ghost predicate UnlocksNothing(plan: PlanResult, v: Version, facts: PreparedFacts, on: Date, owner: Owner) {
    var bases := SelectBases(v, facts, on);
    owner.kind == BasisOwner && owner.version == v.id ==>
      && owner.id !in bases.trusted
      && forall x | x in plan.fees ::
           exists r | r in v.fees ::
             FeeEffect(r, CaseOf(v, facts, on, bases)).shown == Some(x)
             && !(r.scope.BasisScope? && r.basisId == Some(owner.id))
  }

  lemma DoubtedIsNotAsserted(plan: PlanResult, overlays: map<Owner, Overlay>, owner: Owner)
    requires AssertsUndoubted(plan, overlays) && Doubted(overlays, owner)
    ensures AssertsNothingOf(plan, owner)
  {}

  lemma DoubtedUnlocksNothing(plan: PlanResult, v: Version, facts: PreparedFacts, on: Date,
                              overlays: map<Owner, Overlay>, owner: Owner)
    requires UnlocksUndoubted(plan, v, facts, on, overlays) && Doubted(overlays, owner)
    ensures UnlocksNothing(plan, v, facts, on, owner)
  {
    if owner.kind == BasisOwner && owner.version == v.id {
      var c := CaseOf(v, facts, on, SelectBases(v, facts, on));
      forall x | x in plan.fees
        ensures exists r | r in v.fees ::
                  FeeEffect(r, c).shown == Some(x) && !(r.scope.BasisScope? && r.basisId == Some(owner.id))
      {
        var r :| r in v.fees && FeeEffect(r, c).shown == Some(x) && !HangsOnDoubted(v, overlays, r.scope, r.basisId);
      }
    }
  }

  /**
    While a workflow discrepancy about a claim is open on the day, no plan of that day asserts the claim:
    no checklist item, step, warning, fee amount, decided dependency or destination has it. A basis it is
    about is listed as inconclusive if at all, is not trusted, and no listed item, step or fee hangs on it.
   */
  lemma OpenDiscrepancyIsNeverAsserted(s: Snapshot, t: W.Tables, opening: seq<nat>, resolving: seq<Option<nat>>, d: nat,
                                       input: Input, plan: PlanResult) returns (v: Version, facts: PreparedFacts)
    requires W.Consistent(t, opening, resolving) && d < |t.discrepancies| && W.OpenOn(t.discrepancies[d], input.on)
    requires W.Referenced(t) && Plans(ProjectedSnapshot(s, W.CapturedHistory(t, input.on)), input, plan)
    ensures MadeFrom(plan, Under(s, OverlaysOf(W.CapturedHistory(t, input.on))), v, facts, input.on)
    ensures AssertsNothingOf(plan, t.discrepancies[d].owner)
    ensures UnlocksNothing(plan, v, facts, input.on, t.discrepancies[d].owner)
  {
    var history := W.CapturedHistory(t, input.on);
    W.OpenIsNotCurrent(t, opening, resolving, d, input.on);
    v, facts := PlansAssertUndoubted(s, OverlaysOf(history), input, plan);
    DoubtedIsNotAsserted(plan, OverlaysOf(history), t.discrepancies[d].owner);
    DoubtedUnlocksNothing(plan, v, facts, input.on, OverlaysOf(history), t.discrepancies[d].owner);
  }
}
