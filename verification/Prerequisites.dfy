/** Eligibility bases and direct prerequisites (planning/eligibility_bases.py, planning/dependencies.py). */
module Prerequisites {
  import opened Wrappers
  import opened Ordering
  import opened Calendar
  import opened Facts
  import opened Rules
  import opened Evaluator
  import opened Catalog
  import opened Trust
  import opened Tally
  import opened Versions
  import opened Guidance

  // ----- eligibility bases

  datatype PublicBasis =
    PublicBasis(id: string, text: Text, sources: seq<PublicSource>, freshness: Freshness,
                checklistIds: seq<string>, stepIds: seq<string>)

  predicate BasisLe(a: EligibilityBasis, b: EligibilityBasis) {
    a.displayOrder < b.displayOrder || (a.displayOrder == b.displayOrder && TextLe(a.claim.id, b.claim.id))
  }

  predicate Distrusted(f: Freshness) {
    f.state == Stale || f.state == Disputed || f.state == Unverified
  }

  /** An undecided stage asks, unless the basis is distrusted anyway. */
  function Undecided(item: EligibilityBasis, trust: Assessment, rule: Option<Predicate>,
                     facts: PreparedFacts): Effect<PublicBasis> {
    if Distrusted(trust.freshness) then Nothing().(inconclusive := {item.claim.id}) else Asks(Unanswered(rule, facts))
  }

  function BasisEffect(item: EligibilityBasis, facts: PreparedFacts, on: Date): Effect<PublicBasis> {
    if !InForce(item.claim, on) then Nothing()
    else if item.qualification.None? then Invalid()
    else
      var trust := AssessDatedClaim(item.claim, on);
      match Verdict(item.reachability, facts)
      case FALSE => Nothing()
      case UNKNOWN => Undecided(item, trust, item.reachability, facts)
      case TRUE =>
        match Verdict(item.qualification, facts)
        case FALSE => Nothing()
        case UNKNOWN => Undecided(item, trust, item.qualification, facts)
        case TRUE =>
          var sources := SupportingSources(item.claim.links, on, false);
          if trust.disposition == AssertCurrent then
            if sources.None? then Invalid()
            else
              Shows(PublicBasis(item.claim.id, item.text, sources.value, trust.freshness, [],
                                [])).(trusted := {item.claim.id})
          else
            Shows(PublicBasis(item.claim.id, item.text, ClaimSources(item.claim.links), trust.freshness, [], []))
              .(inconclusive := {item.claim.id})
  }

  function BasisEffects(facts: PreparedFacts, on: Date): EligibilityBasis -> Effect<PublicBasis> {
    (item: EligibilityBasis) => BasisEffect(item, facts, on)
  }

  function SelectBases(v: Version, facts: PreparedFacts, on: Date): Selection<PublicBasis> {
    Total(SortBy(v.bases, BasisLe), BasisEffects(facts, on))
  }

  predicate NoApplicableBasis(v: Version, s: Selection<PublicBasis>) {
    v.bases != [] && s.items == [] && s.inconclusive == {} && s.missing == {}
  }

  method BasisRow(item: EligibilityBasis, facts: PreparedFacts, on: Date) returns (e: Effect<PublicBasis>)
    ensures e == BasisEffect(item, facts, on)
  {
    e := Nothing();
    if (item.claim.effectiveFrom.Some? && Before(on, item.claim.effectiveFrom.value))
       || (item.claim.effectiveTo.Some? && Before(item.claim.effectiveTo.value, on)) { return; }
    if item.qualification.None? { e := e.(invalid := true); return; }
    var trust := AssessDatedClaim(item.claim, on);
    if item.reachability.Some? {
      var reachability, unanswered := Judge(item.reachability, facts);
      if reachability == FALSE { return; }
      if reachability == UNKNOWN {
        if trust.freshness.state in {Stale, Disputed, Unverified} {
          e := e.(inconclusive := {item.claim.id});
        } else {
          e := e.(asks := unanswered);
        }
        return;
      }
    }
    var qualification, unanswered := Judge(item.qualification, facts);
    if qualification == FALSE { return; }
    if qualification == UNKNOWN {
      if trust.freshness.state in {Stale, Disputed, Unverified} {
        e := e.(inconclusive := {item.claim.id});
      } else {
        e := e.(asks := unanswered);
      }
      return;
    }
    var sources: seq<PublicSource>;
    if trust.disposition == AssertCurrent {
      var supporting := CollectSupportingSources(item.claim.links, on, false);
      if supporting.None? { e := e.(invalid := true); return; }
      sources := supporting.value;
      e := e.(trusted := {item.claim.id});
    } else {
      sources := CollectClaimSources(item.claim.links);
      e := e.(inconclusive := {item.claim.id});
    }
    e := e.(shown := Some(PublicBasis(item.claim.id, item.text, sources, trust.freshness, [], [])));
  }

  method SelectEligibilityBases(v: Version, facts: PreparedFacts, on: Date) returns (r: Selection<PublicBasis>)
    ensures r == SelectBases(v, facts, on)
  {
    r := Empty();
    var rows := SortBy(v.bases, BasisLe);
    ghost var effect := BasisEffects(facts, on);
    for n := 0 to |rows|
      invariant r == Total(rows[..n], effect)
    {
      TotalNext(rows, n, effect);
      var e := BasisRow(rows[n], facts, on);
      r := Accumulate(r, e);
    }
    TotalAll(rows, effect);
  }

  // ----- direct prerequisites

  datatype DependencyStatus = Satisfied | Blocking | UnsupportedTarget | InconclusiveStatus

  datatype PublicDependency =
    PublicDependency(id: string, text: Text, status: DependencyStatus, target: string, targetText: Text,
                     targetVersion: Option<string>, sources: seq<PublicSource>, freshness: Freshness)

  predicate DependencyLe(a: Dependency, b: Dependency) {
    a.displayOrder < b.displayOrder || (a.displayOrder == b.displayOrder && TextLe(a.claim.id, b.claim.id))
  }

  function StatusOf(satisfied: bool, target: Resolution): DependencyStatus {
    if satisfied then Satisfied else if target.Resolved? then Blocking
    else if target.Defect? then InconclusiveStatus else UnsupportedTarget
  }

  function DependencyEffect(item: Dependency, snapshot: Snapshot, facts: PreparedFacts,
                            on: Date): Effect<PublicDependency> {
    if !InForce(item.claim, on) then Nothing()
    else if !item.blocking || item.satisfiedWhen.None? then Invalid()
    else
      var trust := AssessDatedClaim(item.claim, on);
      var applies := Verdict(item.applicability, facts);
      if applies == FALSE then Nothing()
      else if trust.disposition != AssertCurrent then
        Shows(PublicDependency(item.claim.id, item.text, InconclusiveStatus, item.target, item.targetText, None,
                               ClaimSources(item.claim.links), trust.freshness))
      else if applies == UNKNOWN then Asks(Unanswered(item.applicability, facts))
      else
        var satisfied := Verdict(item.satisfiedWhen, facts);
        var sources := SupportingSources(item.claim.links, on, false);
        if satisfied == UNKNOWN then Asks(Unanswered(item.satisfiedWhen, facts))
        else if sources.None? then Invalid()
        else
          var target := Resolve(snapshot, item.target, on, None);
          Shows(PublicDependency(item.claim.id, item.text, StatusOf(satisfied == TRUE, target), item.target,
                                 item.targetText, if target.Resolved? then Some(target.version.id) else None,
                                 sources.value, trust.freshness))
  }

  function DependencyEffects(snapshot: Snapshot, facts: PreparedFacts,
                             on: Date): Dependency -> Effect<PublicDependency> {
    (item: Dependency) => DependencyEffect(item, snapshot, facts, on)
  }

  function SelectDependencies(snapshot: Snapshot, v: Version, facts: PreparedFacts,
                              on: Date): Selection<PublicDependency> {
    Total(SortBy(v.dependencies, DependencyLe), DependencyEffects(snapshot, facts, on))
  }

  method DependencyRow(item: Dependency, snapshot: Snapshot, facts: PreparedFacts, on: Date)
    returns (e: Effect<PublicDependency>)
    ensures e == DependencyEffect(item, snapshot, facts, on)
  {
    e := Nothing();
    if (item.claim.effectiveFrom.Some? && Before(on, item.claim.effectiveFrom.value))
       || (item.claim.effectiveTo.Some? && Before(item.claim.effectiveTo.value, on)) { return; }
    if !item.blocking { e := e.(invalid := true); return; }
    if item.satisfiedWhen.None? { e := e.(invalid := true); return; }
    var trust := AssessDatedClaim(item.claim, on);
    var applicability, unanswered := Judge(item.applicability, facts);
    if trust.disposition != AssertCurrent {
      if applicability == FALSE { return; }
      var claimed := CollectClaimSources(item.claim.links);
      e := e.(shown := Some(PublicDependency(item.claim.id, item.text, InconclusiveStatus, item.target, item.targetText,
                                             None, claimed, trust.freshness)));
      return;
    }
    if applicability == FALSE { return; }
    if applicability == UNKNOWN { e := e.(asks := unanswered); return; }
    var satisfied, unsatisfied := Judge(item.satisfiedWhen, facts);
    if satisfied == UNKNOWN { e := e.(asks := unsatisfied); return; }
    var sources := CollectSupportingSources(item.claim.links, on, false);
    if sources.None? { e := e.(invalid := true); return; }
    var target := Resolve(snapshot, item.target, on, None);
    var status: DependencyStatus;
    if satisfied == TRUE {
      status := Satisfied;
    } else if target.Resolved? {
      status := Blocking;
    } else if target.Defect? {
      status := InconclusiveStatus;
    } else {
      status := UnsupportedTarget;
    }
    e := e.(shown := Some(PublicDependency(item.claim.id, item.text, status, item.target, item.targetText,
                                           if target.Resolved? then Some(target.version.id) else None,
                                           sources.value, trust.freshness)));
  }

  method SelectProcedureDependencies(snapshot: Snapshot, v: Version, facts: PreparedFacts, on: Date)
    returns (r: Selection<PublicDependency>)
    ensures r == SelectDependencies(snapshot, v, facts, on)
  {
    r := Empty();
    var rows := SortBy(v.dependencies, DependencyLe);
    ghost var effect := DependencyEffects(snapshot, facts, on);
    for n := 0 to |rows|
      invariant r == Total(rows[..n], effect)
    {
      TotalNext(rows, n, effect);
      var e := DependencyRow(rows[n], snapshot, facts, on);
      r := Accumulate(r, e);
    }
    TotalAll(rows, effect);
  }

  // ----- what a row asks for

  lemma BasisAsks(item: EligibilityBasis, facts: PreparedFacts, on: Date)
    ensures BasisEffect(item, facts, on).asks <= Unanswered(item.reachability, facts)
            + Unanswered(item.qualification, facts)
  {}

  lemma DependencyAsks(item: Dependency, s: Snapshot, facts: PreparedFacts, on: Date)
    ensures DependencyEffect(item, s, facts, on).asks <= Unanswered(item.applicability, facts)
            + Unanswered(item.satisfiedWhen, facts)
  {}

  // ----- only current claims unlock or block anything

  lemma TrustedBasisIsCurrent(item: EligibilityBasis, facts: PreparedFacts, on: Date)
    ensures BasisEffect(item, facts, on).trusted != {} ==>
              item.claim.state == Current && BasisEffect(item, facts, on).trusted == {item.claim.id}
  {
    OnlyCurrentIsAsserted(item.claim, on);
  }

  /** A listed basis that is not current is reported as inconclusive. */
  lemma ShownBasisIsTrustedOrInconclusive(item: EligibilityBasis, facts: PreparedFacts, on: Date)
    ensures BasisEffect(item, facts, on).shown.Some? ==>
              var e := BasisEffect(item, facts, on);
              && e.shown.value.id == item.claim.id
              && (item.claim.state != Current ==>
                    item.claim.id in e.inconclusive && e.shown.value.freshness.state != Current)
  {
    OnlyCurrentIsAsserted(item.claim, on);
  }

  lemma DecidedDependencyIsCurrent(item: Dependency, snapshot: Snapshot, facts: PreparedFacts, on: Date)
    ensures DependencyEffect(item, snapshot, facts, on).shown.Some? ==>
              var d := DependencyEffect(item, snapshot, facts, on).shown.value;
              d.id == item.claim.id && (d.status == Satisfied || d.status == Blocking ==> item.claim.state == Current)
  {
    OnlyCurrentIsAsserted(item.claim, on);
  }
}
