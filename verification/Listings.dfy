/**
  What a selection gathers from its rows and in which order it lists them (planning/checklists.py, steps.py, fees.py,
  warnings.py, eligibility_bases.py, dependencies.py).
 */
module Listings {
  import opened Wrappers
  import opened Ordering
  import opened Calendar
  import opened Catalog
  import opened Facts
  import opened Tally
  import opened Guidance
  import opened Prerequisites

  /** Every set and flag of the selection is what some authored row put there. */
  ghost predicate Gathers<R, P>(s: Selection<P>, rows: seq<R>, effect: R -> Effect<P>) {
    && (forall k :: k in s.missing <==> exists r | r in rows :: k in effect(r).asks)
    && (forall k :: k in s.trusted <==> exists r | r in rows :: k in effect(r).trusted)
    && (forall k :: k in s.inconclusive <==> exists r | r in rows :: k in effect(r).inconclusive)
    && (s.configurationInvalid <==> exists r | r in rows :: effect(r).invalid)
    && (s.basisRequired <==> exists r | r in rows :: effect(r).needsBasis)
    && (s.undecided <==> exists r | r in rows :: effect(r).undecided)
    && (s.trustInconclusive <==> exists r | r in rows :: effect(r).trustGap)
  }

  /** The items are what the rows at these positions show, in turn, and no other row shows anything. */
  ghost predicate ShowsInTurn<R, P>(items: seq<P>, rows: seq<R>, at: seq<int>, effect: R -> Effect<P>) {
    && |at| == |items| && (forall n | 0 <= n < |at| :: 0 <= at[n] < |rows|)
    && (forall m, n | 0 <= m < n < |at| :: at[m] < at[n])
    && (forall n | 0 <= n < |at| :: effect(rows[at[n]]).shown == Some(items[n]))
    && forall i | 0 <= i < |rows| && effect(rows[i]).shown.Some? :: i in at
  }

  /** The rows in the order of their number, and of their ids where the numbers agree. */
  ghost predicate InTurn<R>(sorted: seq<R>, rows: seq<R>, number: R -> int, id: R -> string) {
    && multiset(sorted) == multiset(rows)
    && forall i, j | 0 <= i < j < |sorted| ::
         number(sorted[i]) < number(sorted[j])
         || (number(sorted[i]) == number(sorted[j]) && TextLe(id(sorted[i]), id(sorted[j])))
  }

  lemma {:induction false} TotalShowsInTurn<R, P>(rows: seq<R>, effect: R -> Effect<P>) returns (at: seq<int>)
    ensures ShowsInTurn(Total(rows, effect).items, rows, at, effect)
  {
    at := [];
    if rows != [] {
      var init, n := rows[..|rows| - 1], |rows| - 1;
      at := TotalShowsInTurn(init, effect);
      assert forall i | 0 <= i < n :: init[i] == rows[i];
      if effect(rows[n]).shown.Some? { at := at + [n]; }
    }
  }

  lemma TotalGathers<R, P>(sorted: seq<R>, rows: seq<R>, effect: R -> Effect<P>)
    requires forall r :: r in sorted <==> r in rows
    ensures Gathers(Total(sorted, effect), rows, effect)
  {
    TotalAsks(sorted, effect);
    TotalTrusted(sorted, effect);
    TotalInconclusive(sorted, effect);
    TotalFlags(sorted, effect);
    forall r | r in rows ensures exists i | 0 <= i < |sorted| :: sorted[i] == r { assert r in sorted; }
    forall i | 0 <= i < |sorted| ensures sorted[i] in rows { assert sorted[i] in sorted; }
  }

  lemma NumberedIsOrder<R(!new)>(le: (R, R) -> bool, number: R -> int, id: R -> string)
    requires forall a, b ::
               le(a, b) <==> number(a) < number(b) || (number(a) == number(b) && TextLe(id(a), id(b)))
    ensures IsOrder(le)
  {
    forall a, b ensures le(a, b) || le(b, a) { TextLeTotal(id(a), id(b)); }
    forall a, b, c | le(a, b) && le(b, c) ensures le(a, c) {
      if TextLe(id(a), id(b)) && TextLe(id(b), id(c)) { TextLeTransitive(id(a), id(b), id(c)); }
    }
  }

  /** Rows sorted by number and id, and everything their selection gathers from them. */
  lemma SelectionListed<R(!new), P>(rows: seq<R>, le: (R, R) -> bool, number: R -> int, id: R -> string,
                                    effect: R -> Effect<P>) returns (sorted: seq<R>, at: seq<int>)
    requires forall a, b ::
               le(a, b) <==> number(a) < number(b) || (number(a) == number(b) && TextLe(id(a), id(b)))
    ensures InTurn(sorted, rows, number, id)
    ensures ShowsInTurn(Total(SortBy(rows, le), effect).items, sorted, at, effect)
    ensures Gathers(Total(SortBy(rows, le), effect), rows, effect)
  {
    NumberedIsOrder(le, number, id);
    sorted := SortBy(rows, le);
    SortKeeps(rows, le);
    SortSorts(rows, le);
    at := TotalShowsInTurn(sorted, effect);
    TotalGathers(sorted, rows, effect);
  }

  lemma ChecklistIsListed(v: Version, c: Case) returns (sorted: seq<ChecklistItem>, at: seq<int>)
    ensures InTurn(sorted, v.checklist, (r: ChecklistItem) => r.displayOrder, (r: ChecklistItem) => r.claim.id)
    ensures ShowsInTurn(SelectChecklist(v, c).items, sorted, at, ChecklistEffects(c))
    ensures Gathers(SelectChecklist(v, c), v.checklist, ChecklistEffects(c))
  {
    sorted, at := SelectionListed(v.checklist, ItemLe, (r: ChecklistItem) => r.displayOrder,
                                  (r: ChecklistItem) => r.claim.id, ChecklistEffects(c));
  }

  lemma FeesAreListed(v: Version, c: Case) returns (sorted: seq<Fee>, at: seq<int>)
    ensures InTurn(sorted, v.fees, (r: Fee) => r.displayOrder, (r: Fee) => r.claim.id)
    ensures ShowsInTurn(SelectFeeRows(v, c).items, sorted, at, FeeEffects(c))
    ensures Gathers(SelectFeeRows(v, c), v.fees, FeeEffects(c))
  {
    sorted, at := SelectionListed(v.fees, FeeLe, (r: Fee) => r.displayOrder, (r: Fee) => r.claim.id, FeeEffects(c));
  }

  lemma WarningsAreListed(v: Version, c: Case) returns (sorted: seq<Warning>, at: seq<int>)
    ensures InTurn(sorted, v.warnings, (r: Warning) => r.displayOrder, (r: Warning) => r.claim.id)
    ensures ShowsInTurn(SelectWarnings(v, c), sorted, at, WarningEffects(c))
  {
    sorted, at := SelectionListed(v.warnings, WarningLe, (r: Warning) => r.displayOrder, (r: Warning) => r.claim.id,
                                  WarningEffects(c));
  }

  lemma BasesAreListed(v: Version, facts: PreparedFacts, on: Date) returns (sorted: seq<EligibilityBasis>, at: seq<int>)
    ensures InTurn(sorted, v.bases, (r: EligibilityBasis) => r.displayOrder, (r: EligibilityBasis) => r.claim.id)
    ensures ShowsInTurn(SelectBases(v, facts, on).items, sorted, at, BasisEffects(facts, on))
    ensures Gathers(SelectBases(v, facts, on), v.bases, BasisEffects(facts, on))
  {
    sorted, at := SelectionListed(v.bases, BasisLe, (r: EligibilityBasis) => r.displayOrder,
                                  (r: EligibilityBasis) => r.claim.id, BasisEffects(facts, on));
  }

  lemma DependenciesAreListed(s: Snapshot, v: Version, facts: PreparedFacts, on: Date)
    returns (sorted: seq<Dependency>, at: seq<int>)
    ensures InTurn(sorted, v.dependencies, (r: Dependency) => r.displayOrder, (r: Dependency) => r.claim.id)
    ensures ShowsInTurn(SelectDependencies(s, v, facts, on).items, sorted, at, DependencyEffects(s, facts, on))
    ensures Gathers(SelectDependencies(s, v, facts, on), v.dependencies, DependencyEffects(s, facts, on))
  {
    sorted, at := SelectionListed(v.dependencies, DependencyLe, (r: Dependency) => r.displayOrder,
                                  (r: Dependency) => r.claim.id, DependencyEffects(s, facts, on));
  }

  // ----- steps go by phase, then by slot

  ghost predicate StepsInTurn(sorted: seq<Step>, rows: seq<Step>) {
    && multiset(sorted) == multiset(rows)
    && forall i, j | 0 <= i < j < |sorted| ::
         && sorted[i].phaseOrder <= sorted[j].phaseOrder
         && (sorted[i].phaseOrder == sorted[j].phaseOrder ==> sorted[i].slot <= sorted[j].slot)
         && (sorted[i].phaseOrder == sorted[j].phaseOrder && sorted[i].slot == sorted[j].slot ==>
               TextLe(sorted[i].claim.id, sorted[j].claim.id))
  }

  lemma StepLeIsOrder()
    ensures IsOrder(StepLe)
  {
    forall a: Step, b: Step ensures StepLe(a, b) || StepLe(b, a) { TextLeTotal(a.claim.id, b.claim.id); }
    forall a, b, c | StepLe(a, b) && StepLe(b, c) ensures StepLe(a, c) {
      if TextLe(a.claim.id, b.claim.id) && TextLe(b.claim.id, c.claim.id) {
        TextLeTransitive(a.claim.id, b.claim.id, c.claim.id);
      }
    }
  }

  lemma StepsAreListed(v: Version, c: Case) returns (sorted: seq<Step>, at: seq<int>)
    ensures StepsInTurn(sorted, v.steps)
    ensures ShowsInTurn(SelectStepRows(v, c).items, sorted, at, StepEffects(c))
    ensures Gathers(SelectStepRows(v, c), v.steps, StepEffects(c))
  {
    StepLeIsOrder();
    sorted := SortBy(v.steps, StepLe);
    SortKeeps(v.steps, StepLe);
    SortSorts(v.steps, StepLe);
    at := TotalShowsInTurn(sorted, StepEffects(c));
    TotalGathers(sorted, v.steps, StepEffects(c));
  }
}
