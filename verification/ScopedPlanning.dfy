/** The snapshot restricted to one service's dependency closure plans exactly like the full snapshot. */
module ScopedPlanning {
  import opened Wrappers
  import opened Ordering
  import opened Calendar
  import opened Facts
  import opened Evaluator
  import opened Catalog
  import opened Tally
  import opened Versions
  import opened Guidance
  import opened Prerequisites
  import opened Routing
  import opened Planner
  import opened PhaseOrder
  import opened Scope

  // ----- the lookups of the discovery

  predicate IsPublic(v: Version) {
    v.state == Published || v.state == Withdrawn
  }

  function VersionsFor(s: Snapshot, procedures: set<string>): set<string> {
    set v | v in s.versions && v.procedure in procedures && IsPublic(v) :: v.id
  }

  function TargetsFor(s: Snapshot, ids: set<string>): set<string> {
    set v, t | v in s.versions && v.id in ids && t in TargetsOf(v) :: t
  }

  function VersionsLookup(s: Snapshot): set<string> -> set<string> {
    (procedures: set<string>) => VersionsFor(s, procedures)
  }

  function TargetsLookup(s: Snapshot): set<string> -> set<string> {
    (ids: set<string>) => TargetsFor(s, ids)
  }

  function CandidateProcedures(s: Snapshot, id: string): set<string> {
    set x, c | x in s.services && x.id == id && c in x.candidates :: c.procedure
  }

  lemma LookupsAreAdditive(s: Snapshot)
    ensures Additive(VersionsLookup(s)) && Additive(TargetsLookup(s))
  {
    forall x, y ensures VersionsFor(s, x + y) == VersionsFor(s, x) + VersionsFor(s, y) {}
    forall x, y ensures TargetsFor(s, x + y) == TargetsFor(s, x) + TargetsFor(s, y) {}
  }

  /** Every procedure the tables mention. */
  ghost function Mentioned(s: Snapshot, id: string): set<string> {
    CandidateProcedures(s, id) + TargetsFor(s, set v | v in s.versions :: v.id)
  }

  // ----- restriction

  function ServicesWith(services: seq<Service>, id: string): seq<Service> {
    if services == [] then []
    else if services[0].id == id then [services[0]] + ServicesWith(services[1..], id)
    else ServicesWith(services[1..], id)
  }

  function VersionsIn(versions: seq<Version>, procedures: set<string>): seq<Version> {
    if versions == [] then []
    else
      var init, last := VersionsIn(versions[..|versions| - 1], procedures), versions[|versions| - 1];
      if last.procedure in procedures then init + [last] else init
  }

  function MaterialsOf(v: Version): set<string> {
    set a | a in v.associations :: a.pointVersionId
  }

  function MaterialIds(versions: seq<Version>): set<string> {
    set v, id | v in versions && id in MaterialsOf(v) :: id
  }

  function MaterialsIn(rows: seq<PointVersion>, ids: set<string>): seq<PointVersion> {
    if rows == [] then []
    else
      var init, last := MaterialsIn(rows[..|rows| - 1], ids), rows[|rows| - 1];
      if last.claim.id in ids then init + [last] else init
  }

  function PointIds(rows: seq<PointVersion>): set<string> {
    set m | m in rows :: m.pointId
  }

  function PointsIn(points: seq<ServicePoint>, ids: set<string>): seq<ServicePoint> {
    if points == [] then []
    else
      var init, last := PointsIn(points[..|points| - 1], ids), points[|points| - 1];
      if last.id in ids then init + [last] else init
  }

  function Restrict(s: Snapshot, id: string, procedures: set<string>): Snapshot {
    var versions := VersionsIn(s.versions, procedures);
    var materials := MaterialsIn(s.pointVersions, MaterialIds(versions));
    Snapshot(s.definitions, ServicesWith(s.services, id), versions, PointsIn(s.points, PointIds(materials)), materials)
  }

  /** `discover_planning_scope`, then materialization inside the scope. */
  method LoadScoped(s: Snapshot, id: string) returns (scoped: Snapshot, procedures: set<string>, versions: set<string>)
    ensures ClosedUnder(procedures, CandidateProcedures(s, id), VersionsLookup(s), TargetsLookup(s))
    ensures forall p ::
              p in procedures <==> Reachable(p, CandidateProcedures(s, id), VersionsLookup(s), TargetsLookup(s))
    ensures versions == VersionsFor(s, procedures)
    ensures scoped == Restrict(s, id, procedures)
  {
    LookupsAreAdditive(s);
    procedures, versions :=
        DiscoverProcedureGraph(CandidateProcedures(s, id), VersionsLookup(s), TargetsLookup(s), Mentioned(s, id));
    scoped := Restrict(s, id, procedures);
  }

  // ----- lookups survive the restriction

  lemma {:induction false} SameService(services: seq<Service>, id: string)
    ensures FindService(ServicesWith(services, id), id) == FindService(services, id)
    ensures forall x :: x in ServicesWith(services, id) <==> x in services && x.id == id
  {
    if services != [] {
      SameService(services[1..], id);
      assert forall x :: x in services <==> x == services[0] || x in services[1..];
    }
  }

  lemma {:induction false} SameVersionsOf(versions: seq<Version>, procedures: set<string>, procedure: string)
    requires procedure in procedures
    ensures VersionsOf(VersionsIn(versions, procedures), procedure) == VersionsOf(versions, procedure)
  {
    if versions != [] {
      var init, last := versions[..|versions| - 1], versions[|versions| - 1];
      SameVersionsOf(init, procedures, procedure);
      var kept := VersionsIn(init, procedures);
      assert (kept + [last])[..|kept|] == kept;
    }
  }

  lemma {:induction false} SameMaterial(rows: seq<PointVersion>, ids: set<string>, id: string)
    requires id in ids
    ensures PointVersionOf(MaterialsIn(rows, ids), id) == PointVersionOf(rows, id)
  {
    if rows != [] {
      var init, last := rows[..|rows| - 1], rows[|rows| - 1];
      SameMaterial(init, ids, id);
      var kept := MaterialsIn(init, ids);
      assert (kept + [last])[..|kept|] == kept;
    }
  }

  lemma {:induction false} SamePoint(points: seq<ServicePoint>, ids: set<string>, id: string)
    requires id in ids
    ensures PointOf(PointsIn(points, ids), id) == PointOf(points, id)
  {
    if points != [] {
      var init, last := points[..|points| - 1], points[|points| - 1];
      SamePoint(init, ids, id);
      var kept := PointsIn(init, ids);
      assert (kept + [last])[..|kept|] == kept;
    }
  }

  // ----- resolution

  /**
    The services differ, so an unknown target may be known elsewhere; without versions it is unavailable either
    way.
   */
  lemma SameResolution(s: Snapshot, id: string, procedures: set<string>, procedure: string, on: Date)
    requires procedure in procedures
    ensures var full, scoped :=
        Resolve(s, procedure, on, None), Resolve(Restrict(s, id, procedures), procedure, on, None);
            scoped == full || (scoped.Unavailable? && full.Unavailable?)
  {
    SameVersionsOf(s.versions, procedures, procedure);
  }

  lemma SameCandidateResolution(s: Snapshot, id: string, procedures: set<string>, service: Service, procedure: string,
                                on: Date)
    requires procedure in procedures && service in s.services && service.id == id
    requires exists c :: c in service.candidates && c.procedure == procedure
    ensures Resolve(Restrict(s, id, procedures), procedure, on, None) == Resolve(s, procedure, on, None)
  {
    SameVersionsOf(s.versions, procedures, procedure);
    SameService(s.services, id);
    CandidateIsKnown(s.services, service, procedure);
    CandidateIsKnown(ServicesWith(s.services, id), service, procedure);
  }

  lemma CandidateIsKnown(services: seq<Service>, service: Service, procedure: string)
    requires service in services && exists c :: c in service.candidates && c.procedure == procedure
    ensures IsCandidate(services, procedure)
  {
    var i :| 0 <= i < |services| && services[i] == service;
    var c :| c in service.candidates && c.procedure == procedure;
    var j :| 0 <= j < |service.candidates| && service.candidates[j] == c;
    assert services[i].candidates[j].procedure == procedure;
  }

  // ----- one version's rows

  ghost predicate ClosedFor(v: Version, procedures: set<string>) {
    TargetsOf(v) <= procedures
  }

  lemma SameDependencies(s: Snapshot, id: string, procedures: set<string>, v: Version, facts: PreparedFacts, on: Date)
    requires ClosedFor(v, procedures)
    ensures SelectDependencies(Restrict(s, id, procedures), v, facts, on) == SelectDependencies(s, v, facts, on)
  {
    var r := Restrict(s, id, procedures);
    var rows := SortBy(v.dependencies, DependencyLe);
    var f, g := DependencyEffects(r, facts, on), DependencyEffects(s, facts, on);
    SortKeeps(v.dependencies, DependencyLe);
    forall d | d in rows ensures f(d) == g(d) {
      SameDependency(s, id, procedures, v, d, facts, on);
    }
    TotalCongruent(rows, f, g);
  }

  /**
    A dependency's row depends on the snapshot only through its target's resolution, and not on why that is
    unavailable.
   */
  lemma ResolutionDecides(s: Snapshot, t: Snapshot, d: Dependency, facts: PreparedFacts, on: Date)
    requires d.blocking ==>
               Resolve(s, d.target, on, None) == Resolve(t, d.target, on, None)
               || (Resolve(s, d.target, on, None).Unavailable? && Resolve(t, d.target, on, None).Unavailable?)
    ensures DependencyEffect(d, s, facts, on) == DependencyEffect(d, t, facts, on)
  {}

  lemma SameDependency(s: Snapshot, id: string, procedures: set<string>, v: Version, d: Dependency,
                       facts: PreparedFacts, on: Date)
    requires ClosedFor(v, procedures) && d in v.dependencies
    ensures DependencyEffect(d, Restrict(s, id, procedures), facts, on) == DependencyEffect(d, s, facts, on)
  {
    if d.blocking {
      assert d.target in TargetsOf(v);
      SameResolution(s, id, procedures, d.target, on);
    }
    ResolutionDecides(Restrict(s, id, procedures), s, d, facts, on);
  }

  lemma SameRoute(s: Snapshot, ids: set<string>, a: Association, facts: PreparedFacts, on: Date)
    requires a.pointVersionId in ids
    ensures var materials := MaterialsIn(s.pointVersions, ids);
            RouteOf(a, PointsIn(s.points, PointIds(materials)), materials, facts, on)
            == RouteOf(a, s.points, s.pointVersions, facts, on)
  {
    var materials := MaterialsIn(s.pointVersions, ids);
    SameMaterial(s.pointVersions, ids, a.pointVersionId);
    var found := PointVersionOf(materials, a.pointVersionId);
    if found.Some? {
      FoundMaterial(materials, a.pointVersionId);
      SamePoint(s.points, PointIds(materials), found.value.pointId);
    }
  }

  lemma {:induction false} SameRoutes(rows: seq<Association>, s: Snapshot, ids: set<string>, facts: PreparedFacts,
                                      on: Date, start: Routes)
    requires forall a | a in rows :: a.pointVersionId in ids
    ensures var materials := MaterialsIn(s.pointVersions, ids);
            RoutesOf(rows, PointsIn(s.points, PointIds(materials)), materials, facts, on, start)
            == RoutesOf(rows, s.points, s.pointVersions, facts, on, start)
  {
    if rows != [] {
      assert rows[|rows| - 1] in rows;
      SameRoutes(rows[..|rows| - 1], s, ids, facts, on, start);
      SameRoute(s, ids, rows[|rows| - 1], facts, on);
    }
  }

  lemma SameServicePoints(s: Snapshot, id: string, procedures: set<string>, v: Version, facts: PreparedFacts, on: Date)
    requires v in VersionsIn(s.versions, procedures)
    ensures var r := Restrict(s, id, procedures);
            SelectServicePoints(r.points, r.pointVersions, v, facts, on)
            == SelectServicePoints(s.points, s.pointVersions, v, facts, on)
  {
    var rows := SortBy(v.associations, AssociationLe);
    SortKeeps(v.associations, AssociationLe);
    forall a | a in rows ensures a.pointVersionId in MaterialIds(VersionsIn(s.versions, procedures)) {
      assert a.pointVersionId in MaterialsOf(v);
    }
    SameRoutes(rows, s, MaterialIds(VersionsIn(s.versions, procedures)), facts, on,
               Routes([], map[], v.associations == []));
  }

  // ----- the operation, phase by phase

  lemma SamePlan(s: Snapshot, id: string, procedures: set<string>, service: Service, procedure: string, v: Version,
                 c: Case, on: Date, bases: Selection<PublicBasis>, dependencies: Selection<PublicDependency>)
    requires v in VersionsIn(s.versions, procedures)
    ensures ListFees(Restrict(s, id, procedures), service, procedure, v, c, on, bases, dependencies)
            == ListFees(s, service, procedure, v, c, on, bases, dependencies)
  {
    SameServicePoints(s, id, procedures, v, c.facts, on);
    assert Assemble(Restrict(s, id, procedures), service, procedure, v, c, on, bases, dependencies)
        == Assemble(s, service, procedure, v, c, on, bases, dependencies);
  }

  lemma SameListing(s: Snapshot, id: string, procedures: set<string>, service: Service, procedure: string, v: Version,
                    c: Case, on: Date, bases: Selection<PublicBasis>, dependencies: Selection<PublicDependency>)
    requires v in VersionsIn(s.versions, procedures)
    ensures ListItems(Restrict(s, id, procedures), service, procedure, v, c, on, bases, dependencies)
            == ListItems(s, service, procedure, v, c, on, bases, dependencies)
  {
    SamePlan(s, id, procedures, service, procedure, v, c, on, bases, dependencies);
    assert ListSteps(Restrict(s, id, procedures), service, procedure, v, c, on, bases, dependencies)
        == ListSteps(s, service, procedure, v, c, on, bases, dependencies);
  }

  lemma SameWeighing(s: Snapshot, id: string, procedures: set<string>, service: Service, procedure: string, v: Version,
                     facts: PreparedFacts, on: Date)
    requires v in VersionsIn(s.versions, procedures) && ClosedFor(v, procedures)
    ensures Weigh(Restrict(s, id, procedures), service, procedure, v, facts, on)
            == Weigh(s, service, procedure, v, facts, on)
  {
    SameDependencies(s, id, procedures, v, facts, on);
    var bases, dependencies := SelectBases(v, facts, on), SelectDependencies(s, v, facts, on);
    SameListing(s, id, procedures, service, procedure, v, CaseOf(v, facts, on, bases), on, bases, dependencies);
  }

  lemma {:induction false} KeptVersions(versions: seq<Version>, procedures: set<string>)
    ensures forall v :: v in VersionsIn(versions, procedures) <==> v in versions && v.procedure in procedures
  {
    if versions != [] {
      KeptVersions(versions[..|versions| - 1], procedures);
      assert forall v :: v in versions <==> v in versions[..|versions| - 1] || v == versions[|versions| - 1];
    }
  }

  lemma ClosureCoversDependencies(s: Snapshot, id: string, procedures: set<string>, v: Version)
    requires ClosedUnder(procedures, CandidateProcedures(s, id), VersionsLookup(s), TargetsLookup(s))
    requires v in s.versions && v.procedure in procedures && IsPublic(v)
    ensures ClosedFor(v, procedures)
  {
    assert v.id in VersionsFor(s, procedures);
    assert TargetsFor(s, VersionsFor(s, procedures)) <= procedures;
    forall t | t in TargetsOf(v) ensures t in procedures {
      assert t in TargetsFor(s, VersionsFor(s, procedures));
    }
  }

  lemma {:induction false} MatchingIsCandidate(rows: seq<Candidate>, facts: PreparedFacts, value: Truth)
    ensures forall c :: c in WithValue(rows, facts, value) ==> c in rows
  {
    if rows != [] { MatchingIsCandidate(rows[..|rows| - 1], facts, value); }
  }

  lemma ChosenIsCandidate(definitions: Registry, service: Service, facts: PreparedFacts)
    requires Choose(definitions, service, facts).Selected?
    ensures exists c :: c in service.candidates && c.procedure == Choose(definitions, service, facts).procedure
  {
    var rows := SortBy(service.candidates, CandidateLe);
    SortKeeps(service.candidates, CandidateLe);
    MatchingIsCandidate(rows, facts, TRUE);
    var c := WithValue(rows, facts, TRUE)[0];
    assert c in WithValue(rows, facts, TRUE);
  }

  lemma SameSelection(s: Snapshot, id: string, procedures: set<string>, service: Service, facts: PreparedFacts,
                      on: Date)
    requires ClosedUnder(procedures, CandidateProcedures(s, id), VersionsLookup(s), TargetsLookup(s))
    requires service in s.services && service.id == id
    ensures Select(Restrict(s, id, procedures), service, facts, on) == Select(s, service, facts, on)
  {
    var choice := Choose(s.definitions, service, facts);
    if choice.Selected? {
      ChosenIsCandidate(s.definitions, service, facts);
      assert choice.procedure in CandidateProcedures(s, id);
      SameCandidateResolution(s, id, procedures, service, choice.procedure, on);
      var target := Resolve(s, choice.procedure, on, None);
      if target.Resolved? {
        ResolvedIsStored(s, choice.procedure, on);
        KeptVersions(s.versions, procedures);
        ClosureCoversDependencies(s, id, procedures, target.version);
        SameWeighing(s, id, procedures, service, choice.procedure, target.version, facts, on);
        assert Apply(Restrict(s, id, procedures), service, choice.procedure, target.version, facts, on)
            == Apply(s, service, choice.procedure, target.version, facts, on);
      }
    }
  }

  /** The restricted snapshot gives the same result, whatever the answers and the day. */
  lemma ScopedPlanIsFullPlan(s: Snapshot, procedures: set<string>, input: Input)
    requires ClosedUnder(procedures, CandidateProcedures(s, input.service), VersionsLookup(s), TargetsLookup(s))
    ensures PlanStateless(Restrict(s, input.service, procedures), input) == PlanStateless(s, input)
  {
    SameService(s.services, input.service);
    var found := FindService(s.services, input.service);
    if found.Some? {
      FoundIsMember(s.services, input.service);
      FoundHasId(s.services, input.service);
      forall facts ensures Select(Restrict(s, input.service, procedures), found.value, facts, input.on)
                        == Select(s, found.value, facts, input.on)
      {
        SameSelection(s, input.service, procedures, found.value, facts, input.on);
      }
    }
  }

  lemma {:induction false} FoundHasId(services: seq<Service>, id: string)
    requires FindService(services, id).Some?
    ensures FindService(services, id).value.id == id
  {
    if services[0].id != id { FoundHasId(services[1..], id); }
  }
}
