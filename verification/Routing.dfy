/** Service points with local uncertainty (planning/routing.py). */
module Routing {
  import opened Wrappers
  import opened Ordering
  import opened Calendar
  import opened Facts
  import opened Evaluator
  import opened Catalog
  import opened Trust

  datatype PublicServicePoint =
    PublicServicePoint(pointId: string, versionId: string, associationId: string, name: Text, address: Text,
                       availability: Availability, effectiveFrom: Option<Date>, effectiveTo: Option<Date>,
                       sources: seq<PublicSource>)

  datatype RoutingStatus = ResolvedRouting | PartiallyResolved | Unresolved

  datatype PublicRouting =
    PublicRouting(status: RoutingStatus, destinations: seq<PublicServicePoint>, verificationSources: seq<PublicSource>)

  /** A dictionary built from rows keeps the last row of each id. */
  function PointOf(points: seq<ServicePoint>, id: string): Option<ServicePoint> {
    if points == [] then None
    else if points[|points| - 1].id == id then Some(points[|points| - 1])
    else PointOf(points[..|points| - 1], id)
  }

  function PointVersionOf(rows: seq<PointVersion>, id: string): Option<PointVersion> {
    if rows == [] then None
    else if rows[|rows| - 1].claim.id == id then Some(rows[|rows| - 1])
    else PointVersionOf(rows[..|rows| - 1], id)
  }

  // ----- sources to verify

  predicate Verifiable(link: EvidenceLink, on: Date) {
    link.support == Supports && !AfterDay(link.effectiveFrom, on) && !AfterDay(link.retrievedOn, on)
    && !AfterDay(link.verifiedOn, on)
  }

  function VerifiableSources(m: map<string, PublicSource>, sources: seq<Source>, on: Date): map<string, PublicSource> {
    if sources == [] then m
    else
      var before, last := VerifiableSources(m, sources[..|sources| - 1], on), sources[|sources| - 1];
      if Before(on, last.retrievedOn) || AfterDay(last.effectiveFrom, on) then before
      else before[last.id := PublicOf(last)]
  }

  function ToVerify(m: map<string, PublicSource>, links: seq<EvidenceLink>, on: Date): map<string, PublicSource> {
    if links == [] then m
    else
      var before, last := ToVerify(m, links[..|links| - 1], on), links[|links| - 1];
      if Verifiable(last, on) then VerifiableSources(before, last.sources, on) else before
  }

  // ----- one association

  datatype Route = Ignored | Gap(links: seq<EvidenceLink>) | Destination(point: PublicServicePoint)

  function PutPublic(m: map<string, PublicSource>, sources: seq<PublicSource>): map<string, PublicSource> {
    if sources == [] then m
    else PutPublic(m, sources[..|sources| - 1])[sources[|sources| - 1].id := sources[|sources| - 1]]
  }

  function RouteOf(a: Association, points: seq<ServicePoint>, pointVersions: seq<PointVersion>, facts: PreparedFacts,
                   on: Date): Route {
    var cited := SupportingSources(a.claim.links, on, false);
    if !InForce(a.claim, on) then Ignored
    else if AssessDatedClaim(a.claim, on).disposition != AssertCurrent || cited.None? then Gap(a.claim.links)
    else
      match Eval(a.applicability, facts.values, facts.submittedKeys)
      case FALSE => Ignored
      case UNKNOWN => Gap(a.claim.links)
      case TRUE =>
        match PointVersionOf(pointVersions, a.pointVersionId)
        case None => Gap(a.claim.links)
        case Some(material) =>
          var point := PointOf(points, material.pointId);
          var supported := SupportingSources(material.claim.links, on, false);
          if point.None? then Gap(a.claim.links)
          else if !InForce(material.claim, on) then Gap(a.claim.links + material.claim.links)
          else if AssessDatedClaim(material.claim, on).disposition != AssertCurrent || supported.None?
                  || material.availability.OtherAvailability? then Gap(material.claim.links)
          else
            var sources := InIdOrder(PutPublic(PutPublic(map[], supported.value), cited.value));
            Destination(PublicServicePoint(point.value.id, material.claim.id, a.claim.id, point.value.text,
                                           material.address, material.availability, material.claim.effectiveFrom,
                                           material.claim.effectiveTo, sources))
  }

  // ----- all associations

  datatype Routes = Routes(destinations: seq<PublicServicePoint>, toVerify: map<string, PublicSource>, unresolved: bool)

  function Follow(r: Routes, route: Route, on: Date): Routes {
    match route
    case Ignored => r
    case Gap(links) => r.(toVerify := ToVerify(r.toVerify, links, on), unresolved := true)
    case Destination(point) => r.(destinations := r.destinations + [point])
  }

  function RoutesOf(rows: seq<Association>, points: seq<ServicePoint>, pointVersions: seq<PointVersion>,
                    facts: PreparedFacts, on: Date, start: Routes): Routes
  {
    if rows == [] then start
    else Follow(RoutesOf(rows[..|rows| - 1], points, pointVersions, facts, on, start),
                RouteOf(rows[|rows| - 1], points, pointVersions, facts, on), on)
  }

  predicate AssociationLe(a: Association, b: Association) {
    if a.pointVersionId == b.pointVersionId then TextLe(a.claim.id, b.claim.id)
    else TextLe(a.pointVersionId, b.pointVersionId)
  }

  predicate DestinationLe(a: PublicServicePoint, b: PublicServicePoint) {
    if a.pointId != b.pointId then TextLe(a.pointId, b.pointId)
    else if a.versionId != b.versionId then TextLe(a.versionId, b.versionId)
    else TextLe(a.associationId, b.associationId)
  }

  function SelectServicePoints(points: seq<ServicePoint>, pointVersions: seq<PointVersion>, v: Version,
                               facts: PreparedFacts, on: Date):
    PublicRouting
  {
    var routes := RoutesOf(SortBy(v.associations, AssociationLe), points, pointVersions, facts, on,
                           Routes([], map[], v.associations == []));
    var status := if routes.destinations == [] then Unresolved
                  else if routes.unresolved then PartiallyResolved else ResolvedRouting;
    PublicRouting(status, SortBy(routes.destinations, DestinationLe), InIdOrder(routes.toVerify))
  }

  method AddVerificationSources(m: map<string, PublicSource>, links: seq<EvidenceLink>, on: Date)
    returns (r: map<string, PublicSource>)
    ensures r == ToVerify(m, links, on)
  {
    r := m;
    for n := 0 to |links|
      invariant r == ToVerify(m, links[..n], on)
    {
      var link := links[n];
      assert links[..n + 1][..n] == links[..n];
      if link.support != Supports || AfterDay(link.effectiveFrom, on) || AfterDay(link.retrievedOn, on)
         || AfterDay(link.verifiedOn, on) {
        continue;
      }
      ghost var before := r;
      for k := 0 to |link.sources|
        invariant r == VerifiableSources(before, link.sources[..k], on)
      {
        var source := link.sources[k];
        assert link.sources[..k + 1][..k] == link.sources[..k];
        if Before(on, source.retrievedOn) || AfterDay(source.effectiveFrom, on) {
          continue;
        }
        r := r[source.id := PublicOf(source)];
      }
      assert link.sources[..|link.sources|] == link.sources;
    }
    assert links[..|links|] == links;
  }

  method RouteServicePoints(points: seq<ServicePoint>, pointVersions: seq<PointVersion>, v: Version,
                            facts: PreparedFacts, on: Date)
    returns (r: PublicRouting)
    ensures r == SelectServicePoints(points, pointVersions, v, facts, on)
  {
    var destinations: seq<PublicServicePoint> := [];
    var toVerify: map<string, PublicSource> := map[];
    var unresolved := v.associations == [];
    ghost var start := Routes([], map[], unresolved);
    var rows := SortBy(v.associations, AssociationLe);
    for n := 0 to |rows|
      invariant Routes(destinations, toVerify, unresolved)
                == RoutesOf(rows[..n], points, pointVersions, facts, on, start)
    {
      assert rows[..n + 1][..n] == rows[..n];
      match RouteOf(rows[n], points, pointVersions, facts, on) {
        case Ignored =>
        case Gap(links) =>
          unresolved := true;
          toVerify := AddVerificationSources(toVerify, links, on);
        case Destination(point) =>
          destinations := destinations + [point];
      }
    }
    assert rows[..|rows|] == rows;
    var status := if destinations == [] then Unresolved else if unresolved then PartiallyResolved else ResolvedRouting;
    r := PublicRouting(status, SortBy(destinations, DestinationLe), InIdOrder(toVerify));
  }

  // ----- only current claims become destinations

  /** A destination rests on a current association and a current material version. */
  lemma DestinationIsCurrent(a: Association, points: seq<ServicePoint>, pointVersions: seq<PointVersion>,
                             facts: PreparedFacts, on: Date)
    requires RouteOf(a, points, pointVersions, facts, on).Destination?
    ensures var point := RouteOf(a, points, pointVersions, facts, on).point;
            && point.associationId == a.claim.id && a.claim.state == Current
            && PointVersionOf(pointVersions, a.pointVersionId).Some?
            && var material := PointVersionOf(pointVersions, a.pointVersionId).value;
               point.versionId == material.claim.id && material.claim.state == Current
  {
    OnlyCurrentIsAsserted(a.claim, on);
    OnlyCurrentIsAsserted(PointVersionOf(pointVersions, a.pointVersionId).value.claim, on);
  }

  lemma {:induction false} DestinationHasRow(rows: seq<Association>, points: seq<ServicePoint>,
                                             pointVersions: seq<PointVersion>, facts: PreparedFacts, on: Date,
                                             start: Routes, x: PublicServicePoint) returns (a: Association)
    requires x in RoutesOf(rows, points, pointVersions, facts, on, start).destinations && x !in start.destinations
    ensures a in rows && RouteOf(a, points, pointVersions, facts, on) == Destination(x)
  {
    a := rows[|rows| - 1];
    if RouteOf(a, points, pointVersions, facts, on) != Destination(x) {
      a := DestinationHasRow(rows[..|rows| - 1], points, pointVersions, facts, on, start, x);
    }
  }

  lemma SelectedDestination(points: seq<ServicePoint>, pointVersions: seq<PointVersion>, v: Version,
                            facts: PreparedFacts, on: Date, x: PublicServicePoint) returns (a: Association)
    requires x in SelectServicePoints(points, pointVersions, v, facts, on).destinations
    ensures a in v.associations && RouteOf(a, points, pointVersions, facts, on) == Destination(x)
  {
    var rows := SortBy(v.associations, AssociationLe);
    var start := Routes([], map[], v.associations == []);
    SortKeeps(v.associations, AssociationLe);
    SortKeeps(RoutesOf(rows, points, pointVersions, facts, on, start).destinations, DestinationLe);
    a := DestinationHasRow(rows, points, pointVersions, facts, on, start, x);
  }

  lemma {:induction false} FoundMaterial(rows: seq<PointVersion>, id: string)
    requires PointVersionOf(rows, id).Some?
    ensures PointVersionOf(rows, id).value in rows && PointVersionOf(rows, id).value.claim.id == id
  {
    if rows[|rows| - 1].claim.id != id { FoundMaterial(rows[..|rows| - 1], id); }
  }
}
