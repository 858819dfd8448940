/** Where a case is sent, and what remains to be verified locally (planning/routing.py). */
module RoutingLaws {
  import opened Wrappers
  import opened Ordering
  import opened Calendar
  import opened Facts
  import opened Evaluator
  import opened Catalog
  import opened Trust
  import opened TrustLaws
  import opened Listed
  import opened Routing

  // ----- one association

  /** The last material version stored under the id. */
  ghost predicate IsMaterial(rows: seq<PointVersion>, id: string, m: PointVersion) {
    exists i | 0 <= i < |rows| ::
      rows[i] == m && m.claim.id == id && forall j | i < j < |rows| :: rows[j].claim.id != id
  }

  ghost predicate IsPoint(points: seq<ServicePoint>, id: string, p: ServicePoint) {
    exists i | 0 <= i < |points| :: points[i] == p && p.id == id && forall j | i < j < |points| :: points[j].id != id
  }

  lemma {:induction false} MaterialExactlyIf(rows: seq<PointVersion>, id: string, m: PointVersion)
    ensures PointVersionOf(rows, id) == Some(m) <==> IsMaterial(rows, id, m)
  {
    if rows != [] {
      var init, n := rows[..|rows| - 1], |rows| - 1;
      MaterialExactlyIf(init, id, m);
      assert forall i | 0 <= i < n :: init[i] == rows[i];
      if rows[n].claim.id == id && rows[n] == m { assert IsMaterial(rows, id, m); }
      if rows[n].claim.id != id && IsMaterial(init, id, m) {
        var i :| 0 <= i < n && init[i] == m && m.claim.id == id && forall j | i < j < n :: init[j].claim.id != id;
        assert rows[i] == m && forall j | i < j < |rows| :: rows[j].claim.id != id;
      }
    }
  }

  lemma {:induction false} PointExactlyIf(points: seq<ServicePoint>, id: string, p: ServicePoint)
    ensures PointOf(points, id) == Some(p) <==> IsPoint(points, id, p)
  {
    if points != [] {
      var init, n := points[..|points| - 1], |points| - 1;
      PointExactlyIf(init, id, p);
      assert forall i | 0 <= i < n :: init[i] == points[i];
      if points[n].id == id && points[n] == p { assert IsPoint(points, id, p); }
      if points[n].id != id && IsPoint(init, id, p) {
        var i :| 0 <= i < n && init[i] == p && p.id == id && forall j | i < j < n :: init[j].id != id;
        assert points[i] == p && forall j | i < j < |points| :: points[j].id != id;
      }
    }
  }

  predicate Stateable(claim: Claim, on: Date) {
    Trustworthy(claim, on) && Backed(claim, on, false)
  }

  predicate Votes(a: Association, facts: PreparedFacts, v: Truth) {
    Eval(a.applicability, facts.values, facts.submittedKeys) == v
  }

  /** The association is in force, may be stated, and is for this case. */
  predicate Applies(a: Association, facts: PreparedFacts, on: Date) {
    InForce(a.claim, on) && Stateable(a.claim, on) && Votes(a, facts, TRUE)
  }

  /** The place is known, and its description in force, stateable and available or not known to be unavailable. */
  predicate Reachable(m: PointVersion, on: Date) {
    InForce(m.claim, on) && Stateable(m.claim, on)
    && (m.availability == Available || m.availability == UnknownAvailability)
  }

  lemma StateableAs(claim: Claim, on: Date)
    requires InForce(claim, on)
    ensures AssessDatedClaim(claim, on).disposition == AssertCurrent && SupportingSources(claim.links, on, false).Some?
            <==> Stateable(claim, on)
  {
    TrustworthyIsAsserted(claim, on);
    SupportedExactlyIf(claim.links, on, false);
  }

  /** An association is passed over when it is not in force, or is known not to be for this case. */
  lemma IgnoredExactlyIf(a: Association, points: seq<ServicePoint>, rows: seq<PointVersion>, facts: PreparedFacts,
                         on: Date)
    ensures RouteOf(a, points, rows, facts, on).Ignored?
            <==> !InForce(a.claim, on) || (Stateable(a.claim, on) && Votes(a, facts, FALSE))
  {
    if InForce(a.claim, on) { StateableAs(a.claim, on); }
  }

  /** The claim is in force, assertable and cites something, as the operation tests it. */
  predicate Passes(claim: Claim, on: Date) {
    && InForce(claim, on) && AssessDatedClaim(claim, on).disposition == AssertCurrent
    && SupportingSources(claim.links, on, false).Some?
  }

  lemma PassingIsLed(a: Association, points: seq<ServicePoint>, rows: seq<PointVersion>, facts: PreparedFacts,
                     on: Date)
    requires Passes(a.claim, on) && Votes(a, facts, TRUE)
    requires PointVersionOf(rows, a.pointVersionId).Some?
    requires var m := PointVersionOf(rows, a.pointVersionId).value;
             && PointOf(points, m.pointId).Some? && Passes(m.claim, on) && !m.availability.OtherAvailability?
    ensures RouteOf(a, points, rows, facts, on).Destination?
  {}

  lemma ReachableIsLed(a: Association, points: seq<ServicePoint>, rows: seq<PointVersion>, facts: PreparedFacts,
                       on: Date, m: PointVersion)
    requires Applies(a, facts, on) && PointVersionOf(rows, a.pointVersionId) == Some(m)
    requires PointOf(points, m.pointId).Some? && Reachable(m, on)
    ensures RouteOf(a, points, rows, facts, on).Destination?
  {
    StateableAs(a.claim, on);
    StateableAs(m.claim, on);
    PassingIsLed(a, points, rows, facts, on);
  }

  lemma LedIsReachable(a: Association, points: seq<ServicePoint>, rows: seq<PointVersion>, facts: PreparedFacts,
                       on: Date, m: PointVersion)
    requires PointVersionOf(rows, a.pointVersionId) == Some(m) && RouteOf(a, points, rows, facts, on).Destination?
    ensures Reachable(m, on)
  {
    StateableAs(m.claim, on);
  }

  lemma LeadingApplies(a: Association, points: seq<ServicePoint>, rows: seq<PointVersion>, facts: PreparedFacts,
                       on: Date)
    requires RouteOf(a, points, rows, facts, on).Destination?
    ensures Applies(a, facts, on)
  {
    StateableAs(a.claim, on);
  }

  /** It leads to its place exactly when it applies and the place is reachable. */
  lemma LeadsExactlyIf(a: Association, points: seq<ServicePoint>, rows: seq<PointVersion>, facts: PreparedFacts,
                       on: Date, m: PointVersion, p: ServicePoint)
    requires IsMaterial(rows, a.pointVersionId, m) && IsPoint(points, m.pointId, p)
    ensures RouteOf(a, points, rows, facts, on).Destination? <==> Applies(a, facts, on) && Reachable(m, on)
  {
    MaterialExactlyIf(rows, a.pointVersionId, m);
    PointExactlyIf(points, m.pointId, p);
    if Applies(a, facts, on) && Reachable(m, on) { ReachableIsLed(a, points, rows, facts, on, m); }
    if RouteOf(a, points, rows, facts, on).Destination? {
      LeadingApplies(a, points, rows, facts, on);
      LedIsReachable(a, points, rows, facts, on, m);
    }
  }

  /** What is left to verify: the association's own evidence, unless its description is at fault. */
  lemma GapAs(a: Association, points: seq<ServicePoint>, rows: seq<PointVersion>, facts: PreparedFacts, on: Date,
              m: PointVersion, p: ServicePoint)
    requires IsMaterial(rows, a.pointVersionId, m) && IsPoint(points, m.pointId, p)
    requires RouteOf(a, points, rows, facts, on).Gap?
    ensures RouteOf(a, points, rows, facts, on).links
            == if !Applies(a, facts, on) then a.claim.links
               else if !InForce(m.claim, on) then a.claim.links + m.claim.links else m.claim.links
  {
    MaterialExactlyIf(rows, a.pointVersionId, m);
    PointExactlyIf(points, m.pointId, p);
    if InForce(a.claim, on) { StateableAs(a.claim, on); }
  }

  /** Without a stored description it leads nowhere. */
  lemma UndescribedGapAs(a: Association, points: seq<ServicePoint>, rows: seq<PointVersion>, facts: PreparedFacts,
                         on: Date)
    requires forall m :: !IsMaterial(rows, a.pointVersionId, m)
    ensures RouteOf(a, points, rows, facts, on) in {Ignored, Gap(a.claim.links)}
  {
    var found := PointVersionOf(rows, a.pointVersionId);
    if found.Some? { MaterialExactlyIf(rows, a.pointVersionId, found.value); }
  }

  /** Nor without a stored place. */
  lemma UnplacedGapAs(a: Association, points: seq<ServicePoint>, rows: seq<PointVersion>, facts: PreparedFacts,
                      on: Date, m: PointVersion)
    requires IsMaterial(rows, a.pointVersionId, m) && forall p :: !IsPoint(points, m.pointId, p)
    ensures RouteOf(a, points, rows, facts, on) in {Ignored, Gap(a.claim.links)}
  {
    MaterialExactlyIf(rows, a.pointVersionId, m);
    var found := PointOf(points, m.pointId);
    if found.Some? { PointExactlyIf(points, m.pointId, found.value); }
  }

  // ----- what a destination shows

  lemma {:induction false} PutPublicAs(m: map<string, PublicSource>, sources: seq<PublicSource>)
    requires forall i, j | 0 <= i < j < |sources| :: sources[i].id != sources[j].id
    ensures forall id :: id in PutPublic(m, sources) <==> id in m || exists s | s in sources :: s.id == id
    ensures forall s | s in sources :: PutPublic(m, sources)[s.id] == s
    ensures forall id | id in m && (forall s | s in sources :: s.id != id) :: PutPublic(m, sources)[id] == m[id]
  {
    if sources != [] {
      var init, last := sources[..|sources| - 1], sources[|sources| - 1];
      PutPublicAs(m, init);
      assert forall s :: s in sources <==> s in init || s == last;
    }
  }

  /** The association's citations, and the description's where the association cites no source of that id. */
  ghost predicate Merges(r: seq<PublicSource>, own: seq<PublicSource>, placed: seq<PublicSource>) {
    && (forall i, j | 0 <= i < j < |r| :: r[i].id != r[j].id && TextLe(r[i].id, r[j].id))
    && forall s :: s in r <==> s in own || (s in placed && forall t | t in own :: t.id != s.id)
  }

  lemma MergedAt(own: seq<PublicSource>, placed: seq<PublicSource>, s: PublicSource)
    requires forall i, j | 0 <= i < j < |own| :: own[i].id != own[j].id
    requires forall i, j | 0 <= i < j < |placed| :: placed[i].id != placed[j].id
    ensures var m := PutPublic(PutPublic(map[], placed), own);
            && (s.id in m && m[s.id] == s <==> s in own || (s in placed && forall t | t in own :: t.id != s.id))
            && (s.id in m ==> m[s.id].id == s.id)
  {
    PutPublicAs(map[], placed);
    PutPublicAs(PutPublic(map[], placed), own);
  }

  lemma MergedAs(own: seq<PublicSource>, placed: seq<PublicSource>)
    requires forall i, j | 0 <= i < j < |own| :: own[i].id != own[j].id
    requires forall i, j | 0 <= i < j < |placed| :: placed[i].id != placed[j].id
    ensures Merges(InIdOrder(PutPublic(PutPublic(map[], placed), own)), own, placed)
  {
    var m := PutPublic(PutPublic(map[], placed), own);
    forall id | id in m ensures m[id].id == id { MergedAt(own, placed, m[id].(id := id)); }
    forall s: PublicSource
      ensures s.id in m && m[s.id] == s <==> s in own || (s in placed && forall t | t in own :: t.id != s.id)
    {
      MergedAt(own, placed, s);
    }
    InIdOrderMeans(m);
  }

  lemma DestinationShows(a: Association, points: seq<ServicePoint>, rows: seq<PointVersion>, facts: PreparedFacts,
                         on: Date, m: PointVersion, p: ServicePoint)
    requires IsMaterial(rows, a.pointVersionId, m) && IsPoint(points, m.pointId, p)
    requires RouteOf(a, points, rows, facts, on).Destination?
    ensures var x := RouteOf(a, points, rows, facts, on).point;
            var own, placed := SupportingSources(a.claim.links, on, false), SupportingSources(m.claim.links, on, false);
            && x.pointId == p.id && x.name == p.text && x.versionId == m.claim.id && x.associationId == a.claim.id
            && x.address == m.address && x.availability == m.availability
            && x.effectiveFrom == m.claim.effectiveFrom && x.effectiveTo == m.claim.effectiveTo
            && own.Some? && placed.Some? && Merges(x.sources, own.value, placed.value)
  {
    MaterialExactlyIf(rows, a.pointVersionId, m);
    PointExactlyIf(points, m.pointId, p);
    var own, placed := SupportingSources(a.claim.links, on, false), SupportingSources(m.claim.links, on, false);
    SupportingSourcesMean(a.claim.links, on, false);
    SupportingSourcesMean(m.claim.links, on, false);
    MergedAs(own.value, placed.value);
  }

  // ----- what remains to be verified

  /** The source may be worth a look: a supporting link and the source itself began, and were known, by the day. */
  predicate WorthALook(link: EvidenceLink, s: Source, on: Date) {
    && link.support == Supports && s in link.sources
    && Begun(link.effectiveFrom, on) && KnownBy(link.verifiedOn, link.retrievedOn, on)
    && NotAfter(s.retrievedOn, on) && Begun(s.effectiveFrom, on)
  }

  /** Some source of these links under the id is worth a look. */
  ghost predicate SomeWorthALook(links: seq<EvidenceLink>, id: string, on: Date) {
    exists link, s :: link in links && WorthALook(link, s, on) && s.id == id
  }

  lemma {:induction false} VerifiableSourcesAs(m: map<string, PublicSource>, link: EvidenceLink, n: nat, on: Date,
                                               id: string)
    requires n <= |link.sources| && Verifiable(link, on)
    ensures var r := VerifiableSources(m, link.sources[..n], on);
            && (id in r <==> id in m || exists s :: s in link.sources[..n] && WorthALook(link, s, on) && s.id == id)
            && (id in r && !(id in m && r[id] == m[id]) ==>
                  exists s :: s in link.sources[..n] && WorthALook(link, s, on) && s.id == id && Tells(r[id], s))
  {
    if n > 0 {
      VerifiableSourcesAs(m, link, n - 1, on, id);
      assert link.sources[..n][..n - 1] == link.sources[..n - 1];
      assert link.sources[..n] == link.sources[..n - 1] + [link.sources[n - 1]];
    }
  }

  lemma {:induction false} ToVerifyExactlyIf(m: map<string, PublicSource>, links: seq<EvidenceLink>, on: Date,
                                             id: string)
    ensures id in ToVerify(m, links, on) <==> id in m || SomeWorthALook(links, id, on)
  {
    if links != [] {
      var init, last := links[..|links| - 1], links[|links| - 1];
      ToVerifyExactlyIf(m, init, on, id);
      assert forall link :: link in links <==> link in init || link == last;
      if Verifiable(last, on) {
        assert last.sources[..|last.sources|] == last.sources;
        VerifiableSourcesAs(ToVerify(m, init, on), last, |last.sources|, on, id);
      }
    }
  }

  // ----- all associations

  lemma {:induction false} RoutesAs(rows: seq<Association>, points: seq<ServicePoint>, pointVersions: seq<PointVersion>,
                                    facts: PreparedFacts, on: Date, start: Routes, id: string)
    ensures var r := RoutesOf(rows, points, pointVersions, facts, on, start);
            && (forall x :: x in r.destinations
                            <==> x in start.destinations
                                 || exists a ::
                                      a in rows && RouteOf(a, points, pointVersions, facts, on) == Destination(x))
            && (r.unresolved
                <==> start.unresolved || exists a :: a in rows && RouteOf(a, points, pointVersions, facts, on).Gap?)
            && (id in r.toVerify
                <==> id in start.toVerify
                     || exists a :: && a in rows && RouteOf(a, points, pointVersions, facts, on).Gap?
                                    && SomeWorthALook(RouteOf(a, points, pointVersions, facts, on).links, id, on))
  {
    if rows != [] {
      var init, last := rows[..|rows| - 1], rows[|rows| - 1];
      RoutesAs(init, points, pointVersions, facts, on, start, id);
      assert forall a :: a in rows <==> a in init || a == last;
      var route := RouteOf(last, points, pointVersions, facts, on);
      if route.Gap? {
        ToVerifyExactlyIf(RoutesOf(init, points, pointVersions, facts, on, start).toVerify, route.links, on, id);
      }
    }
  }

  /** The routing lists exactly the places its associations lead to. */
  lemma ListedExactlyIf(points: seq<ServicePoint>, pointVersions: seq<PointVersion>, v: Version, facts: PreparedFacts,
                        on: Date, x: PublicServicePoint)
    ensures x in SelectServicePoints(points, pointVersions, v, facts, on).destinations
            <==> exists a :: a in v.associations && RouteOf(a, points, pointVersions, facts, on) == Destination(x)
  {
    var rows := SortBy(v.associations, AssociationLe);
    var start := Routes([], map[], v.associations == []);
    RoutesAs(rows, points, pointVersions, facts, on, start, "");
    SortKeeps(v.associations, AssociationLe);
    SortKeeps(RoutesOf(rows, points, pointVersions, facts, on, start).destinations, DestinationLe);
  }

  /** It is resolved when it lists some and leaves no gap. */
  lemma StatusAs(points: seq<ServicePoint>, pointVersions: seq<PointVersion>, v: Version, facts: PreparedFacts,
                 on: Date)
    ensures var r := SelectServicePoints(points, pointVersions, v, facts, on);
            && (r.status == Unresolved <==> r.destinations == [])
            && (r.status == PartiallyResolved <==>
                  r.destinations != []
                  && exists a :: a in v.associations && RouteOf(a, points, pointVersions, facts, on).Gap?)
  {
    var rows := SortBy(v.associations, AssociationLe);
    var start := Routes([], map[], v.associations == []);
    RoutesAs(rows, points, pointVersions, facts, on, start, "");
    SortKeeps(v.associations, AssociationLe);
    var destinations := RoutesOf(rows, points, pointVersions, facts, on, start).destinations;
    SortKeeps(destinations, DestinationLe);
  }

  /** A source is offered for verification exactly when some gap leaves it worth a look. */
  lemma OfferedExactlyIf(points: seq<ServicePoint>, pointVersions: seq<PointVersion>, v: Version, facts: PreparedFacts,
                         on: Date, id: string)
    ensures (exists s ::
               s in SelectServicePoints(points, pointVersions, v, facts, on).verificationSources && s.id == id)
            <==> exists a :: a in v.associations && RouteOf(a, points, pointVersions, facts, on).Gap?
                             && SomeWorthALook(RouteOf(a, points, pointVersions, facts, on).links, id, on)
  {
    var rows := SortBy(v.associations, AssociationLe);
    var start := Routes([], map[], v.associations == []);
    RoutesAs(rows, points, pointVersions, facts, on, start, id);
    SortKeeps(v.associations, AssociationLe);
    var m := RoutesOf(rows, points, pointVersions, facts, on, start).toVerify;
    RoutesName(rows, points, pointVersions, facts, on, start);
    InIdOrderMeans(m);
    if id in m { assert m[id] in InIdOrder(m); }
  }

  ghost predicate NamedByKey(m: map<string, PublicSource>) {
    forall id | id in m :: m[id].id == id
  }

  lemma {:induction false} ToVerifyNames(m: map<string, PublicSource>, links: seq<EvidenceLink>, on: Date)
    requires NamedByKey(m)
    ensures NamedByKey(ToVerify(m, links, on))
  {
    if links != [] {
      var last := links[|links| - 1];
      ToVerifyNames(m, links[..|links| - 1], on);
      VerifiableNames(ToVerify(m, links[..|links| - 1], on), last.sources, on);
    }
  }

  lemma {:induction false} VerifiableNames(m: map<string, PublicSource>, sources: seq<Source>, on: Date)
    requires NamedByKey(m)
    ensures NamedByKey(VerifiableSources(m, sources, on))
  {
    if sources != [] { VerifiableNames(m, sources[..|sources| - 1], on); }
  }

  lemma {:induction false} RoutesName(rows: seq<Association>, points: seq<ServicePoint>,
                                      pointVersions: seq<PointVersion>, facts: PreparedFacts, on: Date, start: Routes)
    requires NamedByKey(start.toVerify)
    ensures NamedByKey(RoutesOf(rows, points, pointVersions, facts, on, start).toVerify)
  {
    if rows != [] {
      var init := rows[..|rows| - 1];
      RoutesName(init, points, pointVersions, facts, on, start);
      var route := RouteOf(rows[|rows| - 1], points, pointVersions, facts, on);
      if route.Gap? {
        ToVerifyNames(RoutesOf(init, points, pointVersions, facts, on, start).toVerify, route.links, on);
      }
    }
  }

  lemma DestinationLeIsOrder()
    ensures IsOrder(DestinationLe)
  {
    forall a, b ensures DestinationLe(a, b) || DestinationLe(b, a) {
      TextLeTotal(a.pointId, b.pointId);
      TextLeTotal(a.versionId, b.versionId);
      TextLeTotal(a.associationId, b.associationId);
    }
    forall a, b, c | DestinationLe(a, b) && DestinationLe(b, c) ensures DestinationLe(a, c) {
      Chained(a.pointId, b.pointId, c.pointId);
      Chained(a.versionId, b.versionId, c.versionId);
      Chained(a.associationId, b.associationId, c.associationId);
    }
  }

  lemma Chained(a: string, b: string, c: string)
    ensures TextLe(a, b) && TextLe(b, c) ==> TextLe(a, c)
    ensures TextLe(a, b) && TextLe(b, a) ==> a == b
  {
    if TextLe(a, b) && TextLe(b, c) { TextLeTransitive(a, b, c); }
    if TextLe(a, b) && TextLe(b, a) { TextLeAntisymmetric(a, b); }
  }

  /** Destinations go by place, then by description, then by association. */
  lemma DestinationsInTurn(points: seq<ServicePoint>, pointVersions: seq<PointVersion>, v: Version,
                           facts: PreparedFacts, on: Date, i: int, j: int)
    requires 0 <= i < j < |SelectServicePoints(points, pointVersions, v, facts, on).destinations|
    ensures var ds := SelectServicePoints(points, pointVersions, v, facts, on).destinations;
            && TextLe(ds[i].pointId, ds[j].pointId)
            && (ds[i].pointId == ds[j].pointId ==> TextLe(ds[i].versionId, ds[j].versionId))
            && (ds[i].pointId == ds[j].pointId && ds[i].versionId == ds[j].versionId ==>
                  TextLe(ds[i].associationId, ds[j].associationId))
  {
    var rows := SortBy(v.associations, AssociationLe);
    var start := Routes([], map[], v.associations == []);
    DestinationLeIsOrder();
    SortSorts(RoutesOf(rows, points, pointVersions, facts, on, start).destinations, DestinationLe);
    TextLeReflexive(SelectServicePoints(points, pointVersions, v, facts, on).destinations[i].pointId);
    TextLeReflexive(SelectServicePoints(points, pointVersions, v, facts, on).destinations[i].versionId);
  }
}
