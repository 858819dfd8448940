/**
  Projecting replayed trust onto a snapshot (knowledge/evidence_trust_projection.py), and what the projection
  leaves alone.
 */
module TrustProjection {
  import opened Wrappers
  import opened Catalog
  import opened EvidenceReplay

  // ----- one claim

  function OverlayLinks(links: seq<EvidenceLink>, o: Overlay): (r: seq<EvidenceLink>)
    requires o.evidenceState.Some?
    ensures |r| == |links|
    ensures forall i | 0 <= i < |links| ::
              r[i] == links[i].(state := o.evidenceState.value, verifiedOn := o.evidenceVerifiedOn,
                                reverifyOn := o.evidenceReverifyOn)
  {
    seq(|links|, i requires 0 <= i < |links| =>
                   links[i].(state := o.evidenceState.value, verifiedOn := o.evidenceVerifiedOn,
                             reverifyOn := o.evidenceReverifyOn))
  }

  /** `_overlay_item` */
  function OverlayClaim(c: Claim, o: Overlay): Claim {
    c.(state := o.state.GetOr(c.state),
       verifiedOn := MaxDate(c.verifiedOn, o.verifiedOn),
       reverifyOn := if o.reverifySeen then o.reverifyOn else c.reverifyOn,
       links := if o.evidenceState.Some? then OverlayLinks(c.links, o) else c.links)
  }

  function ClaimUnder(c: Claim, kind: Kind, version: string, overlays: map<Owner, Overlay>): Claim {
    var owner := Owner(kind, version, c.id);
    if owner in overlays then OverlayClaim(c, overlays[owner]) else c
  }

  // ----- rows

  function MapRows<R>(rows: seq<R>, f: R -> R): (r: seq<R>)
    ensures |r| == |rows|
    ensures forall i | 0 <= i < |rows| :: r[i] == f(rows[i])
  {
    if rows == [] then [] else MapRows(rows[..|rows| - 1], f) + [f(rows[|rows| - 1])]
  }

  lemma MapRowsCongruent<R>(rows: seq<R>, f: R -> R, g: R -> R)
    requires forall r | r in rows :: f(r) == g(r)
    ensures MapRows(rows, f) == MapRows(rows, g)
  {
    forall i | 0 <= i < |rows| ensures f(rows[i]) == g(rows[i]) {
      assert rows[i] in rows;
    }
  }

  lemma MapRowsIdentity<R>(rows: seq<R>, f: R -> R)
    requires forall r | r in rows :: f(r) == r
    ensures MapRows(rows, f) == rows
  {
    forall i | 0 <= i < |rows| ensures f(rows[i]) == rows[i] {
      assert rows[i] in rows;
    }
  }

  /** What happens to a claim, given its kind of owner and its version. */
  type ClaimMap = (Kind, string, Claim) -> Claim

  function ItemWith(version: string, f: ClaimMap): ChecklistItem -> ChecklistItem {
    (r: ChecklistItem) => r.(claim := f(ChecklistOwner, version, r.claim))
  }

  function BasisWith(version: string, f: ClaimMap): EligibilityBasis -> EligibilityBasis {
    (r: EligibilityBasis) => r.(claim := f(BasisOwner, version, r.claim))
  }

  function StepWith(version: string, f: ClaimMap): Step -> Step {
    (r: Step) => r.(claim := f(StepOwner, version, r.claim))
  }

  function WarningWith(version: string, f: ClaimMap): Warning -> Warning {
    (r: Warning) => r.(claim := f(WarningOwner, version, r.claim))
  }

  function FeeWith(version: string, f: ClaimMap): Fee -> Fee {
    (r: Fee) => r.(claim := f(FeeOwner, version, r.claim))
  }

  function DependencyWith(version: string, f: ClaimMap): Dependency -> Dependency {
    (r: Dependency) => r.(claim := f(DependencyOwner, version, r.claim))
  }

  function AssociationWith(version: string, f: ClaimMap): Association -> Association {
    (r: Association) => r.(claim := f(AssociationOwner, version, r.claim))
  }

  function MaterialWith(f: ClaimMap): PointVersion -> PointVersion {
    (r: PointVersion) => r.(claim := f(MaterialOwner, "", r.claim))
  }

  function VersionWith(f: ClaimMap): Version -> Version {
    (v: Version) =>
      v.(checklist := MapRows(v.checklist, ItemWith(v.id, f)),
         bases := MapRows(v.bases, BasisWith(v.id, f)),
         steps := MapRows(v.steps, StepWith(v.id, f)),
         warnings := MapRows(v.warnings, WarningWith(v.id, f)),
         fees := MapRows(v.fees, FeeWith(v.id, f)),
         dependencies := MapRows(v.dependencies, DependencyWith(v.id, f)),
         associations := MapRows(v.associations, AssociationWith(v.id, f)))
  }

  function MapClaims(s: Snapshot, f: ClaimMap): Snapshot {
    s.(versions := MapRows(s.versions, VersionWith(f)), pointVersions := MapRows(s.pointVersions, MaterialWith(f)))
  }

  /** The two maps do the same to every claim of the version. */
  ghost predicate AgreeOn(v: Version, f: ClaimMap, g: ClaimMap) {
    && (forall r | r in v.checklist :: f(ChecklistOwner, v.id, r.claim) == g(ChecklistOwner, v.id, r.claim))
    && (forall r | r in v.bases :: f(BasisOwner, v.id, r.claim) == g(BasisOwner, v.id, r.claim))
    && (forall r | r in v.steps :: f(StepOwner, v.id, r.claim) == g(StepOwner, v.id, r.claim))
    && (forall r | r in v.warnings :: f(WarningOwner, v.id, r.claim) == g(WarningOwner, v.id, r.claim))
    && (forall r | r in v.fees :: f(FeeOwner, v.id, r.claim) == g(FeeOwner, v.id, r.claim))
    && (forall r | r in v.dependencies :: f(DependencyOwner, v.id, r.claim) == g(DependencyOwner, v.id, r.claim))
    && (forall r | r in v.associations :: f(AssociationOwner, v.id, r.claim) == g(AssociationOwner, v.id, r.claim))
  }

  lemma VersionCongruent(v: Version, f: ClaimMap, g: ClaimMap)
    requires AgreeOn(v, f, g)
    ensures VersionWith(f)(v) == VersionWith(g)(v)
  {
    MapRowsCongruent(v.checklist, ItemWith(v.id, f), ItemWith(v.id, g));
    MapRowsCongruent(v.bases, BasisWith(v.id, f), BasisWith(v.id, g));
    MapRowsCongruent(v.steps, StepWith(v.id, f), StepWith(v.id, g));
    MapRowsCongruent(v.warnings, WarningWith(v.id, f), WarningWith(v.id, g));
    MapRowsCongruent(v.fees, FeeWith(v.id, f), FeeWith(v.id, g));
    MapRowsCongruent(v.dependencies, DependencyWith(v.id, f), DependencyWith(v.id, g));
    MapRowsCongruent(v.associations, AssociationWith(v.id, f), AssociationWith(v.id, g));
  }

  lemma MapClaimsCongruent(s: Snapshot, f: ClaimMap, g: ClaimMap)
    requires forall v | v in s.versions :: AgreeOn(v, f, g)
    requires forall m | m in s.pointVersions :: f(MaterialOwner, "", m.claim) == g(MaterialOwner, "", m.claim)
    ensures MapClaims(s, f) == MapClaims(s, g)
  {
    forall v | v in s.versions ensures VersionWith(f)(v) == VersionWith(g)(v) { VersionCongruent(v, f, g); }
    MapRowsCongruent(s.versions, VersionWith(f), VersionWith(g));
    MapRowsCongruent(s.pointVersions, MaterialWith(f), MaterialWith(g));
  }

  lemma MapRowsCompose<R>(rows: seq<R>, f: R -> R, g: R -> R, h: R -> R)
    requires forall r | r in rows :: g(f(r)) == h(r)
    ensures MapRows(MapRows(rows, f), g) == MapRows(rows, h)
  {
    forall i | 0 <= i < |rows| ensures g(f(rows[i])) == h(rows[i]) {
      assert rows[i] in rows;
    }
  }

  /** One map after the other does to the claims what the combined map does. */
  ghost predicate Composes(f: ClaimMap, g: ClaimMap, h: ClaimMap) {
    forall k, v, c :: g(k, v, f(k, v, c)) == h(k, v, c)
  }

  lemma ComposesAt(f: ClaimMap, g: ClaimMap, h: ClaimMap, k: Kind, v: string, c: Claim)
    requires Composes(f, g, h)
    ensures g(k, v, f(k, v, c)) == h(k, v, c)
  {}

  lemma VersionCompose(v: Version, f: ClaimMap, g: ClaimMap, h: ClaimMap)
    requires Composes(f, g, h)
    ensures VersionWith(g)(VersionWith(f)(v)) == VersionWith(h)(v)
  {
    forall r | r in v.checklist { ComposesAt(f, g, h, ChecklistOwner, v.id, r.claim); }
    MapRowsCompose(v.checklist, ItemWith(v.id, f), ItemWith(v.id, g), ItemWith(v.id, h));
    forall r | r in v.bases { ComposesAt(f, g, h, BasisOwner, v.id, r.claim); }
    MapRowsCompose(v.bases, BasisWith(v.id, f), BasisWith(v.id, g), BasisWith(v.id, h));
    forall r | r in v.steps { ComposesAt(f, g, h, StepOwner, v.id, r.claim); }
    MapRowsCompose(v.steps, StepWith(v.id, f), StepWith(v.id, g), StepWith(v.id, h));
    forall r | r in v.warnings { ComposesAt(f, g, h, WarningOwner, v.id, r.claim); }
    MapRowsCompose(v.warnings, WarningWith(v.id, f), WarningWith(v.id, g), WarningWith(v.id, h));
    forall r | r in v.fees { ComposesAt(f, g, h, FeeOwner, v.id, r.claim); }
    MapRowsCompose(v.fees, FeeWith(v.id, f), FeeWith(v.id, g), FeeWith(v.id, h));
    forall r | r in v.dependencies { ComposesAt(f, g, h, DependencyOwner, v.id, r.claim); }
    MapRowsCompose(v.dependencies, DependencyWith(v.id, f), DependencyWith(v.id, g), DependencyWith(v.id, h));
    forall r | r in v.associations { ComposesAt(f, g, h, AssociationOwner, v.id, r.claim); }
    MapRowsCompose(v.associations, AssociationWith(v.id, f), AssociationWith(v.id, g), AssociationWith(v.id, h));
  }

  /** First one map, then the other, is the combined map. */
  lemma MapClaimsCompose(s: Snapshot, f: ClaimMap, g: ClaimMap, h: ClaimMap)
    requires Composes(f, g, h)
    ensures MapClaims(MapClaims(s, f), g) == MapClaims(s, h)
  {
    forall v | v in s.versions
      ensures VersionWith(g)(VersionWith(f)(v)) == VersionWith(h)(v)
    {
      VersionCompose(v, f, g, h);
    }
    MapRowsCompose(s.versions, VersionWith(f), VersionWith(g), VersionWith(h));
    forall r | r in s.pointVersions { ComposesAt(f, g, h, MaterialOwner, "", r.claim); }
    MapRowsCompose(s.pointVersions, MaterialWith(f), MaterialWith(g), MaterialWith(h));
  }

  ghost predicate KeepsAll(f: ClaimMap) {
    forall k, v, c :: f(k, v, c) == c
  }

  lemma KeepsAllAt(f: ClaimMap, k: Kind, v: string, c: Claim)
    requires KeepsAll(f)
    ensures f(k, v, c) == c
  {}

  lemma VersionIdentity(v: Version, f: ClaimMap)
    requires KeepsAll(f)
    ensures VersionWith(f)(v) == v
  {
    forall r | r in v.checklist { KeepsAllAt(f, ChecklistOwner, v.id, r.claim); }
    MapRowsIdentity(v.checklist, ItemWith(v.id, f));
    forall r | r in v.bases { KeepsAllAt(f, BasisOwner, v.id, r.claim); }
    MapRowsIdentity(v.bases, BasisWith(v.id, f));
    forall r | r in v.steps { KeepsAllAt(f, StepOwner, v.id, r.claim); }
    MapRowsIdentity(v.steps, StepWith(v.id, f));
    forall r | r in v.warnings { KeepsAllAt(f, WarningOwner, v.id, r.claim); }
    MapRowsIdentity(v.warnings, WarningWith(v.id, f));
    forall r | r in v.fees { KeepsAllAt(f, FeeOwner, v.id, r.claim); }
    MapRowsIdentity(v.fees, FeeWith(v.id, f));
    forall r | r in v.dependencies { KeepsAllAt(f, DependencyOwner, v.id, r.claim); }
    MapRowsIdentity(v.dependencies, DependencyWith(v.id, f));
    forall r | r in v.associations { KeepsAllAt(f, AssociationOwner, v.id, r.claim); }
    MapRowsIdentity(v.associations, AssociationWith(v.id, f));
  }

  lemma MapClaimsIdentity(s: Snapshot, f: ClaimMap)
    requires KeepsAll(f)
    ensures MapClaims(s, f) == s
  {
    forall v | v in s.versions ensures VersionWith(f)(v) == v { VersionIdentity(v, f); }
    MapRowsIdentity(s.versions, VersionWith(f));
    forall r | r in s.pointVersions { KeepsAllAt(f, MaterialOwner, "", r.claim); }
    MapRowsIdentity(s.pointVersions, MaterialWith(f));
  }

  /** The overlays as a map of claims. */
  function Projection(overlays: map<Owner, Overlay>): ClaimMap {
    (kind: Kind, version: string, c: Claim) => ClaimUnder(c, kind, version, overlays)
  }

  function Under(s: Snapshot, overlays: map<Owner, Overlay>): Snapshot {
    MapClaims(s, Projection(overlays))
  }

  // ----- project_evidence_trust

  /** The snapshot under its history; None where the precedence lookup fails. */
  function ProjectedSnapshot(s: Snapshot, history: seq<Event>): Option<Snapshot> {
    if Replayable(history) then Some(Under(s, OverlaysOf(history))) else None
  }

  method ProjectEvidenceTrust(s: Snapshot, history: seq<Event>) returns (r: Option<Snapshot>)
    ensures r == ProjectedSnapshot(s, history)
  {
    var overlays: map<Owner, Overlay> := map[];
    var open: map<Owner, map<nat, TrustState>> := map[];
    for n := 0 to |history|
      invariant TracksLatest(overlays, history[..n]) && TracksOpen(open, history[..n])
    {
      assert history[..n] + [history[n]] == history[..n + 1];
      open := TrackDiscrepancy(open, history[..n], history[n]);
      overlays := ReplayOne(overlays, history[..n], history[n]);
    }
    assert history[..|history|] == history;
    var settled := GivePrecedence(overlays, open, history);
    if settled.None? { return None; }
    if settled.value == map[] {
      EmptyOverlaysChangeNothing(s);
      return Some(s);
    }
    return Some(Under(s, settled.value));
  }

  lemma EmptyOverlaysChangeNothing(s: Snapshot)
    ensures Under(s, map[]) == s
  {
    MapClaimsIdentity(s, Projection(map[]));
  }

  // ----- authored semantics survive

  /** The claim without its trust. */
  function Authored(c: Claim): Claim {
    c.(state := Unverified, verifiedOn := None, reverifyOn := None,
       links := seq(|c.links|, i requires 0 <= i < |c.links| =>
                      c.links[i].(state := Unverified, verifiedOn := None, reverifyOn := None)))
  }

  /** Only the trust of a claim and of its evidence ever changes. */
  lemma ClaimKeepsAuthored(c: Claim, kind: Kind, version: string, overlays: map<Owner, Overlay>)
    ensures Authored(ClaimUnder(c, kind, version, overlays)) == Authored(c)
  {
    var owner := Owner(kind, version, c.id);
    if owner in overlays {
      var d := OverlayClaim(c, overlays[owner]);
      assert |Authored(d).links| == |Authored(c).links|;
      assert forall i | 0 <= i < |c.links| :: Authored(d).links[i] == Authored(c).links[i];
      assert Authored(d).links == Authored(c).links;
    }
  }

  function Stripping(): ClaimMap {
    (kind: Kind, version: string, c: Claim) => Authored(c)
  }

  /**
    Stripped of trust, the projected snapshot is the stripped original: the same rows in the same order
    under the same identities.
   */
  lemma ProjectionKeepsAuthored(s: Snapshot, overlays: map<Owner, Overlay>)
    ensures MapClaims(Under(s, overlays), Stripping()) == MapClaims(s, Stripping())
  {
    forall k, v, c
      ensures Authored(ClaimUnder(c, k, v, overlays)) == Authored(c)
    {
      ClaimKeepsAuthored(c, k, v, overlays);
    }
    MapClaimsCompose(s, Projection(overlays), Stripping(), Stripping());
  }

  // ----- history of other owners

  function Concerning(history: seq<Event>, keep: set<Owner>): seq<Event> {
    if history == [] then []
    else
      var init, last := Concerning(history[..|history| - 1], keep), history[|history| - 1];
      if last.owner in keep then init + [last] else init
  }

  lemma {:induction false} OwnHistoryKept(history: seq<Event>, keep: set<Owner>, o: Owner)
    ensures EventsOf(Concerning(history, keep), o) == if o in keep then EventsOf(history, o) else []
  {
    if history != [] {
      var init, last := history[..|history| - 1], history[|history| - 1];
      OwnHistoryKept(init, keep, o);
      var kept := Concerning(init, keep);
      assert (kept + [last])[..|kept|] == kept;
    }
  }

  lemma OverlayKept(history: seq<Event>, keep: set<Owner>, o: Owner)
    requires o in keep
    ensures o in OverlaysOf(Concerning(history, keep)) <==> o in OverlaysOf(history)
    ensures o in OverlaysOf(history) ==> OverlaysOf(Concerning(history, keep))[o] == OverlaysOf(history)[o]
  {
    OwnHistoryKept(history, keep, o);
    OwnersHaveEvents(history, o);
    OwnersHaveEvents(Concerning(history, keep), o);
  }

  /** Every claim of the snapshot belongs to one of the owners. */
  ghost predicate OwnedWithin(s: Snapshot, keep: set<Owner>) {
    && (forall v | v in s.versions :: VersionOwnedWithin(v, keep))
    && forall m | m in s.pointVersions :: Owner(MaterialOwner, "", m.claim.id) in keep
  }

  ghost predicate VersionOwnedWithin(v: Version, keep: set<Owner>) {
    && (forall r | r in v.checklist :: Owner(ChecklistOwner, v.id, r.claim.id) in keep)
    && (forall r | r in v.bases :: Owner(BasisOwner, v.id, r.claim.id) in keep)
    && (forall r | r in v.steps :: Owner(StepOwner, v.id, r.claim.id) in keep)
    && (forall r | r in v.warnings :: Owner(WarningOwner, v.id, r.claim.id) in keep)
    && (forall r | r in v.fees :: Owner(FeeOwner, v.id, r.claim.id) in keep)
    && (forall r | r in v.dependencies :: Owner(DependencyOwner, v.id, r.claim.id) in keep)
    && (forall r | r in v.associations :: Owner(AssociationOwner, v.id, r.claim.id) in keep)
  }

  /** Events of owners outside the snapshot change nothing in it. */
  lemma ForeignHistoryChangesNothing(s: Snapshot, history: seq<Event>, keep: set<Owner>)
    requires OwnedWithin(s, keep)
    ensures Under(s, OverlaysOf(Concerning(history, keep))) == Under(s, OverlaysOf(history))
  {
    var f, g := Projection(OverlaysOf(Concerning(history, keep))), Projection(OverlaysOf(history));
    forall kind, version, c: Claim | Owner(kind, version, c.id) in keep
      ensures f(kind, version, c) == g(kind, version, c)
    {
      OverlayKept(history, keep, Owner(kind, version, c.id));
    }
    MapClaimsCongruent(s, f, g);
  }

  /** Every discrepancy was opened with an outcome the workflow allows for open ones. */
  ghost predicate OpensInconclusive(history: seq<Event>) {
    forall e | e in history && e.Transition? && e.opens :: e.state in {NeedsReverification, Disputed, Unverified}
  }

  lemma OpenStateIsOpenOutcome(history: seq<Event>, o: Owner)
    requires OpensInconclusive(history) && EventsOf(history, o) != []
    ensures OwnTrust(EventsOf(history, o)).state.Some?
    ensures OpenNow(EventsOf(history, o)) != map[] ==> OwnTrust(EventsOf(history, o)).state.value != Current
  {
    var events := EventsOf(history, o);
    if OpenNow(events) != map[] {
      var d :| d in OpenNow(events);
      var state := OpenNow(events)[d];
      OpenNowMeans(events, d, state);
      OwnersHaveEvents(history, o);
      var i :| 0 <= i < |events| && OpenAt(events, i) && events[i].discrepancy == d && events[i].state == state;
      assert events[i] in events;
      assert state in OpenNow(events).Values;
    }
  }

  /** Histories the workflow writes never hit the failed lookup. */
  lemma WorkflowHistoryReplays(history: seq<Event>)
    requires OpensInconclusive(history)
    ensures Replayable(history)
  {
    forall i | 0 <= i < |history| ensures OwnTrust(EventsOfIndex(history, i)).state.Some? {
      OwnersHaveEvents(history, history[i].owner);
      OpenStateIsOpenOutcome(history, history[i].owner);
    }
  }

  predicate ReplaysFor(history: seq<Event>, o: Owner) {
    EventsOf(history, o) != [] ==> OwnTrust(EventsOf(history, o)).state.Some?
  }

  lemma ReplayableMeansEach(history: seq<Event>)
    ensures Replayable(history) <==> forall o :: ReplaysFor(history, o)
  {
    forall o ensures o in OwnersOf(history) <==> EventsOf(history, o) != [] { OwnersHaveEvents(history, o); }
    if Replayable(history) {
      forall o ensures ReplaysFor(history, o) {
        if o in OwnersOf(history) {
          var i :| 0 <= i < |history| && history[i].owner == o;
          assert OwnTrust(EventsOfIndex(history, i)).state.Some?;
        }
      }
    } else {
      var i :| 0 <= i < |history| && OwnTrust(EventsOfIndex(history, i)).state.None?;
      assert !ReplaysFor(history, history[i].owner);
    }
  }

  /**
    Dropping foreign history leaves the projection as it was exactly when no foreign owner fails the
    precedence lookup, or the snapshot's own history fails it anyway.
   */
  lemma ForeignHistoryMattersExactlyIf(s: Snapshot, history: seq<Event>, keep: set<Owner>)
    requires OwnedWithin(s, keep)
    ensures ProjectedSnapshot(s, Concerning(history, keep)) == ProjectedSnapshot(s, history)
            <==> (forall o | o !in keep :: ReplaysFor(history, o)) || !Replayable(Concerning(history, keep))
  {
    var own := Concerning(history, keep);
    ForeignHistoryChangesNothing(s, history, keep);
    ReplayableMeansEach(history);
    ReplayableMeansEach(own);
    forall o
      ensures ReplaysFor(own, o) <==> (o in keep ==> ReplaysFor(history, o))
    {
      OwnHistoryKept(history, keep, o);
    }
  }
}
