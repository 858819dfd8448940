/**
  One service's request end to end (knowledge/evidence_workflow_temporal.py): discover the scope, load it,
  replay only the scope's evidence history, plan. The result is that of the whole catalog under its whole history.
 */
module ServiceLoad {
  import opened Calendar
  import opened Catalog
  import opened Versions
  import opened Planner
  import opened Scope
  import opened ScopedPlanning
  import opened EvidenceReplay
  import opened TrustProjection
  import W = EvidenceWorkflow

  // ----- projecting commutes with restricting

  /** The map leaves identities alone. */
  ghost predicate KeepsIds(f: ClaimMap) {
    forall k, v, c :: f(k, v, c).id == c.id
  }

  lemma ProjectionKeepsIds(overlays: map<Owner, Overlay>)
    ensures KeepsIds(Projection(overlays))
  {}

  lemma MapRowsFront<R>(rows: seq<R>, f: R -> R)
    requires rows != []
    ensures MapRows(rows, f)[..|rows| - 1] == MapRows(rows[..|rows| - 1], f)
  {}

  lemma {:induction false} VersionsInMapped(versions: seq<Version>, procedures: set<string>, f: ClaimMap)
    ensures VersionsIn(MapRows(versions, VersionWith(f)), procedures)
            == MapRows(VersionsIn(versions, procedures), VersionWith(f))
  {
    if versions != [] {
      var init, last := versions[..|versions| - 1], versions[|versions| - 1];
      VersionsInMapped(init, procedures, f);
      MapRowsFront(versions, VersionWith(f));
      var kept := VersionsIn(init, procedures);
      assert (kept + [last])[..|kept|] == kept;
    }
  }

  lemma {:induction false} MaterialsInMapped(rows: seq<PointVersion>, ids: set<string>, f: ClaimMap)
    requires KeepsIds(f)
    ensures MaterialsIn(MapRows(rows, MaterialWith(f)), ids) == MapRows(MaterialsIn(rows, ids), MaterialWith(f))
  {
    if rows != [] {
      var init, last := rows[..|rows| - 1], rows[|rows| - 1];
      MaterialsInMapped(init, ids, f);
      MapRowsFront(rows, MaterialWith(f));
      var kept := MaterialsIn(init, ids);
      assert (kept + [last])[..|kept|] == kept;
    }
  }

  lemma MaterialsOfMapped(v: Version, f: ClaimMap)
    ensures MaterialsOf(VersionWith(f)(v)) == MaterialsOf(v)
  {
    var w := VersionWith(f)(v);
    forall id | id in MaterialsOf(v) ensures id in MaterialsOf(w) {
      var i :| 0 <= i < |v.associations| && v.associations[i].pointVersionId == id;
      assert w.associations[i] in w.associations && w.associations[i].pointVersionId == id;
    }
    forall id | id in MaterialsOf(w) ensures id in MaterialsOf(v) {
      var i :| 0 <= i < |w.associations| && w.associations[i].pointVersionId == id;
      assert v.associations[i] in v.associations && v.associations[i].pointVersionId == id;
    }
  }

  lemma SameMaterialIds(a: seq<Version>, b: seq<Version>)
    requires |a| == |b| && forall i | 0 <= i < |a| :: MaterialsOf(b[i]) == MaterialsOf(a[i])
    ensures MaterialIds(a) == MaterialIds(b)
  {
    forall id | id in MaterialIds(a) ensures id in MaterialIds(b) {
      var i :| 0 <= i < |a| && id in MaterialsOf(a[i]);
      assert b[i] in b;
    }
    forall id | id in MaterialIds(b) ensures id in MaterialIds(a) {
      var i :| 0 <= i < |b| && id in MaterialsOf(b[i]);
      assert a[i] in a;
    }
  }

  /** Each version maps to one that mentions the same material. */
  lemma MaterialIdsMapped(versions: seq<Version>, f: ClaimMap)
    ensures MaterialIds(MapRows(versions, VersionWith(f))) == MaterialIds(versions)
  {
    var mapped := MapRows(versions, VersionWith(f));
    forall i | 0 <= i < |versions| ensures MaterialsOf(mapped[i]) == MaterialsOf(versions[i]) {
      MaterialsOfMapped(versions[i], f);
    }
    SameMaterialIds(versions, mapped);
  }

  lemma PointIdsMapped(rows: seq<PointVersion>, f: ClaimMap)
    ensures PointIds(MapRows(rows, MaterialWith(f))) == PointIds(rows)
  {
    var mapped := MapRows(rows, MaterialWith(f));
    forall id | id in PointIds(rows) ensures id in PointIds(mapped) {
      var i :| 0 <= i < |rows| && rows[i].pointId == id;
      assert mapped[i].pointId == id;
    }
    forall id | id in PointIds(mapped) ensures id in PointIds(rows) {
      var i :| 0 <= i < |mapped| && mapped[i].pointId == id;
      assert rows[i].pointId == id;
    }
  }

  lemma RestrictMapped(s: Snapshot, id: string, procedures: set<string>, f: ClaimMap)
    requires KeepsIds(f)
    ensures Restrict(MapClaims(s, f), id, procedures) == MapClaims(Restrict(s, id, procedures), f)
  {
    var versions := VersionsIn(s.versions, procedures);
    VersionsInMapped(s.versions, procedures, f);
    MaterialIdsMapped(versions, f);
    MaterialsInMapped(s.pointVersions, MaterialIds(versions), f);
    PointIdsMapped(MaterialsIn(s.pointVersions, MaterialIds(versions)), f);
  }

  // ----- the closure is the same

  lemma TargetsMapped(v: Version, f: ClaimMap)
    ensures TargetsOf(VersionWith(f)(v)) == TargetsOf(v)
  {
    var w := VersionWith(f)(v);
    forall t | t in TargetsOf(v) ensures t in TargetsOf(w) {
      var i :| 0 <= i < |v.dependencies| && v.dependencies[i].blocking && v.dependencies[i].target == t;
      assert w.dependencies[i] in w.dependencies && w.dependencies[i].blocking && w.dependencies[i].target == t;
    }
    forall t | t in TargetsOf(w) ensures t in TargetsOf(v) {
      var i :| 0 <= i < |w.dependencies| && w.dependencies[i].blocking && w.dependencies[i].target == t;
      assert v.dependencies[i] in v.dependencies && v.dependencies[i].blocking && v.dependencies[i].target == t;
    }
  }

  lemma LookupsMapped(s: Snapshot, f: ClaimMap, procedures: set<string>, ids: set<string>)
    ensures VersionsFor(MapClaims(s, f), procedures) == VersionsFor(s, procedures)
    ensures TargetsFor(MapClaims(s, f), ids) == TargetsFor(s, ids)
  {
    var mapped := MapClaims(s, f).versions;
    forall i | 0 <= i < |s.versions|
      ensures s.versions[i] in s.versions && mapped[i] in mapped && TargetsOf(mapped[i]) == TargetsOf(s.versions[i])
    {
      TargetsMapped(s.versions[i], f);
    }
    SameIds(s.versions, mapped, procedures);
    SameTargets(s.versions, mapped, ids);
  }

  lemma SameIds(a: seq<Version>, b: seq<Version>, procedures: set<string>)
    requires |a| == |b|
             && forall i | 0 <= i < |a| ::
                  b[i].id == a[i].id && b[i].procedure == a[i].procedure && b[i].state == a[i].state
    ensures (set v | v in a && v.procedure in procedures && IsPublic(v) :: v.id)
         == (set v | v in b && v.procedure in procedures && IsPublic(v) :: v.id)
  {
    var x := set v | v in a && v.procedure in procedures && IsPublic(v) :: v.id;
    var y := set v | v in b && v.procedure in procedures && IsPublic(v) :: v.id;
    forall id | id in x ensures id in y {
      var i :| 0 <= i < |a| && a[i].procedure in procedures && IsPublic(a[i]) && a[i].id == id;
      assert b[i] in b;
    }
    forall id | id in y ensures id in x {
      var i :| 0 <= i < |b| && b[i].procedure in procedures && IsPublic(b[i]) && b[i].id == id;
      assert a[i] in a;
    }
  }

  lemma SameTargets(a: seq<Version>, b: seq<Version>, ids: set<string>)
    requires |a| == |b| && forall i | 0 <= i < |a| :: b[i].id == a[i].id && TargetsOf(b[i]) == TargetsOf(a[i])
    ensures (set v, t | v in a && v.id in ids && t in TargetsOf(v) :: t)
            == (set v, t | v in b && v.id in ids && t in TargetsOf(v) :: t)
  {
    var x := set v, t | v in a && v.id in ids && t in TargetsOf(v) :: t;
    var y := set v, t | v in b && v.id in ids && t in TargetsOf(v) :: t;
    forall t | t in x ensures t in y {
      var i :| 0 <= i < |a| && a[i].id in ids && t in TargetsOf(a[i]);
      assert b[i] in b;
    }
    forall t | t in y ensures t in x {
      var i :| 0 <= i < |b| && b[i].id in ids && t in TargetsOf(b[i]);
      assert a[i] in a;
    }
  }

  lemma ClosureMapped(s: Snapshot, f: ClaimMap, id: string, procedures: set<string>)
    requires ClosedUnder(procedures, CandidateProcedures(s, id), VersionsLookup(s), TargetsLookup(s))
    ensures var t := MapClaims(s, f);
            ClosedUnder(procedures, CandidateProcedures(t, id), VersionsLookup(t), TargetsLookup(t))
  {
    LookupsMapped(s, f, procedures, VersionsFor(s, procedures));
  }

  // ----- the whole request

  /** The owners whose records a scope reads. */
  function OwnersIn(s: Snapshot): set<Owner> {
    (set v, r | v in s.versions && r in v.checklist :: Owner(ChecklistOwner, v.id, r.claim.id))
    + (set v, r | v in s.versions && r in v.bases :: Owner(BasisOwner, v.id, r.claim.id))
    + (set v, r | v in s.versions && r in v.steps :: Owner(StepOwner, v.id, r.claim.id))
    + (set v, r | v in s.versions && r in v.warnings :: Owner(WarningOwner, v.id, r.claim.id))
    + (set v, r | v in s.versions && r in v.fees :: Owner(FeeOwner, v.id, r.claim.id))
    + (set v, r | v in s.versions && r in v.dependencies :: Owner(DependencyOwner, v.id, r.claim.id))
    + (set v, r | v in s.versions && r in v.associations :: Owner(AssociationOwner, v.id, r.claim.id))
    + (set m | m in s.pointVersions :: Owner(MaterialOwner, "", m.claim.id))
  }

  lemma OwnersInCoversAll(s: Snapshot)
    ensures OwnedWithin(s, OwnersIn(s))
  {}

  /** Restricted snapshot and restricted history, or full snapshot and full history: the same plan. */
  lemma ScopedLoadPlansTheSame(s: Snapshot, t: W.Tables, procedures: set<string>, keep: set<Owner>, input: Input)
    requires W.Referenced(t)
    requires ClosedUnder(procedures, CandidateProcedures(s, input.service), VersionsLookup(s), TargetsLookup(s))
    requires OwnedWithin(Restrict(s, input.service, procedures), keep)
    ensures PlanStateless(Under(Restrict(s, input.service, procedures), OverlaysOf(W.ScopedHistory(t, input.on, keep))),
                          input)
         == PlanStateless(Under(s, OverlaysOf(W.CapturedHistory(t, input.on))), input)
  {
    var history := W.CapturedHistory(t, input.on);
    var f := Projection(OverlaysOf(history));
    W.ScopedHistoryIsItsPart(t, input.on, keep);
    ForeignHistoryChangesNothing(Restrict(s, input.service, procedures), history, keep);
    ProjectionKeepsIds(OverlaysOf(history));
    RestrictMapped(s, input.service, procedures, f);
    ClosureMapped(s, f, input.service, procedures);
    ScopedPlanIsFullPlan(MapClaims(s, f), procedures, input);
  }

  /** `load_consistent_service_knowledge_snapshot_as_of`, then the planning operation. */
  method PlanService(s: Snapshot, workflow: W.Workflow, input: Input) returns (r: Result)
    requires workflow.Valid()
    ensures W.Referenced(workflow.Contents())
    ensures r == PlanStateless(Under(s, OverlaysOf(W.CapturedHistory(workflow.Contents(), input.on))), input)
  {
    var t := workflow.Contents();
    var scoped, procedures, _ := LoadScoped(s, input.service);
    var keep := OwnersIn(scoped);
    OwnersInCoversAll(scoped);
    var history := W.ReadScopedHistory(t, input.on, keep);
    var projected := ProjectEvidenceTrust(scoped, history);
    W.CapturedOpensInconclusive(t, workflow.opening, workflow.resolving, input.on);
    ScopedReplays(t, input.on, keep);
    ScopedLoadPlansTheSame(s, t, procedures, keep, input);
    r := PlanStateless(projected.value, input);
  }

  lemma ScopedReplays(t: W.Tables, on: Date, keep: set<Owner>)
    requires W.Referenced(t) && OpensInconclusive(W.CapturedHistory(t, on))
    ensures Replayable(W.ScopedHistory(t, on, keep))
  {
    var history := W.CapturedHistory(t, on);
    W.ScopedHistoryIsItsPart(t, on, keep);
    ConcerningMembers(history, keep);
    WorkflowHistoryReplays(Concerning(history, keep));
  }

  lemma {:induction false} ConcerningMembers(history: seq<Event>, keep: set<Owner>)
    ensures forall e :: e in Concerning(history, keep) ==> e in history
  {
    if history != [] { ConcerningMembers(history[..|history| - 1], keep); }
  }
}
