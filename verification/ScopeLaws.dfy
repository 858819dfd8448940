/** What one service's part of the catalog holds (knowledge/planning_scope.py): which Procedures, and which rows. */
module ScopeLaws {
  import opened Catalog
  import opened Versions
  import opened Scope
  import opened ScopedPlanning

  // ----- the Procedures

  /** A public version of the first Procedure names the second in a blocking dependency. */
  ghost predicate DependsOn(s: Snapshot, first: string, second: string) {
    exists u, v, d ::
      && u in s.versions && u.procedure == first && (u.state == Published || u.state == Withdrawn)
      && v in s.versions && v.id == u.id && d in v.dependencies && d.blocking && d.target == second
  }

  ghost predicate OffersProcedure(s: Snapshot, id: string, procedure: string) {
    exists x, c :: x in s.services && x.id == id && c in x.candidates && c.procedure == procedure
  }

  /** A chain of dependencies leads there from a Procedure the service offers. */
  ghost predicate InScopeOf(s: Snapshot, id: string, procedure: string) {
    exists path: seq<string> ::
      && path != [] && OffersProcedure(s, id, path[0]) && path[|path| - 1] == procedure
      && forall i | 0 <= i < |path| - 1 :: DependsOn(s, path[i], path[i + 1])
  }

  lemma StepLeads(s: Snapshot, first: string, second: string)
    requires second in TargetsFor(s, VersionsFor(s, {first}))
    ensures DependsOn(s, first, second)
  {
    var v :| v in s.versions && v.id in VersionsFor(s, {first}) && second in TargetsOf(v);
    var u :| u in s.versions && u.procedure in {first} && IsPublic(u) && u.id == v.id;
    var d :| d in v.dependencies && d.blocking && d.target == second;
    assert u.procedure == first;
  }

  lemma LeadingSteps(s: Snapshot, first: string, second: string)
    requires DependsOn(s, first, second)
    ensures second in TargetsFor(s, VersionsFor(s, {first}))
  {
    var u, v, d :| && u in s.versions && u.procedure == first && (u.state == Published || u.state == Withdrawn)
                   && v in s.versions && v.id == u.id && d in v.dependencies && d.blocking && d.target == second;
    assert IsPublic(u) && u.procedure in {first};
    assert u.id in VersionsFor(s, {first});
    assert second in TargetsOf(v);
  }

  lemma StepExactlyIf(s: Snapshot, first: string, second: string)
    ensures second in Next({first}, VersionsLookup(s), TargetsLookup(s)) <==> DependsOn(s, first, second)
  {
    if second in TargetsFor(s, VersionsFor(s, {first})) { StepLeads(s, first, second); }
    if DependsOn(s, first, second) { LeadingSteps(s, first, second); }
  }

  lemma OfferedExactlyIf(s: Snapshot, id: string, procedure: string)
    ensures procedure in CandidateProcedures(s, id) <==> OffersProcedure(s, id, procedure)
  {}

  ghost predicate IsChain(s: Snapshot, id: string, path: seq<string>) {
    && path != [] && OffersProcedure(s, id, path[0])
    && forall i | 0 <= i < |path| - 1 :: DependsOn(s, path[i], path[i + 1])
  }

  lemma LongerChain(s: Snapshot, id: string, path: seq<string>)
    requires |path| > 1
    ensures IsChain(s, id, path)
            <==> IsChain(s, id, path[..|path| - 1]) && DependsOn(s, path[|path| - 2], path[|path| - 1])
  {
    var init := path[..|path| - 1];
    assert forall i | 0 <= i < |init| :: init[i] == path[i];
    if IsChain(s, id, init) && DependsOn(s, path[|path| - 2], path[|path| - 1]) {
      forall i | 0 <= i < |path| - 1 ensures DependsOn(s, path[i], path[i + 1]) {
        if i < |path| - 2 { assert DependsOn(s, init[i], init[i + 1]); }
      }
    }
    if IsChain(s, id, path) {
      forall i | 0 <= i < |init| - 1 ensures DependsOn(s, init[i], init[i + 1]) {
        assert DependsOn(s, path[i], path[i + 1]);
      }
    }
  }

  lemma {:induction false} PathExactlyIf(s: Snapshot, id: string, path: seq<string>)
    ensures IsPath(path, CandidateProcedures(s, id), VersionsLookup(s), TargetsLookup(s)) <==> IsChain(s, id, path)
  {
    if |path| > 1 {
      PathExactlyIf(s, id, path[..|path| - 1]);
      StepExactlyIf(s, path[|path| - 2], path[|path| - 1]);
      LongerChain(s, id, path);
    } else if |path| == 1 {
      OfferedExactlyIf(s, id, path[0]);
    }
  }

  /** The discovered Procedures are those a chain of blocking dependencies leads to from the service. */
  lemma ReachedExactlyIf(s: Snapshot, id: string, procedure: string)
    ensures Reachable(procedure, CandidateProcedures(s, id), VersionsLookup(s), TargetsLookup(s))
            <==> InScopeOf(s, id, procedure)
  {
    if path :| IsPath(path, CandidateProcedures(s, id), VersionsLookup(s), TargetsLookup(s))
               && path[|path| - 1] == procedure {
      PathExactlyIf(s, id, path);
    }
    if InScopeOf(s, id, procedure) {
      var path: seq<string> :| && path != [] && OffersProcedure(s, id, path[0]) && path[|path| - 1] == procedure
                               && forall i | 0 <= i < |path| - 1 :: DependsOn(s, path[i], path[i + 1]);
      PathExactlyIf(s, id, path);
    }
  }

  // ----- the rows

  /** Rows at increasing positions. */
  ghost predicate PickedAt<T>(kept: seq<T>, rows: seq<T>, at: seq<int>) {
    && |at| == |kept| && (forall n | 0 <= n < |at| :: 0 <= at[n] < |rows| && kept[n] == rows[at[n]])
    && (forall m, n | 0 <= m < n < |at| :: at[m] < at[n])
  }

  /** The rows at these positions, and no other row qualifies. */
  ghost predicate Keeps<T>(kept: seq<T>, rows: seq<T>, at: seq<int>, qualifies: T -> bool) {
    PickedAt(kept, rows, at) && forall i | 0 <= i < |rows| :: i in at <==> qualifies(rows[i])
  }

  lemma PicksOneMore<T>(kept: seq<T>, rows: seq<T>, at: seq<int>)
    requires rows != [] && PickedAt(kept, rows[..|rows| - 1], at)
    ensures PickedAt(kept, rows, at) && PickedAt(kept + [rows[|rows| - 1]], rows, at + [|rows| - 1])
  {}

  lemma KeepsOneMore<T>(kept: seq<T>, rows: seq<T>, at: seq<int>, qualifies: T -> bool) returns (more: seq<int>)
    requires rows != [] && Keeps(kept, rows[..|rows| - 1], at, qualifies)
    ensures Keeps(if qualifies(rows[|rows| - 1]) then kept + [rows[|rows| - 1]] else kept, rows, more, qualifies)
  {
    var init, n := rows[..|rows| - 1], |rows| - 1;
    PicksOneMore(kept, rows, at);
    more := if qualifies(rows[n]) then at + [n] else at;
    forall i | 0 <= i < |rows| ensures i in more <==> qualifies(rows[i]) {
      if i < n { assert init[i] == rows[i]; }
    }
  }

  lemma {:induction false} VersionsKept(versions: seq<Version>, procedures: set<string>) returns (at: seq<int>)
    ensures Keeps(VersionsIn(versions, procedures), versions, at, (v: Version) => v.procedure in procedures)
  {
    at := [];
    if versions != [] {
      at := VersionsKept(versions[..|versions| - 1], procedures);
      at := KeepsOneMore(VersionsIn(versions[..|versions| - 1], procedures), versions, at,
                         (v: Version) => v.procedure in procedures);
    }
  }

  lemma {:induction false} MaterialsKept(rows: seq<PointVersion>, ids: set<string>) returns (at: seq<int>)
    ensures Keeps(MaterialsIn(rows, ids), rows, at, (m: PointVersion) => m.claim.id in ids)
  {
    at := [];
    if rows != [] {
      at := MaterialsKept(rows[..|rows| - 1], ids);
      at := KeepsOneMore(MaterialsIn(rows[..|rows| - 1], ids), rows, at, (m: PointVersion) => m.claim.id in ids);
    }
  }

  lemma {:induction false} PointsKept(points: seq<ServicePoint>, ids: set<string>) returns (at: seq<int>)
    ensures Keeps(PointsIn(points, ids), points, at, (p: ServicePoint) => p.id in ids)
  {
    at := [];
    if points != [] {
      at := PointsKept(points[..|points| - 1], ids);
      at := KeepsOneMore(PointsIn(points[..|points| - 1], ids), points, at, (p: ServicePoint) => p.id in ids);
    }
  }

  /** An association of a version in scope mentions the description. */
  ghost predicate Mentions(s: Snapshot, procedures: set<string>, material: string) {
    exists v, a :: v in s.versions && v.procedure in procedures && a in v.associations && a.pointVersionId == material
  }

  lemma MentionedExactlyIf(s: Snapshot, procedures: set<string>, material: string)
    ensures material in MaterialIds(VersionsIn(s.versions, procedures)) <==> Mentions(s, procedures, material)
  {
    KeptVersions(s.versions, procedures);
    if Mentions(s, procedures, material) {
      var v, a :| v in s.versions && v.procedure in procedures && a in v.associations && a.pointVersionId == material;
      assert v in VersionsIn(s.versions, procedures) && material in MaterialsOf(v);
    }
  }

  /** The part holds the service, the versions in scope, the material they mention and the points of that material, and
      every definition. */
  lemma PartHolds(s: Snapshot, id: string, procedures: set<string>)
    ensures var part := Restrict(s, id, procedures);
            && part.definitions == s.definitions
            && (forall x :: x in part.services <==> x in s.services && x.id == id)
            && (forall v :: v in part.versions <==> v in s.versions && v.procedure in procedures)
            && (forall m :: m in part.pointVersions <==> m in s.pointVersions && Mentions(s, procedures, m.claim.id))
            && (forall p ::
                  p in part.points <==> p in s.points && exists m :: m in part.pointVersions && m.pointId == p.id)
  {
    var part := Restrict(s, id, procedures);
    SameService(s.services, id);
    KeptVersions(s.versions, procedures);
    var at := MaterialsKept(s.pointVersions, MaterialIds(part.versions));
    forall m ensures m in part.pointVersions <==> m in s.pointVersions && Mentions(s, procedures, m.claim.id) {
      MentionedExactlyIf(s, procedures, m.claim.id);
      KeptExactlyIf(part.pointVersions, s.pointVersions, at,
                    (r: PointVersion) => r.claim.id in MaterialIds(part.versions), m);
    }
    var up := PointsKept(s.points, PointIds(part.pointVersions));
    forall p ensures p in part.points <==> p in s.points && p.id in PointIds(part.pointVersions) {
      KeptExactlyIf(part.points, s.points, up, (r: ServicePoint) => r.id in PointIds(part.pointVersions), p);
    }
  }

  lemma KeptExactlyIf<T>(kept: seq<T>, rows: seq<T>, at: seq<int>, qualifies: T -> bool, x: T)
    requires Keeps(kept, rows, at, qualifies)
    ensures x in kept <==> x in rows && qualifies(x)
  {
    if x in kept {
      var n :| 0 <= n < |kept| && kept[n] == x;
      assert at[n] in at && qualifies(rows[at[n]]);
    }
    if x in rows && qualifies(x) {
      var i :| 0 <= i < |rows| && rows[i] == x;
      assert i in at;
      var n :| 0 <= n < |at| && at[n] == i;
      assert kept[n] == x;
    }
  }
}
