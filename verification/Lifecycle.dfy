/**
  The publication lifecycle (knowledge/publication.py, knowledge/models.py): drafts are created, saved and deleted;
  publishing and withdrawing are the only ways on. Steps run one at a time.
 */
module Lifecycle {
  import opened Wrappers
  import opened Ordering
  import opened Calendar
  import opened Catalog
  import opened Versions
  import opened CycleCheck

  datatype AuditKind = PublishedEvent | WithdrawnEvent

  datatype AuditEvent = AuditEvent(version: nat, kind: AuditKind, from: LifecycleState, to: LifecycleState)

  /** Stored versions by primary key, the next key, and the append-only audit trail. */
  datatype Store = Store(versions: map<nat, Version>, next: nat, audit: seq<AuditEvent>)

  /** What the gates outside this model said about the version, and whether the actor is a saved user. */
  datatype Action =
    | Create(v: Version)
    | SaveDraft(pk: nat, v: Version)
    | Delete(pk: nat)
    | Publish(pk: nat, actorSaved: bool, otherGatesPass: bool)
    | Withdraw(pk: nat, actorSaved: bool)

  datatype Failure =
    | OnlyCreatedAsDraft | UnknownVersion | ImmutableVersion | UseLifecycleService | CannotDelete
    | VersionNotDraft | InvalidActor | UnsupportedContract | InvalidInterval | OverlappingPublishedVersion
    | BlockingCycle
    | OtherGateFailed | VersionNotPublished

  // ----- gates

  /** `_overlap_queryset`, filter by filter. */
  predicate InOverlapQuery(other: Version, v: Version) {
    && other.procedure == v.procedure && other.state == Published
    && (v.effectiveTo.Some? ==> other.effectiveFrom.None? || NotAfter(other.effectiveFrom.value, v.effectiveTo.value))
    && (v.effectiveFrom.Some? ==> other.effectiveTo.None? || NotAfter(v.effectiveFrom.value, other.effectiveTo.value))
  }

  function OverlapQuery(versions: map<nat, Version>, pk: nat): set<nat>
    requires pk in versions
  {
    set k | k in versions && k != pk && InOverlapQuery(versions[k], versions[pk])
  }

  /** The query finds exactly the published versions of the procedure that the resolver would call overlapping. */
  lemma OverlapQueryFindsOverlaps(versions: map<nat, Version>, pk: nat)
    requires pk in versions
    ensures forall k :: k in OverlapQuery(versions, pk)
              <==> k in versions && k != pk && versions[k].state == Published
                   && versions[k].procedure == versions[pk].procedure && Overlap(versions[k], versions[pk])
  {}

  function EdgesFrom(v: Version): set<Edge> {
    set t | t in TargetsOf(v) :: (v.procedure, t)
  }

  /** The blocking dependencies of the published versions, and of one more. */
  function GraphWith(versions: map<nat, Version>, pk: Option<nat>): set<Edge> {
    set k, e | k in versions && (versions[k].state == Published || pk == Some(k)) && e in EdgesFrom(versions[k]) :: e
  }

  ghost predicate Cyclic(versions: map<nat, Version>, pk: nat) {
    HasCycle(GraphWith(versions, Some(pk)))
  }

  /** The failures of publishing version `pk`. */
  ghost function PublishFailures(s: Store, pk: nat, actorSaved: bool, otherGatesPass: bool): set<Failure> {
    if pk !in s.versions then {UnknownVersion}
    else
      var v := s.versions[pk];
      (if v.state != Draft then {VersionNotDraft} else {})
      + (if !actorSaved then {InvalidActor} else {})
      + (if !v.contractV1 then {UnsupportedContract} else {})
      + (if !OrderedInterval(v) then {InvalidInterval} else {})
      + (if OverlapQuery(s.versions, pk) != {} then {OverlappingPublishedVersion} else {})
      + (if Cyclic(s.versions, pk) then {BlockingCycle} else {})
      + (if !otherGatesPass then {OtherGateFailed} else {})
  }

  ghost function Failures(s: Store, action: Action): set<Failure> {
    match action
    case Create(v) => if v.state != Draft then {OnlyCreatedAsDraft} else {}
    case SaveDraft(pk, v) =>
      if pk !in s.versions then {UnknownVersion}
      else if s.versions[pk].state != Draft then {ImmutableVersion}
      else if v.state != Draft then {UseLifecycleService} else {}
    case Delete(pk) =>
      if pk !in s.versions then {UnknownVersion}
      else if s.versions[pk].state != Draft then {CannotDelete} else {}
    case Publish(pk, actorSaved, otherGatesPass) => PublishFailures(s, pk, actorSaved, otherGatesPass)
    case Withdraw(pk, actorSaved) =>
      if pk !in s.versions then {UnknownVersion}
      else if !actorSaved then {InvalidActor}
      else if s.versions[pk].state != Published then {VersionNotPublished} else {}
  }

  // ----- one step

  function Move(s: Store, pk: nat, kind: AuditKind, to: LifecycleState): Store
    requires pk in s.versions
  {
    s.(versions := s.versions[pk := s.versions[pk].(state := to)],
       audit := s.audit + [AuditEvent(pk, kind, s.versions[pk].state, to)])
  }

  /** A refused action changes nothing. */
  ghost function Next(s: Store, action: Action): Store {
    if Failures(s, action) != {} then s
    else
      match action
      case Create(v) => s.(versions := s.versions[s.next := v], next := s.next + 1)
      case SaveDraft(pk, v) => s.(versions := s.versions[pk := v])
      case Delete(pk) => s.(versions := s.versions - {pk})
      case Publish(pk, _, _) => Move(s, pk, PublishedEvent, Published)
      case Withdraw(pk, _) => Move(s, pk, WithdrawnEvent, Withdrawn)
  }

  // ----- the invariant

  function EventsFor(audit: seq<AuditEvent>, pk: nat): seq<AuditEvent> {
    if audit == [] then []
    else
      var init, last := EventsFor(audit[..|audit| - 1], pk), audit[|audit| - 1];
      if last.version == pk then init + [last] else init
  }

  /** The trail of a version in a given state, from draft on. */
  function TrailOf(pk: nat, state: LifecycleState): seq<AuditEvent> {
    var published := AuditEvent(pk, PublishedEvent, Draft, Published);
    match state
    case Published => [published]
    case Withdrawn => [published, AuditEvent(pk, WithdrawnEvent, Published, Withdrawn)]
    case _ => []
  }

  ghost predicate Audited(s: Store) {
    && (forall k | k in s.versions :: k < s.next && s.versions[k].state != OtherState)
    && (forall k | k in s.versions :: EventsFor(s.audit, k) == TrailOf(k, s.versions[k].state))
    && (forall k | k !in s.versions :: EventsFor(s.audit, k) == [])
  }

  ghost predicate Sound(s: Store) {
    forall k | k in s.versions && s.versions[k].state != Draft ::
      s.versions[k].contractV1 && OrderedInterval(s.versions[k])
  }

  predicate Apart(a: Version, b: Version) {
    a.procedure == b.procedure && a.state == Published && b.state == Published ==> !Overlap(a, b)
  }

  ghost predicate Disjoint(versions: map<nat, Version>) {
    forall j, k | j in versions && k in versions && j != k :: Apart(versions[j], versions[k])
  }

  ghost predicate Acyclic(versions: map<nat, Version>) {
    !HasCycle(GraphWith(versions, None))
  }

  ghost predicate Invariant(s: Store) {
    Audited(s) && Sound(s) && Disjoint(s.versions) && Acyclic(s.versions)
  }

  // ----- every step keeps it

  lemma EventsForNext(audit: seq<AuditEvent>, e: AuditEvent, pk: nat)
    ensures EventsFor(audit + [e], pk) == EventsFor(audit, pk) + (if e.version == pk then [e] else [])
  {
    assert (audit + [e])[..|audit|] == audit;
  }

  lemma NextIsAudited(s: Store, action: Action)
    requires Audited(s)
    ensures Audited(Next(s, action))
  {
    if Failures(s, action) == {} && (action.Publish? || action.Withdraw?) {
      var pk := action.pk;
      assert action.Publish? ==> s.versions[pk].state == Draft by {
        if action.Publish? { PassingMeans(s, pk, action.actorSaved, action.otherGatesPass); }
      }
      var kind, to := if action.Publish? then PublishedEvent
                      else WithdrawnEvent, if action.Publish? then Published else Withdrawn;
      forall k: nat { EventsForNext(s.audit, AuditEvent(pk, kind, s.versions[pk].state, to), k); }
    }
  }

  /** An empty failure set means every gate passed. */
  lemma PassingMeans(s: Store, pk: nat, actorSaved: bool, otherGatesPass: bool)
    ensures PublishFailures(s, pk, actorSaved, otherGatesPass) == {}
            <==> && pk in s.versions && s.versions[pk].state == Draft && actorSaved && otherGatesPass
                 && s.versions[pk].contractV1 && OrderedInterval(s.versions[pk])
                 && OverlapQuery(s.versions, pk) == {} && !Cyclic(s.versions, pk)
  {
    var f := PublishFailures(s, pk, actorSaved, otherGatesPass);
    if pk in s.versions {
      assert VersionNotDraft in f <==> s.versions[pk].state != Draft;
      assert InvalidActor in f <==> !actorSaved;
      assert UnsupportedContract in f <==> !s.versions[pk].contractV1;
      assert InvalidInterval in f <==> !OrderedInterval(s.versions[pk]);
      assert OverlappingPublishedVersion in f <==> OverlapQuery(s.versions, pk) != {};
      assert BlockingCycle in f <==> Cyclic(s.versions, pk);
      assert OtherGateFailed in f <==> !otherGatesPass;
    } else {
      assert UnknownVersion in f;
    }
  }

  lemma NextIsSound(s: Store, action: Action)
    requires Sound(s) && Audited(s)
    ensures Sound(Next(s, action))
  {
    if action.Publish? { PassingMeans(s, action.pk, action.actorSaved, action.otherGatesPass); }
  }

  lemma NextIsDisjoint(s: Store, action: Action)
    requires Disjoint(s.versions)
    ensures Disjoint(Next(s, action).versions)
  {
    if action.Publish? && Failures(s, action) == {} {
      PassingMeans(s, action.pk, action.actorSaved, action.otherGatesPass);
      OverlapQueryFindsOverlaps(s.versions, action.pk);
      forall k | k in s.versions && k != action.pk
        ensures Apart(s.versions[k], s.versions[action.pk].(state := Published))
      {
        assert k !in OverlapQuery(s.versions, action.pk);
      }
    }
  }

  lemma NextIsAcyclic(s: Store, action: Action)
    requires Acyclic(s.versions) && Audited(s)
    ensures Acyclic(Next(s, action).versions)
  {
    if action.Publish? && Failures(s, action) == {} {
      PassingMeans(s, action.pk, action.actorSaved, action.otherGatesPass);
      PublishedGraph(s.versions, action.pk);
      if !Acyclic(Next(s, action).versions) {
        FewerEdgesFewerCycles(GraphWith(Next(s, action).versions, None), GraphWith(s.versions, Some(action.pk)));
      }
    } else {
      GraphOnlyShrinks(s, action);
      if !Acyclic(Next(s, action).versions) {
        FewerEdgesFewerCycles(GraphWith(Next(s, action).versions, None), GraphWith(s.versions, None));
      }
    }
  }

  lemma PublishedGraph(versions: map<nat, Version>, pk: nat)
    requires pk in versions
    ensures GraphWith(versions[pk := versions[pk].(state := Published)], None) <= GraphWith(versions, Some(pk))
  {
    var after := versions[pk := versions[pk].(state := Published)];
    forall e | e in GraphWith(after, None) ensures e in GraphWith(versions, Some(pk)) {
      var k :| k in after && after[k].state == Published && e in EdgesFrom(after[k]);
      assert EdgesFrom(after[k]) == EdgesFrom(versions[k]);
    }
  }

  lemma GraphOnlyShrinks(s: Store, action: Action)
    requires Audited(s) && !(action.Publish? && Failures(s, action) == {})
    ensures GraphWith(Next(s, action).versions, None) <= GraphWith(s.versions, None)
  {
    var after := Next(s, action).versions;
    forall e | e in GraphWith(after, None) ensures e in GraphWith(s.versions, None) {
      var k :| k in after && after[k].state == Published && e in EdgesFrom(after[k]);
      assert k in s.versions && after[k] == s.versions[k];
    }
  }

  lemma InvariantStep(s: Store, action: Action)
    requires Invariant(s)
    ensures Invariant(Next(s, action))
  {
    NextIsAudited(s, action);
    NextIsSound(s, action);
    NextIsDisjoint(s, action);
    NextIsAcyclic(s, action);
  }

  // ----- runs

  ghost function Run(s: Store, actions: seq<Action>): Store {
    if actions == [] then s else Next(Run(s, actions[..|actions| - 1]), actions[|actions| - 1])
  }

  const EMPTY := Store(map[], 0, [])

  lemma NoEdgesNoCycle(edges: set<Edge>)
    requires edges == {}
    ensures !HasCycle(edges)
  {
    if HasCycle(edges) {
      var path :| IsCycle(edges, path);
      FirstEdge(edges, path);
      assert false;
    }
  }

  lemma FirstEdge(edges: set<Edge>, path: seq<string>)
    requires IsCycle(edges, path)
    ensures edges != {}
  {
    assert (path[0], path[1]) in edges;
  }

  lemma EmptyStore()
    ensures Invariant(EMPTY)
  {
    NoEdgesNoCycle(GraphWith(EMPTY.versions, None));
  }

  /** After any run: matching audit trails, disjoint published intervals per procedure, an acyclic published graph. */
  lemma {:induction false} InvariantOfRuns(actions: seq<Action>)
    ensures Invariant(Run(EMPTY, actions))
  {
    if actions == [] {
      EmptyStore();
    } else {
      InvariantOfRuns(actions[..|actions| - 1]);
      InvariantStep(Run(EMPTY, actions[..|actions| - 1]), actions[|actions| - 1]);
    }
  }

  function Stage(state: LifecycleState): nat {
    match state case Draft => 0 case Published => 1 case Withdrawn => 2 case OtherState => 3
  }

  /** Once public, a version is never deleted, never changes, and only moves on to withdrawn. */
  lemma PublicVersionsStay(s: Store, action: Action, k: nat)
    requires Audited(s) && k in s.versions && s.versions[k].state != Draft
    ensures var t := Next(s, action);
            && k in t.versions && t.versions[k].(state := s.versions[k].state) == s.versions[k]
            && Stage(s.versions[k].state) <= Stage(t.versions[k].state) <= Stage(Withdrawn)
  {
    if action.Publish? { PassingMeans(s, action.pk, action.actorSaved, action.otherGatesPass); }
  }

  lemma {:induction false} PublicVersionsStayThroughRuns(s: Store, actions: seq<Action>, k: nat)
    requires Invariant(s) && k in s.versions && s.versions[k].state != Draft
    ensures var t := Run(s, actions);
            && Invariant(t) && k in t.versions && t.versions[k].(state := s.versions[k].state) == s.versions[k]
            && Stage(s.versions[k].state) <= Stage(t.versions[k].state) <= Stage(Withdrawn)
  {
    if actions != [] {
      var before := Run(s, actions[..|actions| - 1]);
      PublicVersionsStayThroughRuns(s, actions[..|actions| - 1], k);
      InvariantStep(before, actions[|actions| - 1]);
      PublicVersionsStay(before, actions[|actions| - 1], k);
    }
  }

  // ----- the service

  class LifecycleService {
    var versions: map<nat, Version>
    var next: nat
    var audit: seq<AuditEvent>

    function State(): Store
      reads this
    {
      Store(versions, next, audit)
    }

    constructor ()
      ensures State() == EMPTY
    {
      versions, next, audit := map[], 0, [];
    }

    method CreateDraft(v: Version) returns (failures: set<Failure>)
      modifies this
      ensures failures == Failures(old(State()), Create(v)) && State() == Next(old(State()), Create(v))
    {
      if v.state != Draft { return {OnlyCreatedAsDraft}; }
      versions, next := versions[next := v], next + 1;
      return {};
    }

    method Save(pk: nat, v: Version) returns (failures: set<Failure>)
      modifies this
      ensures failures == Failures(old(State()), SaveDraft(pk, v)) && State() == Next(old(State()), SaveDraft(pk, v))
    {
      if pk !in versions { return {UnknownVersion}; }
      if versions[pk].state != Draft { return {ImmutableVersion}; }
      if v.state != Draft { return {UseLifecycleService}; }
      versions := versions[pk := v];
      return {};
    }

    method DeleteDraft(pk: nat) returns (failures: set<Failure>)
      modifies this
      ensures failures == Failures(old(State()), Delete(pk)) && State() == Next(old(State()), Delete(pk))
    {
      if pk !in versions { return {UnknownVersion}; }
      if versions[pk].state != Draft { return {CannotDelete}; }
      versions := versions - {pk};
      return {};
    }

    /** `publish_procedure_version`: every gate runs, and nothing changes unless all pass. */
    method PublishVersion(pk: nat, actorSaved: bool, otherGatesPass: bool) returns (failures: set<Failure>)
      modifies this
      ensures failures == Failures(old(State()), Publish(pk, actorSaved, otherGatesPass))
      ensures State() == Next(old(State()), Publish(pk, actorSaved, otherGatesPass))
    {
      failures := RunGates(State(), pk, actorSaved, otherGatesPass);
      if failures != {} { return; }
      PassingMeans(State(), pk, actorSaved, otherGatesPass);
      audit := audit + [AuditEvent(pk, PublishedEvent, versions[pk].state, Published)];
      versions := versions[pk := versions[pk].(state := Published)];
    }

    /** `withdraw_procedure_version` */
    method WithdrawVersion(pk: nat, actorSaved: bool) returns (failures: set<Failure>)
      modifies this
      ensures failures == Failures(old(State()), Withdraw(pk, actorSaved))
              && State() == Next(old(State()), Withdraw(pk, actorSaved))
    {
      if pk !in versions { return {UnknownVersion}; }
      if !actorSaved { return {InvalidActor}; }
      if versions[pk].state != Published { return {VersionNotPublished}; }
      audit := audit + [AuditEvent(pk, WithdrawnEvent, versions[pk].state, Withdrawn)];
      versions := versions[pk := versions[pk].(state := Withdrawn)];
      return {};
    }
  }

  /** Every gate adds its failures; none stops the others. */
  method RunGates(s: Store, pk: nat, actorSaved: bool, otherGatesPass: bool) returns (failures: set<Failure>)
    ensures failures == PublishFailures(s, pk, actorSaved, otherGatesPass)
  {
    if pk !in s.versions { return {UnknownVersion}; }
    var v := s.versions[pk];
    failures := if v.state != Draft then {VersionNotDraft} else {};
    failures := failures + (if !actorSaved then {InvalidActor} else {});
    failures := failures + (if !v.contractV1 then {UnsupportedContract} else {});
    failures := failures + (if !OrderedInterval(v) then {InvalidInterval} else {});
    failures := failures + (if OverlapQuery(s.versions, pk) != {} then {OverlappingPublishedVersion} else {});
    var rows := GraphRows(s.versions, pk);
    var cyclic := HasBlockingCycle(rows);
    failures := failures + (if cyclic then {BlockingCycle} else {});
    failures := failures + (if !otherGatesPass then {OtherGateFailed} else {});
  }

  /** The dependency rows the cycle check reads: those of the published versions and of the version itself. */
  method GraphRows(versions: map<nat, Version>, pk: nat) returns (rows: seq<Row>)
    ensures BlockingEdges(rows) == GraphWith(versions, Some(pk))
  {
    rows := [];
    var todo := versions.Keys;
    while todo != {}
      invariant todo <= versions.Keys
      invariant BlockingEdges(rows) == GraphWith(Among(versions, versions.Keys - todo), Some(pk))
      decreases todo
    {
      var k :| k in todo;
      if versions[k].state == Published || k == pk {
        var own := DependencyRows(versions[k]);
        EdgesJoin(rows, own);
        rows := rows + own;
      }
      GraphNext(versions, versions.Keys - todo, k, pk);
      assert versions.Keys - (todo - {k}) == versions.Keys - todo + {k};
      todo := todo - {k};
    }
    assert Among(versions, versions.Keys - todo) == versions;
  }

  ghost function Among(versions: map<nat, Version>, keys: set<nat>): map<nat, Version> {
    map k | k in versions && k in keys :: versions[k]
  }

  lemma GraphNext(versions: map<nat, Version>, keys: set<nat>, k: nat, pk: nat)
    requires k in versions
    ensures GraphWith(Among(versions, keys + {k}), Some(pk))
         == GraphWith(Among(versions, keys), Some(pk))
            + (if versions[k].state == Published || k == pk then EdgesFrom(versions[k]) else {})
  {
    var before, after := Among(versions, keys), Among(versions, keys + {k});
    var own := if versions[k].state == Published || k == pk then EdgesFrom(versions[k]) else {};
    forall e | e in GraphWith(after, Some(pk)) ensures e in GraphWith(before, Some(pk)) + own {
      var j :| j in after && (after[j].state == Published || pk == j) && e in EdgesFrom(after[j]);
      if j != k { assert j in before && before[j] == after[j]; }
    }
    forall e | e in GraphWith(before, Some(pk)) + own ensures e in GraphWith(after, Some(pk)) {
      if e in own {
        assert k in after && after[k] == versions[k];
      } else {
        var j :| j in before && (before[j].state == Published || pk == j) && e in EdgesFrom(before[j]);
        assert j in after && after[j] == before[j];
      }
    }
  }

  lemma EdgesJoin(a: seq<Row>, b: seq<Row>)
    ensures BlockingEdges(a + b) == BlockingEdges(a) + BlockingEdges(b)
  {
    assert forall r :: r in a + b <==> r in a || r in b;
  }

  method DependencyRows(v: Version) returns (rows: seq<Row>)
    ensures BlockingEdges(rows) == EdgesFrom(v)
  {
    rows := seq(|v.dependencies|, i requires 0 <= i < |v.dependencies| =>
                                    Row(v.procedure, v.dependencies[i].target, v.dependencies[i].blocking));
    forall e | e in EdgesFrom(v) ensures e in BlockingEdges(rows) {
      var i :| 0 <= i < |v.dependencies| && v.dependencies[i].blocking && e == (v.procedure, v.dependencies[i].target);
      assert rows[i] in rows;
    }
    forall e | e in BlockingEdges(rows) ensures e in EdgesFrom(v) {
      var i :| 0 <= i < |rows| && rows[i].blocking && e == (rows[i].from, rows[i].target);
      assert v.dependencies[i] in v.dependencies;
    }
  }

  // ----- what the resolver may rely on

  /** The rows are the public versions of the store, one each. */
  ghost predicate Lists(rows: seq<Version>, keys: seq<nat>, s: Store) {
    && |keys| == |rows|
    && (forall i, j | 0 <= i < j < |keys| :: keys[i] != keys[j])
    && (forall i | 0 <= i < |keys| :: keys[i] in s.versions && s.versions[keys[i]] == rows[i] && rows[i].state != Draft)
    && forall k | k in s.versions && s.versions[k].state != Draft :: k in keys
  }

  lemma {:induction false} VersionsOfApart(rows: seq<Version>, procedure: string)
    requires Pairwise(rows, Apart)
    ensures Pairwise(VersionsOf(rows, procedure), Apart)
  {
    if rows != [] {
      var init, last := rows[..|rows| - 1], rows[|rows| - 1];
      VersionsOfApart(init, procedure);
      VersionsOfMembers(init, procedure);
      var kept := VersionsOf(init, procedure);
      forall i | 0 <= i < |kept| ensures Apart(kept[i], last) {
        assert kept[i] in init;
      }
    }
  }

  lemma {:induction false} PublishedOfApart(rows: seq<Version>)
    requires Pairwise(rows, Apart)
    ensures Pairwise(PublishedOf(rows), Apart)
  {
    if rows != [] {
      var init, last := rows[..|rows| - 1], rows[|rows| - 1];
      PublishedOfApart(init);
      PublishedMembers(init);
      var kept := PublishedOf(init);
      forall i | 0 <= i < |kept| ensures Apart(kept[i], last) {
        assert kept[i] in init;
      }
    }
  }

  lemma ApartIsSymmetric()
    ensures forall a, b :: Apart(a, b) ==> Apart(b, a)
  {}

  lemma {:induction false} NoCodes(rows: seq<Version>)
    requires forall v | v in rows :: VersionCodes(v) == {}
    ensures AllCodes(rows) == {}
  {
    if rows != [] {
      assert rows[|rows| - 1] in rows;
      NoCodes(rows[..|rows| - 1]);
    }
  }

  lemma ApartMeansNoConflicts(published: seq<Version>)
    requires Pairwise(published, Apart)
    requires forall i | 0 <= i < |published| ::
               published[i].state == Published && published[i].procedure == published[0].procedure
    ensures ConflictingIds(published) == {}
  {
    forall i, j | 0 <= i < |published| && 0 <= j < |published| ensures !Clash(published, i, j) {
      if i < j { assert Apart(published[i], published[j]); }
      if j < i { assert Apart(published[j], published[i]); }
    }
  }

  lemma ApartRowsResolve(snapshot: Snapshot, procedure: string, on: Date)
    requires Pairwise(snapshot.versions, Apart) && forall v | v in snapshot.versions :: VersionCodes(v) == {}
    ensures !Resolve(snapshot, procedure, on, None).Defect?
  {
    var own := VersionsOf(snapshot.versions, procedure);
    var versions := SortBy(own, IdLe);
    VersionsOfApart(snapshot.versions, procedure);
    VersionsOfMembers(snapshot.versions, procedure);
    ApartIsSymmetric();
    SortKeepsPairwise(own, IdLe, Apart);
    SortKeeps(own, IdLe);
    PublishedOfApart(versions);
    PublishedMembers(versions);
    var published := PublishedOf(versions);
    forall i | 0 <= i < |published| ensures published[i].state == Published && published[i].procedure == procedure {
      assert published[i] in published;
    }
    ApartMeansNoConflicts(published);
    NoCodes(versions);
  }

  /**
    In every store a run can reach, resolution never reports a defect, and finds a version on a day exactly when
    one is published and in force, which is then the only one.
   */
  lemma ResolverNeverReportsADefect(actions: seq<Action>, snapshot: Snapshot, keys: seq<nat>, procedure: string,
                                    on: Date)
    requires Lists(snapshot.versions, keys, Run(EMPTY, actions))
    ensures !Resolve(snapshot, procedure, on, None).Defect?
    ensures Resolve(snapshot, procedure, on, None).Resolved?
            <==> exists v ::
                   v in snapshot.versions && v.procedure == procedure && v.state == Published && Contains(v, on)
    ensures forall v ::
              v in snapshot.versions && v.procedure == procedure && v.state == Published && Contains(v, on) ==>
                          Resolve(snapshot, procedure, on, None).Resolved?
                          && Resolve(snapshot, procedure, on, None).version == v
  {
    InvariantOfRuns(actions);
    ListedAreApart(snapshot.versions, keys, Run(EMPTY, actions));
    ApartRowsResolve(snapshot, procedure, on);
    var own := VersionsOf(snapshot.versions, procedure);
    VersionsOfMembers(snapshot.versions, procedure);
    SortKeeps(own, IdLe);
    ResolvedExactlyIfInForce(SortBy(own, IdLe), IsCandidate(snapshot.services, procedure), on);
  }

  lemma ListedAreApart(rows: seq<Version>, keys: seq<nat>, s: Store)
    requires Invariant(s) && Lists(rows, keys, s)
    ensures Pairwise(rows, Apart)
    ensures forall v | v in rows :: VersionCodes(v) == {}
  {}
}
