/** Which version of a Procedure applies on a day (planning/versions.py). */
module Versions {
  import opened Wrappers
  import opened Ordering
  import opened Calendar
  import opened Catalog

  /** Why there is no plan: the reason codes of the inconclusive results. */
  datatype Reason =
    | UnknownService | InactiveService
    | MultipleMatchingProcedures | NoMatchingResearchedProcedure
    | UnknownProcedure | NoPublishedVersion | NotYetEffective | NoApplicableVersion
    | UnknownHistoricalVersion | DraftHistoricalVersion | HistoricalVersionNotYetEffective
    | ProcedureVersionApplicabilityUnknown | ProcedureVersionNotApplicable
    | NoApplicableEligibilityBasis
    | ChecklistApplicabilityUnknown | StepApplicabilityUnknown | FeeApplicabilityUnknown

  datatype VersionDefect =
    InvalidLifecycleState | UnsupportedRulesContract | InvalidEffectiveInterval | OverlappingPublishedIntervals

  datatype Resolution =
    | Resolved(version: Version, upcoming: seq<Version>, historical: bool)
    | Unavailable(reason: Reason, upcoming: seq<Version>)
    | Defect(codes: set<VersionDefect>, conflicting: seq<string>, upcoming: seq<Version>)

  predicate IdLe(a: Version, b: Version) {
    TextLe(a.id, b.id)
  }

  predicate UpcomingLe(a: Version, b: Version) {
    var x, y := a.effectiveFrom.GetOr(Ymd(1, 1, 1)), b.effectiveFrom.GetOr(Ymd(1, 1, 1));
    Before(x, y) || (x == y && TextLe(a.id, b.id))
  }

  function VersionsOf(versions: seq<Version>, procedure: string): seq<Version> {
    if versions == [] then []
    else
      var init, last := VersionsOf(versions[..|versions| - 1], procedure), versions[|versions| - 1];
      if last.procedure == procedure then init + [last] else init
  }

  function PublishedOf(versions: seq<Version>): seq<Version> {
    if versions == [] then []
    else
      var init, last := PublishedOf(versions[..|versions| - 1]), versions[|versions| - 1];
      if last.state == Published then init + [last] else init
  }

  function Applicable(versions: seq<Version>, on: Date): seq<Version> {
    if versions == [] then []
    else
      var init, last := Applicable(versions[..|versions| - 1], on), versions[|versions| - 1];
      if Contains(last, on) then init + [last] else init
  }

  function UpcomingOf(versions: seq<Version>, on: Date): seq<Version> {
    if versions == [] then []
    else
      var init, last := UpcomingOf(versions[..|versions| - 1], on), versions[|versions| - 1];
      if last.state == Published && last.effectiveFrom.Some? && Before(on, last.effectiveFrom.value) then init + [last]
      else init
  }

  /** `_contains` */
  predicate Contains(v: Version, on: Date) {
    (v.effectiveFrom.None? || NotAfter(v.effectiveFrom.value, on))
    && (v.effectiveTo.None? || NotAfter(on, v.effectiveTo.value))
  }

  /** `_overlap` */
  predicate Overlap(a: Version, b: Version) {
    && (a.effectiveFrom.None? || b.effectiveTo.None? || NotAfter(a.effectiveFrom.value, b.effectiveTo.value))
    && (b.effectiveFrom.None? || a.effectiveTo.None? || NotAfter(b.effectiveFrom.value, a.effectiveTo.value))
  }

  predicate OrderedInterval(v: Version) {
    v.effectiveFrom.Some? && v.effectiveTo.Some? ==> NotAfter(v.effectiveFrom.value, v.effectiveTo.value)
  }

  /** Two ordered intervals overlap exactly when they share a day. */
  lemma OverlapExactlyIfSharedDay(a: Version, b: Version)
    requires OrderedInterval(a) && OrderedInterval(b)
    ensures Overlap(a, b) <==> exists d: Date :: Contains(a, d) && Contains(b, d)
  {
    if Overlap(a, b) {
      var first: Date := Ymd(1, 1, 1);
      var d := Later(a.effectiveFrom.GetOr(first), b.effectiveFrom.GetOr(first));
      assert Contains(a, d) && Contains(b, d);
    }
  }

  /** The procedures a version's blocking dependencies point at. */
  function TargetsOf(v: Version): set<string> {
    set d | d in v.dependencies && d.blocking :: d.target
  }

  function VersionCodes(v: Version): set<VersionDefect> {
    (if v.state == OtherState then {InvalidLifecycleState} else {})
    + (if !v.contractV1 then {UnsupportedRulesContract} else {})
    + (if !OrderedInterval(v) then {InvalidEffectiveInterval} else {})
  }

  function AllCodes(versions: seq<Version>): set<VersionDefect> {
    if versions == [] then {} else AllCodes(versions[..|versions| - 1]) + VersionCodes(versions[|versions| - 1])
  }

  function MalformedIds(versions: seq<Version>): set<string> {
    set i | 0 <= i < |versions| && VersionCodes(versions[i]) != {} :: versions[i].id
  }

  predicate Clash(published: seq<Version>, i: nat, j: nat)
    requires i < |published| && j < |published|
  {
    i != j && Overlap(published[i], published[j])
  }

  predicate Conflicts(published: seq<Version>, i: nat)
    requires i < |published|
  {
    exists j | 0 <= j < |published| :: Clash(published, i, j)
  }

  function ConflictingIds(published: seq<Version>): set<string> {
    set i | 0 <= i < |published| && Conflicts(published, i) :: published[i].id
  }

  predicate IsCandidate(services: seq<Service>, procedure: string) {
    exists i, j | 0 <= i < |services| && 0 <= j < |services[i].candidates| ::
      services[i].candidates[j].procedure == procedure
  }

  function FindVersion(versions: seq<Version>, id: string): Option<Version> {
    if versions == [] then None
    else if versions[0].id == id then Some(versions[0])
    else FindVersion(versions[1..], id)
  }

  function Historical(versions: seq<Version>, id: string, on: Date, upcoming: seq<Version>): Resolution {
    match FindVersion(versions, id)
    case None => Unavailable(UnknownHistoricalVersion, upcoming)
    case Some(v) =>
      if v.state == Draft then Unavailable(DraftHistoricalVersion, upcoming)
      else if v.effectiveFrom.Some? && Before(on, v.effectiveFrom.value) then
        Unavailable(HistoricalVersionNotYetEffective, upcoming)
      else Resolved(v, upcoming, v.state == Withdrawn || (v.effectiveTo.Some? && Before(v.effectiveTo.value, on)))
  }

  function CurrentVersion(published: seq<Version>, on: Date, upcoming: seq<Version>): Resolution {
    var applicable := Applicable(published, on);
    if |applicable| == 1 then Resolved(applicable[0], upcoming, false)
    else if published == [] then Unavailable(NoPublishedVersion, upcoming)
    else if forall i | 0 <= i < |published| ::
              published[i].effectiveFrom.Some? && Before(on, published[i].effectiveFrom.value)
    then Unavailable(NotYetEffective, upcoming)
    else Unavailable(NoApplicableVersion, upcoming)
  }

  function ResolveAmong(versions: seq<Version>, known: bool, on: Date, historicalId: Option<string>): Resolution {
    if versions == [] && !known then Unavailable(UnknownProcedure, [])
    else
      var upcoming := SortBy(UpcomingOf(versions, on), UpcomingLe);
      var published := PublishedOf(versions);
      if AllCodes(versions) != {} then
        Defect(AllCodes(versions), SortedTexts(MalformedIds(versions)), upcoming)
      else if ConflictingIds(published) != {} then
        Defect({OverlappingPublishedIntervals}, SortedTexts(ConflictingIds(published)), upcoming)
      else if historicalId.Some? then Historical(versions, historicalId.value, on, upcoming)
      else CurrentVersion(published, on, upcoming)
  }

  /** `resolve_procedure_version` */
  function Resolve(snapshot: Snapshot, procedure: string, on: Date, historicalId: Option<string>): Resolution {
    ResolveAmong(SortBy(VersionsOf(snapshot.versions, procedure), IdLe), IsCandidate(snapshot.services, procedure), on,
                 historicalId)
  }

  // ----- the scanning loops

  method ScanVersions(versions: seq<Version>) returns (codes: set<VersionDefect>, malformed: set<string>)
    ensures codes == AllCodes(versions) && malformed == MalformedIds(versions)
  {
    codes, malformed := {}, {};
    for n := 0 to |versions|
      invariant codes == AllCodes(versions[..n])
      invariant malformed == set i | 0 <= i < n && VersionCodes(versions[i]) != {} :: versions[i].id
    {
      var v := versions[n];
      assert versions[..n + 1][..n] == versions[..n];
      var own: set<VersionDefect> := {};
      if v.state == OtherState { own := own + {InvalidLifecycleState}; }
      if !v.contractV1 { own := own + {UnsupportedRulesContract}; }
      if v.effectiveFrom.Some? && v.effectiveTo.Some? && Before(v.effectiveTo.value, v.effectiveFrom.value) {
        own := own + {InvalidEffectiveInterval};
      }
      assert own == VersionCodes(v);
      if own != {} {
        malformed := malformed + {v.id};
        codes := codes + own;
      }
    }
    assert versions[..|versions|] == versions;
  }

  method FindConflicts(published: seq<Version>) returns (conflicting: set<string>)
    ensures conflicting == ConflictingIds(published)
  {
    conflicting := {};
    ghost var hit: set<int> := {};
    for index := 0 to |published|
      invariant Hits(published, hit, index, index + 1)
      invariant conflicting == IdsAt(published, hit)
    {
      var left := published[index];
      for k := index + 1 to |published|
        invariant Hits(published, hit, index, k)
        invariant conflicting == IdsAt(published, hit)
      {
        var right := published[k];
        HitsNext(published, hit, index, k);
        if Overlap(left, right) {
          IdsAtMore(published, hit, {index, k});
          conflicting := conflicting + {left.id, right.id};
          hit := hit + {index, k};
        }
      }
      HitsNextRow(published, hit, index);
    }
    assert hit == set i | 0 <= i < |published| && Conflicts(published, i);
  }

  /** The pairs compared once row `index` has reached column `k`. */
  predicate Seen(index: int, k: int, i: int, j: int) {
    i < index || j < index || (i == index && j < k) || (j == index && i < k)
  }

  ghost predicate Hits(published: seq<Version>, hit: set<int>, index: int, k: int) {
    && (forall i | i in hit :: 0 <= i < |published|)
    && forall i | 0 <= i < |published| ::
         i in hit <==> exists j | 0 <= j < |published| :: Clash(published, i, j) && Seen(index, k, i, j)
  }

  lemma HitsNext(published: seq<Version>, hit: set<int>, index: nat, k: nat)
    requires index < k < |published| && Hits(published, hit, index, k)
    ensures Hits(published, if Overlap(published[index], published[k]) then hit + {index, k} else hit, index, k + 1)
  {
    var more := if Overlap(published[index], published[k]) then hit + {index, k} else hit;
    forall i | 0 <= i < |published|
      ensures i in more <==> exists j | 0 <= j < |published| :: Clash(published, i, j) && Seen(index, k + 1, i, j)
    {
      if i in more {
        if i in hit {
          var j :| 0 <= j < |published| && Clash(published, i, j) && Seen(index, k, i, j);
          assert Seen(index, k + 1, i, j);
        } else {
          var j := if i == index then k else index;
          assert Clash(published, i, j) && Seen(index, k + 1, i, j);
        }
      }
      if j :| 0 <= j < |published| && Clash(published, i, j) && Seen(index, k + 1, i, j) {
        assert Seen(index, k, i, j) || (i == index && j == k) || (i == k && j == index);
      }
    }
  }

  lemma HitsNextRow(published: seq<Version>, hit: set<int>, index: nat)
    requires index < |published| && Hits(published, hit, index, |published|)
    ensures Hits(published, hit, index + 1, index + 2)
  {
    forall i, j | 0 <= i < |published| && 0 <= j < |published| && Clash(published, i, j)
      ensures Seen(index, |published|, i, j) <==> Seen(index + 1, index + 2, i, j)
    {}
  }

  ghost function IdsAt(published: seq<Version>, at: set<int>): set<string>
    requires forall i | i in at :: 0 <= i < |published|
  {
    set i | i in at :: published[i].id
  }

  lemma IdsAtMore(published: seq<Version>, at: set<int>, more: set<int>)
    requires forall i | i in at + more :: 0 <= i < |published|
    ensures IdsAt(published, at + more) == IdsAt(published, at) + IdsAt(published, more)
  {}

  /** `resolve_procedure_version`, as the source runs it. */
  method ResolveProcedureVersion(snapshot: Snapshot, procedure: string, on: Date, historicalId: Option<string>)
    returns (r: Resolution)
    ensures r == Resolve(snapshot, procedure, on, historicalId)
  {
    var versions := SortBy(VersionsOf(snapshot.versions, procedure), IdLe);
    if versions == [] && !IsCandidate(snapshot.services, procedure) { return Unavailable(UnknownProcedure, []); }
    var codes, malformed := ScanVersions(versions);
    var upcoming := SortBy(UpcomingOf(versions, on), UpcomingLe);
    if codes != {} { return Defect(codes, SortedTexts(malformed), upcoming); }
    var published := PublishedOf(versions);
    var conflicting := FindConflicts(published);
    if conflicting != {} { return Defect({OverlappingPublishedIntervals}, SortedTexts(conflicting), upcoming); }
    if historicalId.Some? { return Historical(versions, historicalId.value, on, upcoming); }
    return CurrentVersion(published, on, upcoming);
  }

  // ----- what resolution promises

  lemma {:induction false} VersionsOfMembers(versions: seq<Version>, procedure: string)
    ensures forall v :: v in VersionsOf(versions, procedure) <==> v in versions && v.procedure == procedure
  {
    if versions != [] {
      VersionsOfMembers(versions[..|versions| - 1], procedure);
      assert forall v :: v in versions <==> v in versions[..|versions| - 1] || v == versions[|versions| - 1];
    }
  }

  lemma {:induction false} PublishedMembers(versions: seq<Version>)
    ensures forall v :: v in PublishedOf(versions) <==> v in versions && v.state == Published
  {
    if versions != [] {
      PublishedMembers(versions[..|versions| - 1]);
      assert forall v :: v in versions <==> v in versions[..|versions| - 1] || v == versions[|versions| - 1];
    }
  }

  lemma {:induction false} ApplicableMembers(versions: seq<Version>, on: Date)
    ensures forall v :: v in Applicable(versions, on) <==> v in versions && Contains(v, on)
    ensures |Applicable(versions, on)| >= 2 ==>
              exists i, j | 0 <= i < j < |versions| :: Contains(versions[i], on) && Contains(versions[j], on)
  {
    if versions != [] {
      var init, last := versions[..|versions| - 1], versions[|versions| - 1];
      ApplicableMembers(init, on);
      assert forall v :: v in versions <==> v in init || v == last;
      if |Applicable(versions, on)| >= 2 {
        if Contains(last, on) {
          var v := Applicable(init, on)[0];
          assert v in Applicable(init, on);
          var i :| 0 <= i < |init| && init[i] == v;
          assert Contains(versions[i], on) && Contains(versions[|versions| - 1], on);
        } else {
          var i, j :| 0 <= i < j < |init| && Contains(init[i], on) && Contains(init[j], on);
          assert Contains(versions[i], on) && Contains(versions[j], on);
        }
      }
    }
  }

  /** Without a defect at most one published version applies, so the resolver returns it exactly when there is one. */
  lemma ResolvedExactlyIfInForce(versions: seq<Version>, known: bool, on: Date)
    requires !ResolveAmong(versions, known, on, None).Defect?
    ensures ResolveAmong(versions, known, on, None).Resolved?
            <==> exists v :: v in versions && v.state == Published && Contains(v, on)
    ensures forall v :: v in versions && v.state == Published && Contains(v, on) ==>
                          ResolveAmong(versions, known, on, None).Resolved?
                          && ResolveAmong(versions, known, on, None).version == v
  {
    var published := PublishedOf(versions);
    PublishedMembers(versions);
    ApplicableMembers(published, on);
    if versions != [] {
      AtMostOneApplies(published, on);
      var applicable := Applicable(published, on);
      if |applicable| == 1 {
        assert applicable[0] in applicable;
      }
    }
  }

  lemma ClashIsReported(published: seq<Version>, i: nat, j: nat)
    requires i < |published| && j < |published| && i != j && Overlap(published[i], published[j])
    ensures published[i].id in ConflictingIds(published)
  {
    assert Clash(published, i, j);
  }

  lemma AtMostOneApplies(published: seq<Version>, on: Date)
    requires ConflictingIds(published) == {}
    ensures |Applicable(published, on)| <= 1
    ensures forall v | v in published && Contains(v, on) :: Applicable(published, on) == [v]
  {
    var applicable := Applicable(published, on);
    ApplicableMembers(published, on);
    if |applicable| >= 2 {
      var i, j :| 0 <= i < j < |published| && Contains(published[i], on) && Contains(published[j], on);
      ClashIsReported(published, i, j);
      assert false;
    }
    forall v | v in published && Contains(v, on) ensures applicable == [v] {
      assert v in applicable;
    }
  }
}
