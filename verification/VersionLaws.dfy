/** Every way version resolution can end, in terms of the stored versions (planning/versions.py). */
module VersionLaws {
  import opened Wrappers
  import opened Ordering
  import opened Calendar
  import opened Catalog
  import opened Versions

  // ----- the stored versions of a Procedure, and days

  predicate StartsAfter(v: Version, on: Date) {
    v.effectiveFrom.Some? && Before(on, v.effectiveFrom.value)
  }

  predicate EndedBefore(v: Version, on: Date) {
    v.effectiveTo.Some? && Before(v.effectiveTo.value, on)
  }

  predicate EndsBeforeItStarts(v: Version) {
    v.effectiveFrom.Some? && v.effectiveTo.Some? && Before(v.effectiveTo.value, v.effectiveFrom.value)
  }

  /** Stored for the Procedure and published. */
  predicate IsPublished(s: Snapshot, procedure: string, v: Version) {
    v in s.versions && v.procedure == procedure && v.state == Published
  }

  predicate HasDefect(v: Version, code: VersionDefect) {
    match code
    case InvalidLifecycleState => v.state != Draft && v.state != Published && v.state != Withdrawn
    case UnsupportedRulesContract => !v.contractV1
    case InvalidEffectiveInterval => EndsBeforeItStarts(v)
    case OverlappingPublishedIntervals => false
  }

  /** A stored version of the Procedure has the defect by itself. */
  ghost predicate Malformed(s: Snapshot, procedure: string, code: VersionDefect) {
    exists v | v in s.versions && v.procedure == procedure :: HasDefect(v, code)
  }

  ghost predicate SomeMalformed(s: Snapshot, procedure: string) {
    exists code :: Malformed(s, procedure, code)
  }

  /** The day is within both versions, and both are published. */
  predicate ShareDay(s: Snapshot, procedure: string, a: Version, b: Version, d: Date) {
    && IsPublished(s, procedure, a) && IsPublished(s, procedure, b)
    && !StartsAfter(a, d) && !EndedBefore(a, d) && !StartsAfter(b, d) && !EndedBefore(b, d)
  }

  /** Two published versions of the Procedure, stored at different places, share a day. */
  ghost predicate SomeShareADay(s: Snapshot, procedure: string) {
    exists i, j, d: Date | 0 <= i < j < |s.versions| ::
      ShareDay(s, procedure, s.versions[i], s.versions[j], d)
  }

  ghost predicate Flawed(s: Snapshot, procedure: string) {
    SomeMalformed(s, procedure) || SomeShareADay(s, procedure)
  }

  predicate Offers(s: Snapshot, procedure: string) {
    exists x | x in s.services :: exists c | c in x.candidates :: c.procedure == procedure
  }

  // ----- lists of versions

  lemma ContainsMeans(v: Version, d: Date)
    ensures Contains(v, d) <==> !StartsAfter(v, d) && !EndedBefore(v, d)
  {}

  lemma {:induction false} VersionsOfCounts(versions: seq<Version>, procedure: string, v: Version)
    ensures multiset(VersionsOf(versions, procedure))[v]
            == if v.procedure == procedure then multiset(versions)[v] else 0
  {
    if versions != [] {
      VersionsOfCounts(versions[..|versions| - 1], procedure, v);
      assert versions == versions[..|versions| - 1] + [versions[|versions| - 1]];
    }
  }

  lemma {:induction false} PublishedOfCounts(versions: seq<Version>, v: Version)
    ensures multiset(PublishedOf(versions))[v] == if v.state == Published then multiset(versions)[v] else 0
  {
    if versions != [] {
      PublishedOfCounts(versions[..|versions| - 1], v);
      assert versions == versions[..|versions| - 1] + [versions[|versions| - 1]];
    }
  }

  lemma {:induction false} TwoPlaces<T>(rows: seq<T>, x: T)
    ensures multiset(rows)[x] >= 2 <==> exists i, j | 0 <= i < j < |rows| :: rows[i] == x && rows[j] == x
  {
    if rows != [] {
      var init, last := rows[..|rows| - 1], rows[|rows| - 1];
      assert rows == init + [last];
      TwoPlaces(init, x);
      if last == x && multiset(rows)[x] >= 2 {
        assert x in init;
        var i :| 0 <= i < |init| && init[i] == x;
        assert rows[i] == x && rows[|init|] == x;
      }
      if multiset(init)[x] >= 2 {
        var i, j :| 0 <= i < j < |init| && init[i] == x && init[j] == x;
        assert rows[i] == x && rows[j] == x;
      }
      if i, j :| 0 <= i < j < |rows| && rows[i] == x && rows[j] == x {
        assert x in init;
      }
    }
  }

  /** Two related rows at different places: different rows, or one stored twice. */
  lemma TwoRows<T>(rows: seq<T>, x: T, y: T)
    ensures (exists i, j | 0 <= i < |rows| && 0 <= j < |rows| && i != j :: rows[i] == x && rows[j] == y)
            <==> x in rows && y in rows && (x == y ==> multiset(rows)[x] >= 2)
  {
    TwoPlaces(rows, x);
    if x in rows && y in rows && x != y {
      var i :| 0 <= i < |rows| && rows[i] == x;
      var j :| 0 <= j < |rows| && rows[j] == y;
      assert i != j;
    }
  }

  /** The versions the resolver looks at, and the published ones among them, are those stored. */
  lemma LookedAt(s: Snapshot, procedure: string)
    ensures var versions := SortBy(VersionsOf(s.versions, procedure), IdLe);
            && (forall v :: v in versions <==> v in s.versions && v.procedure == procedure)
            && (forall v :: v in PublishedOf(versions) <==> IsPublished(s, procedure, v))
            && (forall v :: multiset(PublishedOf(versions))[v]
                            == if v.procedure == procedure && v.state == Published then multiset(s.versions)[v] else 0)
  {
    var own := VersionsOf(s.versions, procedure);
    SortKeeps(own, IdLe);
    VersionsOfMembers(s.versions, procedure);
    PublishedMembers(SortBy(own, IdLe));
    forall v
      ensures multiset(PublishedOf(SortBy(own, IdLe)))[v]
              == if v.procedure == procedure && v.state == Published then multiset(s.versions)[v] else 0
    {
      VersionsOfCounts(s.versions, procedure, v);
      PublishedOfCounts(SortBy(own, IdLe), v);
    }
  }

  // ----- defects

  lemma {:induction false} AllCodesMean(versions: seq<Version>, code: VersionDefect)
    ensures code in AllCodes(versions) <==> exists v | v in versions :: code in VersionCodes(v)
  {
    if versions != [] {
      AllCodesMean(versions[..|versions| - 1], code);
      assert forall v :: v in versions <==> v in versions[..|versions| - 1] || v == versions[|versions| - 1];
    }
  }

  lemma VersionCodesMean(v: Version, code: VersionDefect)
    ensures code in VersionCodes(v) <==> HasDefect(v, code)
  {}

  // ----- which versions a defect names

  /** The version shares a day with one stored at another place. */
  ghost predicate Shares(s: Snapshot, procedure: string, v: Version) {
    exists i, j, d: Date | 0 <= i < |s.versions| && 0 <= j < |s.versions| && i != j ::
      s.versions[i] == v && ShareDay(s, procedure, v, s.versions[j], d)
  }

  lemma ClashingRow(published: seq<Version>, id: string)
    ensures id in ConflictingIds(published) <==> exists a, b :: Pair(published, multiset(published), a, b) && a.id == id
  {
    if id in ConflictingIds(published) {
      var i :| 0 <= i < |published| && Conflicts(published, i) && published[i].id == id;
      var j :| 0 <= j < |published| && Clash(published, i, j);
      TwoRows(published, published[i], published[j]);
      assert Pair(published, multiset(published), published[i], published[j]);
    }
    if a, b :| Pair(published, multiset(published), a, b) && a.id == id {
      TwoRows(published, a, b);
      var i, j :| 0 <= i < |published| && 0 <= j < |published| && i != j && published[i] == a && published[j] == b;
      assert Clash(published, i, j) && Conflicts(published, i);
    }
  }

  lemma SharingRow(s: Snapshot, procedure: string, published: seq<Version>, a: Version)
    requires forall v :: v in published <==> IsPublished(s, procedure, v)
    requires forall v | v in published :: OrderedInterval(v)
    ensures Shares(s, procedure, a) <==> exists b :: Pair(published, multiset(s.versions), a, b)
  {
    if Shares(s, procedure, a) {
      var i, j, d: Date :| 0 <= i < |s.versions| && 0 <= j < |s.versions| && i != j
                           && s.versions[i] == a && ShareDay(s, procedure, a, s.versions[j], d);
      TwoRows(s.versions, a, s.versions[j]);
      assert Contains(a, d) && Contains(s.versions[j], d);
      OverlapExactlyIfSharedDay(a, s.versions[j]);
      assert Pair(published, multiset(s.versions), a, s.versions[j]);
    }
    if b :| Pair(published, multiset(s.versions), a, b) {
      TwoRows(s.versions, a, b);
      OverlapExactlyIfSharedDay(a, b);
      var d: Date :| Contains(a, d) && Contains(b, d);
      var i, j :| 0 <= i < |s.versions| && 0 <= j < |s.versions| && i != j && s.versions[i] == a && s.versions[j] == b;
      assert ShareDay(s, procedure, a, s.versions[j], d);
    }
  }

  lemma SharingIsNamed(s: Snapshot, procedure: string, id: string)
    requires !SomeMalformed(s, procedure)
    ensures id in ConflictingIds(PublishedOf(SortBy(VersionsOf(s.versions, procedure), IdLe)))
            <==> exists v :: Shares(s, procedure, v) && v.id == id
  {
    var published := PublishedOf(SortBy(VersionsOf(s.versions, procedure), IdLe));
    LookedAt(s, procedure);
    forall v | v in published ensures OrderedInterval(v) { assert !Malformed(s, procedure, InvalidEffectiveInterval); }
    ClashingRow(published, id);
    forall v { SharingRow(s, procedure, published, v); }
    forall a, b ensures Pair(published, multiset(published), a, b) <==> Pair(published, multiset(s.versions), a, b) {}
  }

  lemma DefectiveIsNamed(s: Snapshot, procedure: string, id: string)
    ensures id in MalformedIds(SortBy(VersionsOf(s.versions, procedure), IdLe))
            <==> exists v, code :: v in s.versions && v.procedure == procedure && HasDefect(v, code) && v.id == id
  {
    var versions := SortBy(VersionsOf(s.versions, procedure), IdLe);
    LookedAt(s, procedure);
    forall v, code { VersionCodesMean(v, code); }
    if v, code :| v in s.versions && v.procedure == procedure && HasDefect(v, code) && v.id == id {
      var i :| 0 <= i < |versions| && versions[i] == v;
      assert code in VersionCodes(versions[i]);
    }
    if id in MalformedIds(versions) {
      var i :| 0 <= i < |versions| && VersionCodes(versions[i]) != {} && versions[i].id == id;
      var code :| code in VersionCodes(versions[i]);
      assert versions[i] in versions && HasDefect(versions[i], code);
    }
  }

  /** A defect names the versions that have one, or else those that share a day with another. */
  lemma NamedExactlyIf(s: Snapshot, procedure: string, on: Date, id: string)
    requires Resolve(s, procedure, on, None).Defect?
    ensures id in Resolve(s, procedure, on, None).conflicting
            <==> if SomeMalformed(s, procedure)
                 then exists v, code :: v in s.versions && v.procedure == procedure && HasDefect(v, code) && v.id == id
                 else exists v :: Shares(s, procedure, v) && v.id == id
  {
    var versions := SortBy(VersionsOf(s.versions, procedure), IdLe);
    DefectAmong(versions, IsCandidate(s.services, procedure), on);
    forall code ensures code in AllCodes(versions) <==> Malformed(s, procedure, code) { CodesMean(s, procedure, code); }
    DefectiveIsNamed(s, procedure, id);
    if !SomeMalformed(s, procedure) { SharingIsNamed(s, procedure, id); }
  }

  lemma CodesMean(s: Snapshot, procedure: string, code: VersionDefect)
    ensures code in AllCodes(SortBy(VersionsOf(s.versions, procedure), IdLe)) <==> Malformed(s, procedure, code)
  {
    LookedAt(s, procedure);
    AllCodesMean(SortBy(VersionsOf(s.versions, procedure), IdLe), code);
    forall v { VersionCodesMean(v, code); }
  }

  /** Two overlapping rows of a list that are different, or one listed twice. */
  ghost predicate Pair(rows: seq<Version>, among: multiset<Version>, a: Version, b: Version) {
    a in rows && b in rows && Overlap(a, b) && (a == b ==> among[a] >= 2)
  }

  lemma ClashingPair(published: seq<Version>)
    ensures ConflictingIds(published) != {} <==> exists a, b :: Pair(published, multiset(published), a, b)
  {
    if ConflictingIds(published) != {} {
      var i :| 0 <= i < |published| && Conflicts(published, i);
      var j :| 0 <= j < |published| && Clash(published, i, j);
      var a, b := published[i], published[j];
      TwoRows(published, a, b);
      assert Pair(published, multiset(published), a, b);
    }
    if a, b :| Pair(published, multiset(published), a, b) {
      TwoRows(published, a, b);
      var i, j :| 0 <= i < |published| && 0 <= j < |published| && i != j && published[i] == a && published[j] == b;
      ClashIsReported(published, i, j);
    }
  }

  lemma SharingPair(s: Snapshot, procedure: string, published: seq<Version>)
    requires forall v :: v in published <==> IsPublished(s, procedure, v)
    requires forall v | v in published :: OrderedInterval(v)
    ensures SomeShareADay(s, procedure) <==> exists a, b :: Pair(published, multiset(s.versions), a, b)
  {
    if i, j, d: Date :| 0 <= i < j < |s.versions| && ShareDay(s, procedure, s.versions[i], s.versions[j], d) {
      var a, b := s.versions[i], s.versions[j];
      TwoRows(s.versions, a, b);
      assert Contains(a, d) && Contains(b, d);
      OverlapExactlyIfSharedDay(a, b);
      assert Pair(published, multiset(s.versions), a, b);
    }
    if a, b :| Pair(published, multiset(s.versions), a, b) {
      TwoRows(s.versions, a, b);
      OverlapExactlyIfSharedDay(a, b);
      var d: Date :| Contains(a, d) && Contains(b, d);
      var i, j :| 0 <= i < |s.versions| && 0 <= j < |s.versions| && i != j && s.versions[i] == a && s.versions[j] == b;
      assert ShareDay(s, procedure, a, b, d) && ShareDay(s, procedure, b, a, d);
      assert if i < j then ShareDay(s, procedure, s.versions[i], s.versions[j], d)
             else ShareDay(s, procedure, s.versions[j], s.versions[i], d);
    }
  }

  /** With ordered intervals, the published versions conflict exactly when two of them share a day. */
  lemma ConflictsMean(s: Snapshot, procedure: string)
    requires !SomeMalformed(s, procedure)
    ensures ConflictingIds(PublishedOf(SortBy(VersionsOf(s.versions, procedure), IdLe))) != {}
            <==> SomeShareADay(s, procedure)
  {
    var published := PublishedOf(SortBy(VersionsOf(s.versions, procedure), IdLe));
    LookedAt(s, procedure);
    forall v | v in published ensures OrderedInterval(v) { assert !Malformed(s, procedure, InvalidEffectiveInterval); }
    ClashingPair(published);
    SharingPair(s, procedure, published);
    forall a, b ensures Pair(published, multiset(published), a, b) <==> Pair(published, multiset(s.versions), a, b) {}
  }

  // ----- the outcomes

  /** The one published version in force, in an unflawed store. */
  ghost predicate InForceOn(s: Snapshot, procedure: string, on: Date, v: Version) {
    !Flawed(s, procedure) && IsPublished(s, procedure, v) && !StartsAfter(v, on) && !EndedBefore(v, on)
  }

  lemma CurrentIsNoDefect(published: seq<Version>, on: Date, upcoming: seq<Version>)
    ensures !CurrentVersion(published, on, upcoming).Defect?
  {}

  lemma DefectAmong(versions: seq<Version>, known: bool, on: Date)
    ensures var r, published := ResolveAmong(versions, known, on, None), PublishedOf(versions);
            && (r.Defect? <==> AllCodes(versions) != {} || ConflictingIds(published) != {})
            && (r.Defect? ==> r.codes == if AllCodes(versions) != {} then AllCodes(versions)
                                         else {OverlappingPublishedIntervals})
  {
    if versions == [] { assert ConflictingIds([]) == {}; }
    CurrentIsNoDefect(PublishedOf(versions), on, SortBy(UpcomingOf(versions, on), UpcomingLe));
  }

  /** Resolution fails exactly on a flawed store, and names the flaws of the versions before any overlap. */
  lemma DefectExactlyIf(s: Snapshot, procedure: string, on: Date)
    ensures Resolve(s, procedure, on, None).Defect? <==> Flawed(s, procedure)
    ensures var r := Resolve(s, procedure, on, None);
            r.Defect? ==>
              if SomeMalformed(s, procedure) then forall code :: code in r.codes <==> Malformed(s, procedure, code)
              else r.codes == {OverlappingPublishedIntervals}
  {
    var versions := SortBy(VersionsOf(s.versions, procedure), IdLe);
    DefectAmong(versions, IsCandidate(s.services, procedure), on);
    forall code ensures code in AllCodes(versions) <==> Malformed(s, procedure, code) { CodesMean(s, procedure, code); }
    if !SomeMalformed(s, procedure) { ConflictsMean(s, procedure); }
  }

  /** A version is resolved exactly when it is the published one in force. */
  lemma ResolvedExactlyIf(s: Snapshot, procedure: string, on: Date, v: Version)
    ensures (Resolve(s, procedure, on, None).Resolved? && Resolve(s, procedure, on, None).version == v)
            <==> InForceOn(s, procedure, on, v)
  {
    var versions := SortBy(VersionsOf(s.versions, procedure), IdLe);
    LookedAt(s, procedure);
    DefectExactlyIf(s, procedure, on);
    ContainsMeans(v, on);
    if !Flawed(s, procedure) {
      ResolvedExactlyIfInForce(versions, IsCandidate(s.services, procedure), on);
      if Resolve(s, procedure, on, None).Resolved? {
        var w := Resolve(s, procedure, on, None).version;
        ResolvedIsApplicable(versions, IsCandidate(s.services, procedure), on);
      }
    }
  }

  lemma ResolvedIsApplicable(versions: seq<Version>, known: bool, on: Date)
    requires ResolveAmong(versions, known, on, None).Resolved?
    ensures var v := ResolveAmong(versions, known, on, None).version;
            v in versions && v.state == Published && Contains(v, on)
  {
    var published := PublishedOf(versions);
    PublishedMembers(versions);
    ApplicableMembers(published, on);
    assert Applicable(published, on)[0] in Applicable(published, on);
  }

  lemma CurrentReason(published: seq<Version>, on: Date, upcoming: seq<Version>)
    requires CurrentVersion(published, on, upcoming).Unavailable?
    ensures CurrentVersion(published, on, upcoming).reason
            == if published == [] then NoPublishedVersion
               else if forall v | v in published :: StartsAfter(v, on) then NotYetEffective
               else NoApplicableVersion
  {
    forall i | 0 <= i < |published| ensures published[i] in published {}
  }

  lemma ReasonAmong(versions: seq<Version>, known: bool, on: Date)
    requires ResolveAmong(versions, known, on, None).Unavailable?
    ensures var published := PublishedOf(versions);
            ResolveAmong(versions, known, on, None).reason ==
            if versions == [] && !known then UnknownProcedure
            else if published == [] then NoPublishedVersion
            else if forall v | v in published :: StartsAfter(v, on) then NotYetEffective
            else NoApplicableVersion
  {
    if versions != [] || known {
      CurrentReason(PublishedOf(versions), on, SortBy(UpcomingOf(versions, on), UpcomingLe));
    }
  }

  /** Why no version is resolved in an unflawed store. */
  lemma UnavailableExactlyIf(s: Snapshot, procedure: string, on: Date)
    requires !Flawed(s, procedure)
    ensures var r := Resolve(s, procedure, on, None);
            r.Unavailable? ==>
              r.reason ==
              if (forall v | v in s.versions :: v.procedure != procedure) && !Offers(s, procedure) then UnknownProcedure
              else if forall v :: !IsPublished(s, procedure, v) then NoPublishedVersion
              else if forall v | IsPublished(s, procedure, v) :: StartsAfter(v, on) then NotYetEffective
              else NoApplicableVersion
    ensures Resolve(s, procedure, on, None).Unavailable? <==> forall v :: !InForceOn(s, procedure, on, v)
  {
    var versions := SortBy(VersionsOf(s.versions, procedure), IdLe);
    var published := PublishedOf(versions);
    LookedAt(s, procedure);
    DefectExactlyIf(s, procedure, on);
    OffersMeans(s, procedure);
    var r := Resolve(s, procedure, on, None);
    if r.Unavailable? {
      ReasonAmong(versions, IsCandidate(s.services, procedure), on);
      if versions != [] { assert versions[0] in versions; }
      if published != [] { assert published[0] in published; }
      forall v ensures !InForceOn(s, procedure, on, v) { ResolvedExactlyIf(s, procedure, on, v); }
    } else {
      ResolvedExactlyIf(s, procedure, on, r.version);
    }
  }

  lemma OffersMeans(s: Snapshot, procedure: string)
    ensures IsCandidate(s.services, procedure) <==> Offers(s, procedure)
  {
    if x, c :| x in s.services && c in x.candidates && c.procedure == procedure {
      var i :| 0 <= i < |s.services| && s.services[i] == x;
      var j :| 0 <= j < |x.candidates| && x.candidates[j] == c;
      assert s.services[i].candidates[j].procedure == procedure;
    }
    if IsCandidate(s.services, procedure) {
      var i, j :| 0 <= i < |s.services| && 0 <= j < |s.services[i].candidates|
                  && s.services[i].candidates[j].procedure == procedure;
      assert s.services[i] in s.services && s.services[i].candidates[j] in s.services[i].candidates;
    }
  }

  // ----- a version asked for by its id

  lemma {:induction false} FoundHasId(versions: seq<Version>, id: string)
    ensures FindVersion(versions, id).None? <==> forall v | v in versions :: v.id != id
    ensures FindVersion(versions, id).Some? ==>
              FindVersion(versions, id).value in versions && FindVersion(versions, id).value.id == id
  {
    if versions != [] && versions[0].id != id {
      FoundHasId(versions[1..], id);
      assert forall v :: v in versions <==> v == versions[0] || v in versions[1..];
    }
  }

  /** In an unflawed store a version asked for is found unless it is a draft or has not begun, past ones included. */
  lemma HistoricalExactlyIf(s: Snapshot, procedure: string, on: Date, id: string)
    requires !Flawed(s, procedure) && exists v :: v in s.versions && v.procedure == procedure
    ensures var r := Resolve(s, procedure, on, Some(id));
            if forall v | v in s.versions && v.procedure == procedure :: v.id != id then
              r.Unavailable? && r.reason == UnknownHistoricalVersion
            else
              exists v | v in s.versions && v.procedure == procedure && v.id == id ::
                if v.state == Draft then r.Unavailable? && r.reason == DraftHistoricalVersion
                else if StartsAfter(v, on) then r.Unavailable? && r.reason == HistoricalVersionNotYetEffective
                else
                  && r.Resolved? && r.version == v
                  && (r.historical <==> v.state == Withdrawn || EndedBefore(v, on))
  {
    var versions := SortBy(VersionsOf(s.versions, procedure), IdLe);
    LookedAt(s, procedure);
    DefectExactlyIf(s, procedure, on);
    DefectAmong(versions, IsCandidate(s.services, procedure), on);
    HistoricalAmong(versions, IsCandidate(s.services, procedure), on, id);
    FoundHasId(versions, id);
  }

  lemma HistoricalAmong(versions: seq<Version>, known: bool, on: Date, id: string)
    requires versions != [] && AllCodes(versions) == {} && ConflictingIds(PublishedOf(versions)) == {}
    ensures var r, found := ResolveAmong(versions, known, on, Some(id)), FindVersion(versions, id);
            if found.None? then r.Unavailable? && r.reason == UnknownHistoricalVersion
            else if found.value.state == Draft then r.Unavailable? && r.reason == DraftHistoricalVersion
            else if StartsAfter(found.value, on) then r.Unavailable? && r.reason == HistoricalVersionNotYetEffective
            else
              && r.Resolved? && r.version == found.value
              && (r.historical <==> found.value.state == Withdrawn || EndedBefore(found.value, on))
  {}

  // ----- what is yet to come

  lemma {:induction false} UpcomingMembers(versions: seq<Version>, on: Date)
    ensures forall v :: v in UpcomingOf(versions, on) <==> v in versions && v.state == Published && StartsAfter(v, on)
  {
    if versions != [] {
      UpcomingMembers(versions[..|versions| - 1], on);
      assert forall v :: v in versions <==> v in versions[..|versions| - 1] || v == versions[|versions| - 1];
    }
  }

  lemma UpcomingLeIsOrder()
    ensures IsOrder(UpcomingLe)
  {
    forall a, b ensures UpcomingLe(a, b) || UpcomingLe(b, a) { TextLeTotal(a.id, b.id); }
    forall a, b, c | UpcomingLe(a, b) && UpcomingLe(b, c) ensures UpcomingLe(a, c) {
      if TextLe(a.id, b.id) && TextLe(b.id, c.id) { TextLeTransitive(a.id, b.id, c.id); }
    }
  }

  /** The published versions that start later are reported with every result, the earliest start first, then by id. */
  lemma UpcomingMeans(s: Snapshot, procedure: string, on: Date, historicalId: Option<string>)
    requires exists v :: v in s.versions && v.procedure == procedure
    ensures var upcoming := Resolve(s, procedure, on, historicalId).upcoming;
            && (forall v :: v in upcoming <==> IsPublished(s, procedure, v) && StartsAfter(v, on))
            && forall i, j | 0 <= i < j < |upcoming| ::
                 && upcoming[i].effectiveFrom.Some? && upcoming[j].effectiveFrom.Some?
                 && (|| Before(upcoming[i].effectiveFrom.value, upcoming[j].effectiveFrom.value)
                     || (upcoming[i].effectiveFrom == upcoming[j].effectiveFrom
                         && TextLe(upcoming[i].id, upcoming[j].id)))
  {
    var versions := SortBy(VersionsOf(s.versions, procedure), IdLe);
    LookedAt(s, procedure);
    UpcomingMembers(versions, on);
    SortKeeps(UpcomingOf(versions, on), UpcomingLe);
    UpcomingLeIsOrder();
    SortSorts(UpcomingOf(versions, on), UpcomingLe);
    var upcoming := Resolve(s, procedure, on, historicalId).upcoming;
    UpcomingIsReported(versions, IsCandidate(s.services, procedure), on, historicalId);
    forall i | 0 <= i < |upcoming| ensures StartsAfter(upcoming[i], on) { assert upcoming[i] in upcoming; }
  }

  lemma HistoricalReports(versions: seq<Version>, id: string, on: Date, upcoming: seq<Version>)
    ensures Historical(versions, id, on, upcoming).upcoming == upcoming
  {}

  lemma CurrentReports(published: seq<Version>, on: Date, upcoming: seq<Version>)
    ensures CurrentVersion(published, on, upcoming).upcoming == upcoming
  {}

  lemma UpcomingIsReported(versions: seq<Version>, known: bool, on: Date, historicalId: Option<string>)
    requires versions != []
    ensures ResolveAmong(versions, known, on, historicalId).upcoming == SortBy(UpcomingOf(versions, on), UpcomingLe)
  {
    var upcoming := SortBy(UpcomingOf(versions, on), UpcomingLe);
    CurrentReports(PublishedOf(versions), on, upcoming);
    if historicalId.Some? { HistoricalReports(versions, historicalId.value, on, upcoming); }
  }
}
