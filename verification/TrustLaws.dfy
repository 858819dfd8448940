/**
  What trust and evidence mean (planning/trust.py, planning/provenance.py): every disposition and freshness by its
  exact condition, what counts as evidence, and which sources a claim cites.
 */
module TrustLaws {
  import opened Wrappers
  import opened Ordering
  import opened Calendar
  import opened Catalog
  import opened Trust

  // ----- dispositions

  /** Everything known about the material was known by the day. */
  predicate KnownBy(verifiedOn: Option<Date>, retrievedOn: Option<Date>, on: Date) {
    && (verifiedOn.Some? ==> NotAfter(verifiedOn.value, on))
    && (retrievedOn.Some? ==> NotAfter(retrievedOn.value, on))
  }

  /** The material began by the day. */
  predicate Begun(effectiveFrom: Option<Date>, on: Date) {
    effectiveFrom.Some? ==> NotAfter(effectiveFrom.value, on)
  }

  /** It ended before the day. */
  predicate Ended(effectiveTo: Option<Date>, on: Date) {
    effectiveTo.Some? && Before(effectiveTo.value, on)
  }

  predicate Overdue(reverifyOn: Option<Date>, on: Date) {
    reverifyOn.Some? && Before(reverifyOn.value, on)
  }

  /** It was verified, and known, while it was in force. */
  predicate VerifiedInTime(verifiedOn: Option<Date>, retrievedOn: Option<Date>, effectiveTo: Option<Date>) {
    verifiedOn.Some? && (effectiveTo.Some? ==> KnownBy(verifiedOn, retrievedOn, effectiveTo.value))
  }

  lemma AssessedAs(state: TrustState, on: Date, verifiedOn: Option<Date>, reverifyOn: Option<Date>,
                   effectiveFrom: Option<Date>, effectiveTo: Option<Date>, retrievedOn: Option<Date>)
    ensures var r := Assess(state, on, verifiedOn, reverifyOn, effectiveFrom, effectiveTo, retrievedOn);
            var known := KnownBy(verifiedOn, retrievedOn, on);
            && (r.disposition == AssertCurrent
                <==> known && state == Current && Begun(effectiveFrom, on) && !Ended(effectiveTo, on)
                     && !Overdue(reverifyOn, on))
            && (r.disposition == ContextOnly
                <==> known && Begun(effectiveFrom, on) && VerifiedInTime(verifiedOn, retrievedOn, effectiveTo)
                     && (state == Stale || (state == Current && Ended(effectiveTo, on))))
            && r.freshness.verifiedOn == verifiedOn && r.freshness.reverifyOn == reverifyOn
            && r.freshness.state == if !known then Unverified
                                    else if state == Current && r.disposition == Inconclusive then NeedsReverification
                                    else state
  {}

  // ----- evidence

  predicate UsableSource(s: Source, on: Date) {
    && NotAfter(s.retrievedOn, on) && Begun(s.effectiveFrom, on) && !Ended(s.effectiveTo, on)
       && !Overdue(s.reverifyOn, on)
  }

  /** The link is current, known and in force, and rests on usable sources. */
  predicate LinkCounts(link: EvidenceLink, on: Date) {
    && link.state == Current && KnownBy(link.verifiedOn, link.retrievedOn, on)
    && Begun(link.effectiveFrom, on) && !Ended(link.effectiveTo, on) && !Overdue(link.reverifyOn, on)
    && link.sources != [] && forall s | s in link.sources :: UsableSource(s, on)
  }

  predicate LinkSustains(link: EvidenceLink, on: Date, officialOnly: bool) {
    && LinkCounts(link, on) && link.support == Supports
    && (officialOnly ==> forall s | s in link.sources :: s.classification == "official")
  }

  lemma CountsExactlyIf(link: EvidenceLink, on: Date)
    ensures Counts(link, on) <==> LinkCounts(link, on)
  {
    AssessedAs(link.state, on, link.verifiedOn, link.reverifyOn, link.effectiveFrom, link.effectiveTo,
               link.retrievedOn);
    forall s | s in link.sources ensures SourceIsCurrent(s, on) <==> UsableSource(s, on) {
      AssessedAs(Current, on, None, s.reverifyOn, s.effectiveFrom, s.effectiveTo, Some(s.retrievedOn));
    }
  }

  lemma SustainsExactlyIf(link: EvidenceLink, on: Date, officialOnly: bool)
    ensures Sustains(link, on, officialOnly) <==> LinkSustains(link, on, officialOnly)
  {
    CountsExactlyIf(link, on);
    forall s | s in link.sources ensures IsOfficial(s) <==> s.classification == "official" {}
  }

  /** Some link sustains the claim and no counted one contradicts it: the evidence may be cited. */
  lemma CitableExactlyIf(links: seq<EvidenceLink>, on: Date, officialOnly: bool)
    ensures SupportingSources(links, on, officialOnly).Some?
            <==> && (exists link | link in links :: LinkSustains(link, on, officialOnly))
                 && forall link | link in links && LinkCounts(link, on) :: link.support != Contradicts
  {
    SupportedExactlyIf(links, on, officialOnly);
    forall link | link in links
      ensures Sustains(link, on, officialOnly) <==> LinkSustains(link, on, officialOnly)
      ensures Counts(link, on) <==> LinkCounts(link, on)
    {
      SustainsExactlyIf(link, on, officialOnly);
      CountsExactlyIf(link, on);
    }
  }

  // ----- which sources are cited

  /** The j-th source of the i-th link, which is one of those chosen. */
  predicate Cites(links: seq<EvidenceLink>, chosen: EvidenceLink -> bool, i: int, j: int) {
    0 <= i < |links| && chosen(links[i]) && 0 <= j < |links[i].sources|
  }

  /** No later one has the same id. */
  ghost predicate CitesLast(links: seq<EvidenceLink>, chosen: EvidenceLink -> bool, i: int, j: int) {
    && Cites(links, chosen, i, j)
    && forall k, l | Cites(links, chosen, k, l) && (i < k || (i == k && j < l)) ::
         links[k].sources[l].id != links[i].sources[j].id
  }

  predicate Tells(p: PublicSource, s: Source) {
    && p.id == s.id && p.authority == s.authority && p.title == s.title && p.locator == s.locator
    && p.classification == s.classification && p.retrievedOn == s.retrievedOn
  }

  /** In the order of their ids, one source for each id the chosen links cite: the last one cited. */
  ghost predicate ListsCited(r: seq<PublicSource>, links: seq<EvidenceLink>, chosen: EvidenceLink -> bool) {
    && (forall i, j | 0 <= i < j < |r| :: r[i].id != r[j].id && TextLe(r[i].id, r[j].id))
    && forall p :: p in r <==> exists i, j :: CitesLast(links, chosen, i, j) && Tells(p, links[i].sources[j])
  }

  /** The sources of the sustaining links. */
  ghost predicate CitesSustaining(r: seq<PublicSource>, links: seq<EvidenceLink>, on: Date, officialOnly: bool) {
    ListsCited(r, links, (link: EvidenceLink) => LinkSustains(link, on, officialOnly))
  }

  /** The sources of all supporting links, whatever their trust. */
  ghost predicate CitesClaimed(r: seq<PublicSource>, links: seq<EvidenceLink>) {
    ListsCited(r, links, (link: EvidenceLink) => link.support == Supports)
  }

  function Put(links: seq<EvidenceLink>, chosen: EvidenceLink -> bool): map<string, PublicSource> {
    if links == [] then map[]
    else
      var before, last := Put(links[..|links| - 1], chosen), links[|links| - 1];
      if chosen(last) then AddSources(before, last.sources) else before
  }

  lemma {:induction false} AddSourcesPuts(m: map<string, PublicSource>, sources: seq<Source>, j: nat)
    requires j < |sources| && forall l | j < l < |sources| :: sources[l].id != sources[j].id
    ensures sources[j].id in AddSources(m, sources) && AddSources(m, sources)[sources[j].id] == PublicOf(sources[j])
  {
    if j < |sources| - 1 {
      var init := sources[..|sources| - 1];
      assert init[j] == sources[j] && forall l | 0 <= l < |init| :: init[l] == sources[l];
      AddSourcesPuts(m, init, j);
    }
  }

  lemma {:induction false} AddSourcesLeaves(m: map<string, PublicSource>, sources: seq<Source>, id: string)
    requires forall l | 0 <= l < |sources| :: sources[l].id != id
    ensures id in AddSources(m, sources) <==> id in m
    ensures id in m ==> AddSources(m, sources)[id] == m[id]
  {
    if sources != [] {
      var init := sources[..|sources| - 1];
      assert forall l | 0 <= l < |init| :: init[l] == sources[l];
      AddSourcesLeaves(m, init, id);
    }
  }

  lemma CitesOfInit(links: seq<EvidenceLink>, chosen: EvidenceLink -> bool, i: int, j: int)
    requires links != []
    ensures Cites(links[..|links| - 1], chosen, i, j) <==> Cites(links, chosen, i, j) && i < |links| - 1
  {}

  lemma {:induction false} LastIsPut(links: seq<EvidenceLink>, chosen: EvidenceLink -> bool, i: int, j: int)
    requires CitesLast(links, chosen, i, j)
    ensures var id := links[i].sources[j].id;
            id in Put(links, chosen) && Put(links, chosen)[id] == PublicOf(links[i].sources[j])
  {
    var init, n := links[..|links| - 1], |links| - 1;
    if i == n {
      forall l | j < l < |links[n].sources| ensures links[n].sources[l].id != links[n].sources[j].id {
        assert Cites(links, chosen, n, l);
      }
      AddSourcesPuts(Put(init, chosen), links[n].sources, j);
    } else {
      forall k, l { CitesOfInit(links, chosen, k, l); }
      assert init[i] == links[i];
      forall k, l | Cites(init, chosen, k, l) && (i < k || (i == k && j < l))
        ensures init[k].sources[l].id != init[i].sources[j].id
      {
        assert Cites(links, chosen, k, l);
      }
      LastIsPut(init, chosen, i, j);
      if chosen(links[n]) {
        forall l | 0 <= l < |links[n].sources| ensures links[n].sources[l].id != links[i].sources[j].id {
          assert Cites(links, chosen, n, l);
        }
        AddSourcesLeaves(Put(init, chosen), links[n].sources, links[i].sources[j].id);
      }
    }
  }

  lemma {:induction false} LastWithId(sources: seq<Source>, id: string) returns (j: nat)
    requires exists s | s in sources :: s.id == id
    ensures j < |sources| && sources[j].id == id && forall l | j < l < |sources| :: sources[l].id != id
  {
    j := |sources| - 1;
    if sources[j].id != id {
      var s :| s in sources && s.id == id;
      assert s in sources[..j];
      j := LastWithId(sources[..j], id);
    }
  }

  /** Whatever is put was cited last. */
  lemma {:induction false} PutIsLast(links: seq<EvidenceLink>, chosen: EvidenceLink -> bool, id: string)
    returns (i: int, j: int)
    requires id in Put(links, chosen)
    ensures CitesLast(links, chosen, i, j) && links[i].sources[j].id == id
  {
    var init, n := links[..|links| - 1], |links| - 1;
    if chosen(links[n]) && exists s | s in links[n].sources :: s.id == id {
      j := LastWithId(links[n].sources, id);
      i := n;
    } else {
      if chosen(links[n]) {
        forall l | 0 <= l < |links[n].sources| ensures links[n].sources[l].id != id {
          assert links[n].sources[l] in links[n].sources;
        }
        AddSourcesLeaves(Put(init, chosen), links[n].sources, id);
      }
      i, j := PutIsLast(init, chosen, id);
      forall k, l { CitesOfInit(links, chosen, k, l); }
      assert init[i] == links[i];
      forall k, l | Cites(links, chosen, k, l) && (i < k || (i == k && j < l)) ensures links[k].sources[l].id != id {
        if k < n {
          assert Cites(init, chosen, k, l) && init[k] == links[k];
        } else {
          assert links[n].sources[l] in links[n].sources;
        }
      }
    }
  }

  lemma PutTells(links: seq<EvidenceLink>, chosen: EvidenceLink -> bool, id: string) returns (i: int, j: int)
    requires id in Put(links, chosen)
    ensures CitesLast(links, chosen, i, j)
    ensures Put(links, chosen)[id].id == id && Tells(Put(links, chosen)[id], links[i].sources[j])
  {
    i, j := PutIsLast(links, chosen, id);
    LastIsPut(links, chosen, i, j);
  }

  lemma ToldIsPut(links: seq<EvidenceLink>, chosen: EvidenceLink -> bool, i: int, j: int, p: PublicSource)
    requires CitesLast(links, chosen, i, j) && Tells(p, links[i].sources[j])
    ensures p.id in Put(links, chosen) && Put(links, chosen)[p.id] == p
  {
    LastIsPut(links, chosen, i, j);
  }

  /** Each value of a map once, in the order of its keys. */
  lemma InIdOrderMeans(m: map<string, PublicSource>)
    requires forall id | id in m :: m[id].id == id
    ensures forall p: PublicSource :: p in InIdOrder(m) <==> p.id in m && m[p.id] == p
    ensures forall i, j | 0 <= i < j < |InIdOrder(m)| ::
              InIdOrder(m)[i].id != InIdOrder(m)[j].id && TextLe(InIdOrder(m)[i].id, InIdOrder(m)[j].id)
  {
    var ids, r := SortedTexts(m.Keys), InIdOrder(m);
    assert forall n | 0 <= n < |r| :: ids[n] in m.Keys && r[n] == m[ids[n]] && r[n].id == ids[n];
    forall p: PublicSource | p.id in m && m[p.id] == p ensures p in r {
      var n :| 0 <= n < |ids| && ids[n] == p.id;
      assert r[n] == p;
    }
  }

  lemma PutIsListed(links: seq<EvidenceLink>, chosen: EvidenceLink -> bool)
    ensures ListsCited(InIdOrder(Put(links, chosen)), links, chosen)
  {
    var m := Put(links, chosen);
    forall id | id in m ensures m[id].id == id {
      var i, j := PutTells(links, chosen, id);
    }
    InIdOrderMeans(m);
    forall p: PublicSource ensures p.id in m && m[p.id] == p
                     <==> exists i, j :: CitesLast(links, chosen, i, j) && Tells(p, links[i].sources[j])
    {
      if p.id in m && m[p.id] == p { var i, j := PutTells(links, chosen, p.id); }
      if i, j :| CitesLast(links, chosen, i, j) && Tells(p, links[i].sources[j]) {
        ToldIsPut(links, chosen, i, j, p);
      }
    }
  }

  lemma {:induction false} SustainingIsPut(links: seq<EvidenceLink>, on: Date, officialOnly: bool)
    ensures Sustaining(links, on, officialOnly)
            == Put(links, (link: EvidenceLink) => LinkSustains(link, on, officialOnly))
  {
    if links != [] {
      SustainingIsPut(links[..|links| - 1], on, officialOnly);
      SustainsExactlyIf(links[|links| - 1], on, officialOnly);
    }
  }

  lemma {:induction false} ClaimedIsPut(links: seq<EvidenceLink>)
    ensures Claimed(links) == Put(links, (link: EvidenceLink) => link.support == Supports)
  {
    if links != [] { ClaimedIsPut(links[..|links| - 1]); }
  }

  /** What may be cited lists exactly the sources of the sustaining links. */
  lemma SupportingSourcesMean(links: seq<EvidenceLink>, on: Date, officialOnly: bool)
    ensures SupportingSources(links, on, officialOnly).Some? ==>
              CitesSustaining(SupportingSources(links, on, officialOnly).value, links, on, officialOnly)
  {
    SustainingIsPut(links, on, officialOnly);
    PutIsListed(links, (link: EvidenceLink) => LinkSustains(link, on, officialOnly));
  }

  /** What is cited for a claim that cannot be asserted. */
  lemma ClaimSourcesMean(links: seq<EvidenceLink>)
    ensures CitesClaimed(ClaimSources(links), links)
  {
    ClaimedIsPut(links);
    PutIsListed(links, (link: EvidenceLink) => link.support == Supports);
  }
}
