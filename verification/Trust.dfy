/** Trust at an explicit date and the evidence a claim may cite (planning/trust.py, planning/provenance.py). */
module Trust {
  import opened Wrappers
  import opened Ordering
  import opened Calendar
  import opened Catalog

  datatype Disposition = AssertCurrent | ContextOnly | Inconclusive
  datatype Assessment = Assessment(disposition: Disposition, freshness: Freshness)

  predicate AfterDay(d: Option<Date>, on: Date) {
    d.Some? && Before(on, d.value)
  }

  predicate EstablishedBy(verifiedOn: Option<Date>, retrievedOn: Option<Date>, end: Date) {
    && verifiedOn.Some? && NotAfter(verifiedOn.value, end)
    && (retrievedOn.Some? ==> NotAfter(retrievedOn.value, end))
  }

  function Assess(state: TrustState, on: Date, verifiedOn: Option<Date>, reverifyOn: Option<Date>,
                  effectiveFrom: Option<Date>, effectiveTo: Option<Date>, retrievedOn: Option<Date>): Assessment
  {
    var freshness := Freshness(state, verifiedOn, reverifyOn);
    var overdue := Freshness(NeedsReverification, verifiedOn, reverifyOn);
    if AfterDay(verifiedOn, on) || AfterDay(retrievedOn, on) then
      Assessment(Inconclusive, Freshness(Unverified, verifiedOn, reverifyOn))
    else if state == Stale then
      var past := verifiedOn.Some? && !AfterDay(effectiveFrom, on)
                  && (effectiveTo.None? || EstablishedBy(verifiedOn, retrievedOn, effectiveTo.value));
      Assessment(if past then ContextOnly else Inconclusive, freshness)
    else if state != Current then Assessment(Inconclusive, freshness)
    else if AfterDay(effectiveFrom, on) then Assessment(Inconclusive, overdue)
    else if effectiveTo.Some? && Before(effectiveTo.value, on) then
      if EstablishedBy(verifiedOn, retrievedOn, effectiveTo.value) then Assessment(ContextOnly, freshness)
      else Assessment(Inconclusive, overdue)
    else if reverifyOn.Some? && Before(reverifyOn.value, on) then Assessment(Inconclusive, overdue)
    else Assessment(AssertCurrent, freshness)
  }

  /** Material is asserted exactly when it is current, in force, established and not overdue. */
  lemma AssertedExactlyIf(state: TrustState, on: Date, verifiedOn: Option<Date>, reverifyOn: Option<Date>,
                          effectiveFrom: Option<Date>, effectiveTo: Option<Date>, retrievedOn: Option<Date>)
    ensures Assess(state, on, verifiedOn, reverifyOn, effectiveFrom, effectiveTo, retrievedOn).disposition
            == AssertCurrent
            <==> && state == Current
                 && Inside(effectiveFrom, effectiveTo, on)
                 && !AfterDay(verifiedOn, on) && !AfterDay(retrievedOn, on)
                 && (reverifyOn.Some? ==> NotAfter(on, reverifyOn.value))
  {}

  /** Trust of a claim without its effective interval (checklist items and steps test that separately). */
  function AssessClaim(c: Claim, on: Date): Assessment {
    Assess(c.state, on, c.verifiedOn, c.reverifyOn, None, None, None)
  }

  /** Trust of a claim including its effective interval. */
  function AssessDatedClaim(c: Claim, on: Date): Assessment {
    Assess(c.state, on, c.verifiedOn, c.reverifyOn, c.effectiveFrom, c.effectiveTo, None)
  }

  /** Only current claims are asserted, under either reading. */
  lemma OnlyCurrentIsAsserted(c: Claim, on: Date)
    ensures AssessClaim(c, on).disposition == AssertCurrent ==> c.state == Current
    ensures AssessDatedClaim(c, on).disposition == AssertCurrent ==> c.state == Current
  {}

  predicate InForce(c: Claim, on: Date) {
    Inside(c.effectiveFrom, c.effectiveTo, on)
  }

  // ----- provenance

  datatype PublicSource =
    PublicSource(id: string, authority: string, title: string, locator: string, classification: string,
                 retrievedOn: Date)

  function PublicOf(s: Source): PublicSource {
    PublicSource(s.id, s.authority, s.title, s.locator, s.classification, s.retrievedOn)
  }

  predicate IsOfficial(s: Source) {
    s.classification == "official"
  }

  predicate SourceIsCurrent(s: Source, on: Date) {
    Assess(Current, on, None, s.reverifyOn, s.effectiveFrom, s.effectiveTo, Some(s.retrievedOn)).disposition
    == AssertCurrent
  }

  /** The link counts at all: asserted itself, with at least one source, all of them current. */
  predicate Counts(link: EvidenceLink, on: Date) {
    && Assess(link.state, on, link.verifiedOn, link.reverifyOn, link.effectiveFrom, link.effectiveTo, link.retrievedOn)
       .disposition == AssertCurrent
    && link.sources != []
    && forall i | 0 <= i < |link.sources| :: SourceIsCurrent(link.sources[i], on)
  }

  predicate Sustains(link: EvidenceLink, on: Date, officialOnly: bool) {
    && Counts(link, on) && link.support == Supports
    && (officialOnly ==> forall i | 0 <= i < |link.sources| :: IsOfficial(link.sources[i]))
  }

  /** Later sources with the same id replace earlier ones. */
  function AddSources(m: map<string, PublicSource>, sources: seq<Source>): map<string, PublicSource> {
    if sources == [] then m
    else
      var last := sources[|sources| - 1];
      AddSources(m, sources[..|sources| - 1])[last.id := PublicOf(last)]
  }

  function Sustaining(links: seq<EvidenceLink>, on: Date, officialOnly: bool): map<string, PublicSource> {
    if links == [] then map[]
    else
      var before, last := Sustaining(links[..|links| - 1], on, officialOnly), links[|links| - 1];
      if Sustains(last, on, officialOnly) then AddSources(before, last.sources) else before
  }

  predicate Contradicted(links: seq<EvidenceLink>, on: Date) {
    exists i | 0 <= i < |links| :: Counts(links[i], on) && links[i].support == Contradicts
  }

  function InIdOrder(m: map<string, PublicSource>): (r: seq<PublicSource>)
    ensures |r| == |m|
  {
    var ids := SortedTexts(m.Keys);
    seq(|ids|, i requires 0 <= i < |ids| => m[ids[i]])
  }

  function SupportingSources(links: seq<EvidenceLink>, on: Date, officialOnly: bool): Option<seq<PublicSource>> {
    var sources := Sustaining(links, on, officialOnly);
    if Contradicted(links, on) || sources == map[] then None else Some(InIdOrder(sources))
  }

  function Claimed(links: seq<EvidenceLink>): map<string, PublicSource> {
    if links == [] then map[]
    else
      var before, last := Claimed(links[..|links| - 1]), links[|links| - 1];
      if last.support == Supports then AddSources(before, last.sources) else before
  }

  function ClaimSources(links: seq<EvidenceLink>): seq<PublicSource> {
    InIdOrder(Claimed(links))
  }

  lemma {:induction false} AddSourcesKeys(m: map<string, PublicSource>, sources: seq<Source>)
    ensures AddSources(m, sources).Keys == m.Keys + set i | 0 <= i < |sources| :: sources[i].id
  {
    if sources != [] {
      var init := sources[..|sources| - 1];
      AddSourcesKeys(m, init);
      assert forall i | 0 <= i < |init| :: init[i] == sources[i];
    }
  }

  lemma {:induction false} SustainingIds(links: seq<EvidenceLink>, on: Date, officialOnly: bool)
    ensures Sustaining(links, on, officialOnly) == map[]
            <==> forall i | 0 <= i < |links| :: !Sustains(links[i], on, officialOnly)
  {
    if links != [] {
      var init, last := links[..|links| - 1], links[|links| - 1];
      SustainingIds(init, on, officialOnly);
      assert forall i | 0 <= i < |init| :: init[i] == links[i];
      if Sustains(last, on, officialOnly) {
        AddSourcesKeys(Sustaining(init, on, officialOnly), last.sources);
        assert last.sources[0].id in Sustaining(links, on, officialOnly);
      }
    }
  }

  /** A claim has supporting sources exactly when some link sustains it and no counted link contradicts it. */
  lemma SupportedExactlyIf(links: seq<EvidenceLink>, on: Date, officialOnly: bool)
    ensures SupportingSources(links, on, officialOnly).Some?
            <==> (exists i | 0 <= i < |links| :: Sustains(links[i], on, officialOnly)) && !Contradicted(links, on)
  {
    SustainingIds(links, on, officialOnly);
  }

  method CollectSupportingSources(links: seq<EvidenceLink>, on: Date, officialOnly: bool)
    returns (r: Option<seq<PublicSource>>)
    ensures r == SupportingSources(links, on, officialOnly)
  {
    var sources: map<string, PublicSource> := map[];
    var contradiction := false;
    for n := 0 to |links|
      invariant sources == Sustaining(links[..n], on, officialOnly)
      invariant contradiction <==> exists i | 0 <= i < n :: Counts(links[i], on) && links[i].support == Contradicts
    {
      var link := links[n];
      assert links[..n + 1][..n] == links[..n];
      if !Counts(link, on) {
        continue;
      }
      if link.support == Contradicts {
        contradiction := true;
        continue;
      }
      if link.support != Supports {
        continue;
      }
      if officialOnly && !(forall i | 0 <= i < |link.sources| :: IsOfficial(link.sources[i])) {
        continue;
      }
      sources := PutSources(sources, link.sources);
    }
    assert links[..|links|] == links;
    r := if contradiction || sources == map[] then None else Some(InIdOrder(sources));
  }

  method PutSources(m: map<string, PublicSource>, sources: seq<Source>) returns (r: map<string, PublicSource>)
    ensures r == AddSources(m, sources)
  {
    r := m;
    for n := 0 to |sources|
      invariant r == AddSources(m, sources[..n])
    {
      assert sources[..n + 1][..n] == sources[..n];
      r := r[sources[n].id := PublicOf(sources[n])];
    }
    assert sources[..|sources|] == sources;
  }

  method CollectClaimSources(links: seq<EvidenceLink>) returns (r: seq<PublicSource>)
    ensures r == ClaimSources(links)
  {
    var sources: map<string, PublicSource> := map[];
    for n := 0 to |links|
      invariant sources == Claimed(links[..n])
    {
      assert links[..n + 1][..n] == links[..n];
      if links[n].support == Supports {
        sources := PutSources(sources, links[n].sources);
      }
    }
    assert links[..|links|] == links;
    r := InIdOrder(sources);
  }
}
