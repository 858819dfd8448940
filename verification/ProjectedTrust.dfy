/** What the evidence history makes of each claim of a snapshot (knowledge/evidence_trust_projection.py). */
module ProjectedTrust {
  import opened Wrappers
  import opened Calendar
  import opened Catalog
  import opened EvidenceReplay
  import opened TrustProjection

  // ----- one claim and the events of its owner

  /** The most severe state still open, else the state of the last event. */
  ghost predicate StateFollows(events: seq<Event>, state: TrustState)
    requires events != []
  {
    if OpenIn(events, Disputed) then state == Disputed
    else if OpenIn(events, NeedsReverification) then state == NeedsReverification
    else if OpenIn(events, Unverified) then state == Unverified
    else state == events[|events| - 1].state
  }

  /** The later of the stored day and the latest one vouched for since the last review. */
  ghost predicate DayFollows(events: seq<Event>, stored: Option<Date>, day: Option<Date>) {
    exists since: Date ::
      && IsLatestSinceReview(events, Some(since))
      && day == Some(if stored.Some? && Before(since, stored.value) then stored.value else since)
  }

  ghost predicate IsLastReview(events: seq<Event>, i: nat) {
    && i < |events| && events[i].Review?
    && forall j | i < j < |events| :: !events[j].Review?
  }

  /** The re-verify date and the evidence are as the last review left them, and untouched when there was none. */
  ghost predicate ReviewFollows(events: seq<Event>, was: Claim, now: Claim) {
    && |now.links| == |was.links|
    && (forall i | 0 <= i < |events| && IsLastReview(events, i) ::
          && now.reverifyOn == events[i].reverifyOn
          && forall k | 0 <= k < |was.links| ::
               now.links[k] == was.links[k].(state := events[i].state,
                                             verifiedOn := Some(Later(events[i].verifiedOn, events[i].at.day)),
                                             reverifyOn := events[i].reverifyOn))
    && ((forall i | 0 <= i < |events| :: !events[i].Review?) ==>
          now.reverifyOn == was.reverifyOn && now.links == was.links)
  }

  /** What the events of its owner make of a claim. */
  ghost predicate Follows(events: seq<Event>, was: Claim, now: Claim) {
    && now.id == was.id && now.effectiveFrom == was.effectiveFrom && now.effectiveTo == was.effectiveTo
    && if events == [] then now == was
       else
         && StateFollows(events, now.state) && DayFollows(events, was.verifiedOn, now.verifiedOn)
         && ReviewFollows(events, was, now)
  }

  lemma ClaimFollows(c: Claim, kind: Kind, version: string, history: seq<Event>)
    requires Replayable(history)
    ensures Follows(EventsOf(history, Owner(kind, version, c.id)), c, ClaimUnder(c, kind, version, OverlaysOf(history)))
  {
    var owner := Owner(kind, version, c.id);
    OwnersHaveEvents(history, owner);
    if owner in OwnersOf(history) {
      var i :| 0 <= i < |history| && history[i].owner == owner;
      assert OwnTrust(EventsOfIndex(history, i)).state.Some?;
      OverlaidFollows(EventsOf(history, owner), c);
    }
  }

  lemma OverlaidFollows(events: seq<Event>, c: Claim)
    requires events != [] && OwnTrust(events).state.Some?
    ensures Follows(events, c, OverlayClaim(c, OwnTrust(events)))
  {
    OwnTrustMeans(events);
    var o, now := OwnTrust(events), OverlayClaim(c, OwnTrust(events));
    var since := o.verifiedOn.value;
    assert IsLatestSinceReview(events, Some(since));
    OnlyRankedIsOpen(events);
    forall i | 0 <= i < |events| && IsLastReview(events, i) ensures SinceReview(events, i) {}
    NoReviewNoEvidence(events);
  }

  /** With nothing ranked open, the precedence lookup falls back on the last event only if nothing is open at all. */
  lemma OnlyRankedIsOpen(events: seq<Event>)
    requires events != [] && OwnTrust(events).state.Some?
    ensures !OpenIn(events, Disputed) && !OpenIn(events, NeedsReverification) && !OpenIn(events, Unverified) ==>
              forall state :: !OpenIn(events, state)
  {
    OwnTrustMeans(events);
  }

  lemma NoReviewNoEvidence(events: seq<Event>)
    requires events != []
    ensures (forall i | 0 <= i < |events| :: !events[i].Review?)
            <==> !OwnTrust(events).reverifySeen && OwnTrust(events).evidenceState.None?
    ensures OwnTrust(events).reverifySeen <==> OwnTrust(events).evidenceState.Some?
  {
    OwnTrustMeans(events);
    LastReviewMeans(events);
  }

  // ----- the whole snapshot

  ghost predicate RowsFollow<R>(was: seq<R>, now: seq<R>, claim: R -> Claim, kind: Kind, version: string,
                                history: seq<Event>) {
    && |now| == |was|
    && forall i | 0 <= i < |was| ::
         Follows(EventsOf(history, Owner(kind, version, claim(was[i]).id)), claim(was[i]), claim(now[i]))
  }

  ghost predicate VersionFollows(was: Version, now: Version, history: seq<Event>) {
    && RowsFollow(was.checklist, now.checklist, (r: ChecklistItem) => r.claim, ChecklistOwner, was.id, history)
    && RowsFollow(was.steps, now.steps, (r: Step) => r.claim, StepOwner, was.id, history)
    && RowsFollow(was.warnings, now.warnings, (r: Warning) => r.claim, WarningOwner, was.id, history)
    && RowsFollow(was.fees, now.fees, (r: Fee) => r.claim, FeeOwner, was.id, history)
    && RowsFollow(was.bases, now.bases, (r: EligibilityBasis) => r.claim, BasisOwner, was.id, history)
    && RowsFollow(was.dependencies, now.dependencies, (r: Dependency) => r.claim, DependencyOwner, was.id, history)
    && RowsFollow(was.associations, now.associations, (r: Association) => r.claim, AssociationOwner, was.id, history)
  }

  lemma MappedFollows<R>(was: seq<R>, with: R -> R, claim: R -> Claim, kind: Kind, version: string, history: seq<Event>)
    requires Replayable(history)
    requires forall r :: claim(with(r)) == ClaimUnder(claim(r), kind, version, OverlaysOf(history))
    ensures RowsFollow(was, MapRows(was, with), claim, kind, version, history)
  {
    forall i | 0 <= i < |was| { ClaimFollows(claim(was[i]), kind, version, history); }
  }

  lemma MappedVersionFollows(v: Version, history: seq<Event>)
    requires Replayable(history)
    ensures VersionFollows(v, VersionWith(Projection(OverlaysOf(history)))(v), history)
  {
    var f := Projection(OverlaysOf(history));
    MappedFollows(v.checklist, ItemWith(v.id, f), (r: ChecklistItem) => r.claim, ChecklistOwner, v.id, history);
    MappedFollows(v.steps, StepWith(v.id, f), (r: Step) => r.claim, StepOwner, v.id, history);
    MappedFollows(v.warnings, WarningWith(v.id, f), (r: Warning) => r.claim, WarningOwner, v.id, history);
    MappedFollows(v.fees, FeeWith(v.id, f), (r: Fee) => r.claim, FeeOwner, v.id, history);
    MappedFollows(v.bases, BasisWith(v.id, f), (r: EligibilityBasis) => r.claim, BasisOwner, v.id, history);
    MappedFollows(v.dependencies, DependencyWith(v.id, f), (r: Dependency) => r.claim, DependencyOwner, v.id, history);
    MappedFollows(v.associations, AssociationWith(v.id, f), (r: Association) => r.claim, AssociationOwner, v.id,
                  history);
  }

  /** Every claim of the projected snapshot follows the events of its owner, version by version and row by row. */
  lemma ProjectedFollows(s: Snapshot, history: seq<Event>, t: Snapshot)
    requires ProjectedSnapshot(s, history) == Some(t)
    ensures |t.versions| == |s.versions|
    ensures forall i | 0 <= i < |s.versions| :: VersionFollows(s.versions[i], t.versions[i], history)
    ensures RowsFollow(s.pointVersions, t.pointVersions, (r: PointVersion) => r.claim, MaterialOwner, "", history)
  {
    var f := Projection(OverlaysOf(history));
    forall i | 0 <= i < |s.versions| { MappedVersionFollows(s.versions[i], history); }
    MappedFollows(s.pointVersions, MaterialWith(f), (r: PointVersion) => r.claim, MaterialOwner, "", history);
  }

  /** Discrepancies are open, none of them of a ranked state. */
  ghost predicate OnlyUnrankedOpen(events: seq<Event>) {
    && (OpenIn(events, Current) || OpenIn(events, Stale))
    && !OpenIn(events, Disputed) && !OpenIn(events, NeedsReverification) && !OpenIn(events, Unverified)
  }

  /** The projection fails exactly when some owner of an event has only unranked discrepancies open. */
  lemma ProjectionFailsExactlyIf(s: Snapshot, history: seq<Event>)
    ensures ProjectedSnapshot(s, history).None?
            <==> exists i | 0 <= i < |history| :: OnlyUnrankedOpen(EventsOf(history, history[i].owner))
  {
    forall i | 0 <= i < |history|
      ensures OwnTrust(EventsOfIndex(history, i)).state.None?
              <==> OnlyUnrankedOpen(EventsOf(history, history[i].owner))
    {
      UnrankedHasNoState(EventsOfIndex(history, i));
    }
  }

  lemma UnrankedHasNoState(events: seq<Event>)
    requires events != []
    ensures OwnTrust(events).state.None? <==> OnlyUnrankedOpen(events)
  {
    OwnTrustMeans(events);
  }
}
