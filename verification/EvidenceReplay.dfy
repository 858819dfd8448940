/** Trust overlays from an ordered evidence history (knowledge/evidence_trust_projection.py). */
module EvidenceReplay {
  import opened Wrappers
  import opened Calendar
  import opened Catalog

  datatype Kind =
    | ChecklistOwner | StepOwner | WarningOwner | FeeOwner | BasisOwner | DependencyOwner | AssociationOwner
    | MaterialOwner

  /** The claim an evidence record is about; shared material belongs to no version. */
  datatype Owner = Owner(kind: Kind, version: string, id: string)

  /** A timestamp in UTC: the calendar day and the time within it. */
  datatype Moment = Moment(day: Date, time: nat)

  datatype Event =
    | Transition(owner: Owner, at: Moment, discrepancy: nat, opens: bool, state: TrustState)
    | Review(owner: Owner, at: Moment, state: TrustState, verifiedOn: Date, reverifyOn: Option<Date>)

  datatype Overlay =
    Overlay(state: Option<TrustState>, verifiedOn: Option<Date>, reverifyOn: Option<Date>, reverifySeen: bool,
            evidenceState: Option<TrustState>, evidenceVerifiedOn: Option<Date>, evidenceReverifyOn: Option<Date>)

  const NO_OVERLAY := Overlay(None, None, None, false, None, None, None)

  /** `_max_date` */
  function MaxDate(a: Option<Date>, b: Option<Date>): Option<Date> {
    if a.None? then b else if b.None? then a else Some(Later(a.value, b.value))
  }

  // ----- one owner's history

  function EventsOf(history: seq<Event>, owner: Owner): seq<Event> {
    if history == [] then []
    else
      var init, last := EventsOf(history[..|history| - 1], owner), history[|history| - 1];
      if last.owner == owner then init + [last] else init
  }

  /** The day an event vouches for. */
  function Established(e: Event): Date {
    if e.Review? then Later(e.verifiedOn, e.at.day) else e.at.day
  }

  function LastReview(events: seq<Event>): (r: Option<Event>)
    ensures r.Some? ==> r.value.Review?
  {
    if events == [] then None
    else if events[|events| - 1].Review? then Some(events[|events| - 1])
    else LastReview(events[..|events| - 1])
  }

  /** A review starts over; a transition only moves the day forward. */
  function VerifiedOn(events: seq<Event>): Option<Date> {
    if events == [] then None
    else
      var last := events[|events| - 1];
      if last.Review? then Some(Established(last)) else MaxDate(VerifiedOn(events[..|events| - 1]), Some(last.at.day))
  }

  function OpenNow(events: seq<Event>): map<nat, TrustState> {
    if events == [] then map[]
    else
      var init, last := OpenNow(events[..|events| - 1]), events[|events| - 1];
      if last.Review? then init
      else if last.opens then init[last.discrepancy := last.state]
      else init - {last.discrepancy}
  }

  /** `_OPEN_DISCREPANCY_PRECEDENCE`; None where the source's `next` finds nothing. */
  function FirstOpen(states: set<TrustState>): Option<TrustState> {
    if Disputed in states then Some(Disputed)
    else if NeedsReverification in states then Some(NeedsReverification)
    else if Unverified in states then Some(Unverified)
    else None
  }

  /** The owner's overlay before open discrepancies take precedence. */
  function Latest(events: seq<Event>): Overlay
    requires events != []
  {
    var last, review := events[|events| - 1], LastReview(events);
    if review.None? then Overlay(Some(last.state), VerifiedOn(events), None, false, None, None, None)
    else
      Overlay(Some(last.state), VerifiedOn(events), review.value.reverifyOn, true,
              Some(review.value.state), Some(Established(review.value)), review.value.reverifyOn)
  }

  function OwnTrust(events: seq<Event>): Overlay
    requires events != []
  {
    if OpenNow(events) == map[] then Latest(events) else Latest(events).(state := FirstOpen(OpenNow(events).Values))
  }

  // ----- what the closed form says

  ghost predicate OpenAt(events: seq<Event>, i: nat)
    requires i < |events|
  {
    && events[i].Transition? && events[i].opens
    && forall j | i < j < |events| :: events[j].Transition? ==> events[j].discrepancy != events[i].discrepancy
  }

  ghost predicate OpenedLast(events: seq<Event>, d: nat, state: TrustState) {
    exists i | 0 <= i < |events| :: OpenAt(events, i) && events[i].discrepancy == d && events[i].state == state
  }

  /** A discrepancy is open exactly when the last transition about it opened it. */
  lemma {:induction false} OpenNowMeans(events: seq<Event>, d: nat, state: TrustState)
    ensures d in OpenNow(events) && OpenNow(events)[d] == state <==> OpenedLast(events, d, state)
  {
    if events != [] {
      var init, last := events[..|events| - 1], events[|events| - 1];
      OpenNowMeans(init, d, state);
      if last.Transition? && last.discrepancy == d {
        assert OpenAt(events, |init|) <==> last.opens;
        forall i | 0 <= i < |init| ensures OpenAt(events, i) ==> events[i].discrepancy != d {}
      } else {
        if OpenedLast(init, d, state) {
          var i :| 0 <= i < |init| && OpenAt(init, i) && init[i].discrepancy == d && init[i].state == state;
          assert OpenAt(events, i) && events[i].discrepancy == d;
        }
        if OpenedLast(events, d, state) {
          var i :| 0 <= i < |events| && OpenAt(events, i) && events[i].discrepancy == d && events[i].state == state;
          assert i < |init| && OpenAt(init, i) && init[i] == events[i];
        }
      }
    }
  }

  /** The latest day vouched for by the last review and the events after it, or by all events. */
  ghost predicate IsLatestSinceReview(events: seq<Event>, day: Option<Date>) {
    && day.Some?
    && (exists i | 0 <= i < |events| :: SinceReview(events, i) && Established(events[i]) == day.value)
    && (forall i | 0 <= i < |events| && SinceReview(events, i) :: NotAfter(Established(events[i]), day.value))
  }

  /** The verification day is the latest day vouched for from the last review on. */
  lemma {:induction false} VerifiedOnMeans(events: seq<Event>)
    requires events != []
    ensures IsLatestSinceReview(events, VerifiedOn(events))
  {
    var init, last := events[..|events| - 1], events[|events| - 1];
    assert events == init + [last];
    if last.Review? || init == [] {
      StartsOver(init, last);
    } else {
      VerifiedOnMeans(init);
      TransitionKeepsBound(init, last, VerifiedOn(init).value);
    }
  }

  lemma StartsOver(init: seq<Event>, last: Event)
    requires last.Review? || init == []
    ensures IsLatestSinceReview(init + [last], Some(Established(last)))
  {
    var events := init + [last];
    assert events[|init|] == last && SinceReview(events, |init|);
    forall i | 0 <= i < |init| ensures !SinceReview(events, i) {}
  }

  /** The latest day so far, moved forward by one more transition. */
  lemma TransitionKeepsBound(init: seq<Event>, last: Event, before: Date)
    requires !last.Review? && IsLatestSinceReview(init, Some(before))
    ensures IsLatestSinceReview(init + [last], Some(Later(before, last.at.day)))
  {
    var events := init + [last];
    forall i | 0 <= i < |init| ensures SinceReview(events, i) <==> SinceReview(init, i) {
      assert forall j | i < j < |init| :: events[j] == init[j];
    }
    var k :| 0 <= k < |init| && SinceReview(init, k) && Established(init[k]) == before;
    assert SinceReview(events, k) && events[k] == init[k];
    assert SinceReview(events, |init|);
    LaterIsBound(before, before, last.at.day);
    forall i | 0 <= i < |init| && SinceReview(init, i)
      ensures NotAfter(Established(events[i]), Later(before, last.at.day))
    {
      LaterIsBound(Established(init[i]), before, last.at.day);
    }
  }

  lemma LaterIsBound(x: Date, a: Date, b: Date)
    requires NotAfter(x, a)
    ensures NotAfter(x, Later(a, b)) && NotAfter(b, Later(a, b))
    ensures Later(a, b) == a || Later(a, b) == b
  {}

  /** No review comes later. */
  ghost predicate SinceReview(events: seq<Event>, i: nat)
    requires i < |events|
  {
    forall j | i < j < |events| :: !events[j].Review?
  }

  lemma {:induction false} LastReviewMeans(events: seq<Event>)
    ensures LastReview(events).None? ==> forall i | 0 <= i < |events| :: !events[i].Review?
    ensures LastReview(events).Some? ==>
              exists i | 0 <= i < |events| ::
                events[i] == LastReview(events).value && events[i].Review? && SinceReview(events, i)
  {
    if events != [] {
      var init := events[..|events| - 1];
      if events[|init|].Review? {
        assert SinceReview(events, |init|);
      } else {
        LastReviewMeans(init);
        if LastReview(init).Some? {
          var i :| 0 <= i < |init| && init[i] == LastReview(init).value && init[i].Review? && SinceReview(init, i);
          assert events[i] == init[i] && SinceReview(events, i);
        }
      }
    }
  }

  ghost predicate OpenIn(events: seq<Event>, state: TrustState) {
    exists i | 0 <= i < |events| :: OpenAt(events, i) && events[i].state == state
  }

  lemma OpenStatesAre(events: seq<Event>, state: TrustState)
    ensures state in OpenNow(events).Values <==> OpenIn(events, state)
  {
    if state in OpenNow(events).Values {
      var d :| d in OpenNow(events) && OpenNow(events)[d] == state;
      OpenNowMeans(events, d, state);
    }
    if OpenIn(events, state) {
      var i :| 0 <= i < |events| && OpenAt(events, i) && events[i].state == state;
      OpenNowMeans(events, events[i].discrepancy, state);
    }
  }

  /**
    The closed form of one owner's trust: the most severe state still open, else the state of the last event;
    evidence and the re-verify date as the last review left them; the verification day the latest one vouched
    for since; no state at all exactly when only unranked states are open.
   */
  lemma OwnTrustMeans(events: seq<Event>)
    requires events != []
    ensures OpenIn(events, Disputed) ==> OwnTrust(events).state == Some(Disputed)
    ensures !OpenIn(events, Disputed) && OpenIn(events, NeedsReverification) ==>
              OwnTrust(events).state == Some(NeedsReverification)
    ensures !OpenIn(events, Disputed) && !OpenIn(events, NeedsReverification) && OpenIn(events, Unverified) ==>
              OwnTrust(events).state == Some(Unverified)
    ensures (forall state :: !OpenIn(events, state)) ==> OwnTrust(events).state == Some(events[|events| - 1].state)
    ensures OwnTrust(events).state.None?
            <==> (OpenIn(events, Current) || OpenIn(events, Stale))
                 && !OpenIn(events, Disputed) && !OpenIn(events, NeedsReverification) && !OpenIn(events, Unverified)
    ensures OwnTrust(events).evidenceState == if LastReview(events).Some? then Some(LastReview(events).value.state)
                                              else None
    ensures OwnTrust(events).reverifySeen <==> exists i | 0 <= i < |events| :: events[i].Review?
    ensures LeftByLastReview(events, OwnTrust(events)) && IsLatestSinceReview(events, OwnTrust(events).verifiedOn)
  {
    OwnTrustDates(events);
    OpenStatesAre(events, Disputed);
    OpenStatesAre(events, NeedsReverification);
    OpenStatesAre(events, Unverified);
    OpenStatesAre(events, Current);
    OpenStatesAre(events, Stale);
    LastReviewMeans(events);
    if OpenNow(events) != map[] {
      var d :| d in OpenNow(events);
      var state := OpenNow(events)[d];
      assert state in OpenNow(events).Values;
      OpenStatesAre(events, state);
    }
  }

  /** The fields only a review sets are those of the last one. */
  ghost predicate LeftByLastReview(events: seq<Event>, o: Overlay) {
    && (forall i | 0 <= i < |events| && events[i].Review? && SinceReview(events, i) ::
          && o.reverifyOn == o.evidenceReverifyOn == events[i].reverifyOn
          && o.evidenceVerifiedOn == Some(Later(events[i].verifiedOn, events[i].at.day))
          && o.evidenceState == Some(events[i].state))
    && ((forall i | 0 <= i < |events| :: !events[i].Review?) ==>
          o.reverifyOn.None? && o.evidenceReverifyOn.None? && o.evidenceVerifiedOn.None? && o.evidenceState.None?)
  }

  lemma OwnTrustDates(events: seq<Event>)
    requires events != []
    ensures LeftByLastReview(events, OwnTrust(events)) && IsLatestSinceReview(events, OwnTrust(events).verifiedOn)
  {
    VerifiedOnMeans(events);
    LastReviewMeans(events);
    forall i, j | 0 <= i < |events| && 0 <= j < |events| && events[i].Review? && events[j].Review?
                  && SinceReview(events, i) && SinceReview(events, j)
      ensures i == j
    {}
  }

  // ----- all owners

  function OwnersOf(history: seq<Event>): set<Owner> {
    set i | 0 <= i < |history| :: history[i].owner
  }

  lemma {:induction false} OwnersHaveEvents(history: seq<Event>, owner: Owner)
    ensures owner in OwnersOf(history) <==> EventsOf(history, owner) != []
    ensures forall e :: e in EventsOf(history, owner) <==> e in history && e.owner == owner
  {
    if history != [] {
      var init, last := history[..|history| - 1], history[|history| - 1];
      OwnersHaveEvents(init, owner);
      assert OwnersOf(history) == OwnersOf(init) + {last.owner} by {
        OwnersNext(init, last); assert history == init + [last];
      }
      assert forall e :: e in history <==> e in init || e == last;
    }
  }

  lemma OwnersNext(init: seq<Event>, last: Event)
    ensures OwnersOf(init + [last]) == OwnersOf(init) + {last.owner}
  {
    var history := init + [last];
    forall i | 0 <= i < |init| ensures history[i] == init[i] {}
    assert history[|init|] == last;
    forall o | o in OwnersOf(init) ensures o in OwnersOf(history) {
      var i :| 0 <= i < |init| && init[i].owner == o;
      assert history[i].owner == o;
    }
  }

  /** The closed form fails where the source's precedence lookup would. */
  predicate Replayable(history: seq<Event>) {
    forall i | 0 <= i < |history| :: OwnTrust(EventsOfIndex(history, i)).state.Some?
  }

  function EventsOfIndex(history: seq<Event>, i: nat): (r: seq<Event>)
    requires i < |history|
    ensures r == EventsOf(history, history[i].owner) && r != []
  {
    OwnersHaveEvents(history, history[i].owner);
    EventsOf(history, history[i].owner)
  }

  function OverlayFor(history: seq<Event>, owner: Owner): Overlay
    requires owner in OwnersOf(history)
  {
    OwnersHaveEvents(history, owner);
    OwnTrust(EventsOf(history, owner))
  }

  function OverlaysOf(history: seq<Event>): map<Owner, Overlay> {
    map o | o in OwnersOf(history) :: OverlayFor(history, o)
  }

  // ----- the replay loop

  ghost predicate TracksLatest(overlays: map<Owner, Overlay>, history: seq<Event>) {
    && overlays.Keys == OwnersOf(history)
    && forall o | o in overlays :: EventsOf(history, o) != [] && overlays[o] == Latest(EventsOf(history, o))
  }

  ghost predicate TracksOpen(open: map<Owner, map<nat, TrustState>>, history: seq<Event>) {
    && (forall o :: o in open <==> OpenNow(EventsOf(history, o)) != map[])
    && (forall o | o in open :: open[o] == OpenNow(EventsOf(history, o)))
  }

  lemma UnreplayableOwner(history: seq<Event>, key: Owner)
    requires key in OwnersOf(history) && EventsOf(history, key) != [] && OwnTrust(EventsOf(history, key)).state.None?
    ensures !Replayable(history)
  {
    var i :| 0 <= i < |history| && history[i].owner == key;
    assert OwnTrust(EventsOfIndex(history, i)).state.None?;
  }

  lemma ReplayableMeans(history: seq<Event>, overlays: map<Owner, Overlay>)
    requires overlays.Keys == OwnersOf(history)
    requires forall o | o in overlays :: Settled(history, o, overlays[o])
    ensures Replayable(history) && overlays == OverlaysOf(history)
  {
    forall i | 0 <= i < |history| ensures OwnTrust(EventsOfIndex(history, i)).state.Some? {
      assert history[i].owner in overlays;
    }
  }

  function OverlayAfter(overlay: Overlay, event: Event): Overlay {
    match event
    case Transition(_, at, _, _, state) =>
      overlay.(state := Some(state), verifiedOn := MaxDate(overlay.verifiedOn, Some(at.day)))
    case Review(_, _, state, _, reverifyOn) =>
      Overlay(Some(state), Some(Established(event)), reverifyOn, true, Some(state), Some(Established(event)),
              reverifyOn)
  }

  lemma LatestNext(events: seq<Event>, event: Event)
    ensures Latest(events + [event]) == OverlayAfter(if events == [] then NO_OVERLAY else Latest(events), event)
  {
    var next := events + [event];
    assert next[..|events|] == events && next[|events|] == event;
    assert LastReview(next) == if event.Review? then Some(event) else LastReview(events);
    assert VerifiedOn(next) == if event.Review? then Some(Established(event))
                               else MaxDate(VerifiedOn(events), Some(event.at.day));
  }

  lemma OpenNext(events: seq<Event>, event: Event)
    ensures OpenNow(events + [event])
         == if event.Review? then OpenNow(events)
            else if event.opens then OpenNow(events)[event.discrepancy := event.state]
            else OpenNow(events) - {event.discrepancy}
  {
    assert (events + [event])[..|events|] == events;
  }

  lemma {:induction false} EventsNext(history: seq<Event>, event: Event, o: Owner)
    ensures EventsOf(history + [event], o) == if o == event.owner then EventsOf(history, o) + [event]
                                              else EventsOf(history, o)
  {
    assert (history + [event])[..|history|] == history;
  }

  /** `setdefault(...)[id] = state` and `pop(id)`, dropping an owner with nothing left open. */
  method TrackDiscrepancy(open: map<Owner, map<nat, TrustState>>, ghost history: seq<Event>, event: Event)
    returns (r: map<Owner, map<nat, TrustState>>)
    requires TracksOpen(open, history)
    ensures TracksOpen(r, history + [event])
  {
    var key := event.owner;
    r := open;
    if event.Transition? {
      if event.opens {
        var owned := if key in open then open[key] else map[];
        r := open[key := owned[event.discrepancy := event.state]];
      } else if key in open {
        var owned := open[key] - {event.discrepancy};
        r := if owned == map[] then open - {key} else open[key := owned];
      }
    }
    ghost var now := history + [event];
    OpenNext(EventsOf(history, key), event);
    if key !in open && event.Transition? {
      assert OpenNow(EventsOf(history, key)) - {event.discrepancy} == map[];
    }
    forall o ensures o in r <==> OpenNow(EventsOf(now, o)) != map[]
             ensures o in r ==> r[o] == OpenNow(EventsOf(now, o))
    {
      EventsNext(history, event, o);
    }
  }

  /** One turn of the replay. */
  method ReplayOne(overlays: map<Owner, Overlay>, ghost history: seq<Event>, event: Event)
    returns (r: map<Owner, Overlay>)
    requires TracksLatest(overlays, history)
    ensures TracksLatest(r, history + [event])
  {
    var key := event.owner;
    var overlay := if key in overlays then overlays[key] else NO_OVERLAY;
    match event {
      case Transition(_, at, _, _, state) =>
        overlay := overlay.(state := Some(state), verifiedOn := MaxDate(overlay.verifiedOn, Some(at.day)));
      case Review(_, at, state, verifiedOn, reverifyOn) =>
        var establishedOn := Later(verifiedOn, at.day);
        overlay := Overlay(Some(state), Some(establishedOn), reverifyOn, true, Some(state), Some(establishedOn),
                           reverifyOn);
    }
    r := overlays[key := overlay];
    LatestReplayed(overlays, history, event);
  }

  lemma LatestReplayed(overlays: map<Owner, Overlay>, history: seq<Event>, event: Event)
    requires TracksLatest(overlays, history)
    ensures var before := if event.owner in overlays then overlays[event.owner] else NO_OVERLAY;
            TracksLatest(overlays[event.owner := OverlayAfter(before, event)], history + [event])
  {
    OwnersNext(history, event);
    OwnerReplayed(overlays, history, event);
    OthersReplayed(overlays, history, event);
  }

  lemma OwnerReplayed(overlays: map<Owner, Overlay>, history: seq<Event>, event: Event)
    requires TracksLatest(overlays, history)
    ensures var before := if event.owner in overlays then overlays[event.owner] else NO_OVERLAY;
            var events := EventsOf(history + [event], event.owner);
            events != [] && Latest(events) == OverlayAfter(before, event)
  {
    OwnersHaveEvents(history, event.owner);
    LatestNext(EventsOf(history, event.owner), event);
    EventsNext(history, event, event.owner);
  }

  lemma OthersReplayed(overlays: map<Owner, Overlay>, history: seq<Event>, event: Event)
    requires TracksLatest(overlays, history)
    ensures forall o | o in overlays && o != event.owner ::
              EventsOf(history + [event], o) != [] && overlays[o] == Latest(EventsOf(history + [event], o))
  {
    forall o | o in overlays && o != event.owner ensures EventsOf(history + [event], o) == EventsOf(history, o) {
      EventsNext(history, event, o);
    }
  }

  /** The owner's overlay is final, and the precedence lookup found a state. */
  ghost predicate Settled(history: seq<Event>, o: Owner, overlay: Overlay) {
    EventsOf(history, o) != [] && overlay == OwnTrust(EventsOf(history, o)) && overlay.state.Some?
  }

  lemma QuietIsSettled(history: seq<Event>, o: Owner)
    requires EventsOf(history, o) != [] && OpenNow(EventsOf(history, o)) == map[]
    ensures Settled(history, o, Latest(EventsOf(history, o)))
  {}

  lemma OpenIsSettled(history: seq<Event>, o: Owner, overlay: Overlay, owned: map<nat, TrustState>,
                      first: Option<TrustState>)
    requires EventsOf(history, o) != [] && overlay == Latest(EventsOf(history, o))
    requires owned == OpenNow(EventsOf(history, o)) && owned != map[] && first == FirstOpen(owned.Values)
    ensures OwnTrust(EventsOf(history, o)) == overlay.(state := first)
  {}

  ghost predicate Pending(settled: map<Owner, Overlay>, overlays: map<Owner, Overlay>, todo: set<Owner>,
                          history: seq<Event>) {
    && TracksLatest(overlays, history) && settled.Keys == overlays.Keys && todo <= overlays.Keys
    && (forall o | o in todo :: settled[o] == overlays[o])
    && forall o | o in settled && o !in todo :: Settled(history, o, settled[o])
  }

  lemma NothingPending(overlays: map<Owner, Overlay>, open: map<Owner, map<nat, TrustState>>, history: seq<Event>)
    requires TracksLatest(overlays, history) && TracksOpen(open, history)
    ensures Pending(overlays, overlays, open.Keys, history)
  {
    forall o | o in open ensures o in overlays { OwnersHaveEvents(history, o); }
    forall o | o in overlays && o !in open ensures Settled(history, o, overlays[o]) { QuietIsSettled(history, o); }
  }

  lemma PendingNext(settled: map<Owner, Overlay>, overlays: map<Owner, Overlay>, todo: set<Owner>, history: seq<Event>,
                    key: Owner, overlay: Overlay)
    requires Pending(settled, overlays, todo, history) && key in todo && Settled(history, key, overlay)
    ensures Pending(settled[key := overlay], overlays, todo - {key}, history)
  {}

  /** The final pass gives every open discrepancy precedence; None is the source's failed lookup. */
  method GivePrecedence(overlays: map<Owner, Overlay>, open: map<Owner, map<nat, TrustState>>,
                        ghost history: seq<Event>)
    returns (r: Option<map<Owner, Overlay>>)
    requires TracksLatest(overlays, history) && TracksOpen(open, history)
    ensures r == if Replayable(history) then Some(OverlaysOf(history)) else None
  {
    var settled := overlays;
    var todo := open.Keys;
    NothingPending(overlays, open, history);
    while todo != {}
      invariant todo <= open.Keys && Pending(settled, overlays, todo, history)
      decreases todo
    {
      var key :| key in todo;
      var first := FirstOpen(open[key].Values);
      OpenIsSettled(history, key, overlays[key], open[key], first);
      if first.None? {
        UnreplayableOwner(history, key);
        return None;
      }
      PendingNext(settled, overlays, todo, history, key, settled[key].(state := first));
      settled := settled[key := settled[key].(state := first)];
      todo := todo - {key};
    }
    ReplayableMeans(history, settled);
    return Some(settled);
  }
}
