/**
  What the editors' tables mean (knowledge/evidence_workflow.py, evidence_workflow_temporal.py): when a saved
  discrepancy is refused, and which events the history of a day holds, in which order.
 */
module HistoryLaws {
  import opened Wrappers
  import opened Ordering
  import opened Calendar
  import opened CalendarLaws
  import opened Catalog
  import opened EvidenceReplay
  import opened EvidenceWorkflow

  // ----- saving a discrepancy

  /** An open discrepancy says what is wrong, and is not resolved yet; a resolved one says when. */
  predicate WellFormed(d: Discrepancy) {
    match d.status
    case OpenStatus => d.outcome in {NeedsReverification, Disputed, Unverified} && d.resolvedAt.None?
    case ResolvedStatus => d.resolvedAt.Some?
  }

  /** Saving goes through exactly for an open discrepancy whose owner, creation and, while it stays open, outcome are
      kept, and which is well formed afterwards. */
  lemma SavedExactlyIf(stored: Discrepancy, next: Discrepancy)
    ensures SaveError(stored, next) == None
            <==> && stored.status == OpenStatus && next.owner == stored.owner && next.createdAt == stored.createdAt
                 && WellFormed(next) && (next.status == OpenStatus ==> next.outcome == stored.outcome)
  {}

  /** Otherwise the first broken rule is named. */
  lemma SaveRefusedAs(stored: Discrepancy, next: Discrepancy)
    ensures stored.status == ResolvedStatus ==> SaveError(stored, next) == Some(ResolvedIsImmutable)
    ensures stored.status == OpenStatus && next.owner != stored.owner ==>
              SaveError(stored, next) == Some(OwnerReassigned)
    ensures stored.status == OpenStatus && next.owner == stored.owner && next.createdAt != stored.createdAt ==>
              SaveError(stored, next) == Some(CreationChanged)
    ensures stored.status == OpenStatus && next.owner == stored.owner && next.createdAt == stored.createdAt ==>
              && (next.status == ResolvedStatus && next.resolvedAt == None ==>
                    SaveError(stored, next) == Some(ResolvedWithoutResolution))
              && (next.status == OpenStatus ==>
                    if next.outcome in {Current, Stale} then SaveError(stored, next) == Some(OutcomeNotOpen)
                    else if next.resolvedAt.Some? then SaveError(stored, next) == Some(OpenWithResolution)
                    else next.outcome != stored.outcome ==> SaveError(stored, next) == Some(OpenOutcomeChanged))
  {}

  // ----- the history of a day

  /** The event is a transition captured by the day, about the owner of its discrepancy. */
  predicate IsTransition(t: Tables, on: Date, p: nat, e: Event)
    requires Referenced(t)
  {
    && p < |t.transitions|
    && var row := t.transitions[p];
       && e == Transition(t.discrepancies[row.discrepancy].owner, row.occurredAt, row.discrepancy, row.opens, row.state)
       && Rank(row.occurredAt.day) <= Rank(on)
  }

  /** The event is a review by the day that left the meaning unchanged. */
  predicate IsReview(t: Tables, on: Date, p: nat, e: Event) {
    && p < |t.reviews|
    && var row := t.reviews[p];
       && e == Review(row.owner, row.occurredAt, row.state, row.verifiedOn, row.reverifyOn)
       && Rank(row.occurredAt.day) <= Rank(on) && !row.meaningChanged
  }

  predicate IsEntry(t: Tables, on: Date, e: Entry)
    requires Referenced(t)
  {
    && e.at == e.event.at
    && if e.event.Transition? then e.order == 0 && IsTransition(t, on, e.pk, e.event)
       else e.order == 1 && IsReview(t, on, e.pk, e.event)
  }

  /** From different rows. */
  predicate Distinct(a: Entry, b: Entry) {
    a.order != b.order || a.pk != b.pk
  }

  lemma {:induction false} TransitionsAre(t: Tables, on: Date, n: nat)
    requires Referenced(t) && n <= |t.transitions|
    ensures var r := TransitionEntries(t, on, n);
            && (forall e :: e in r <==> e.order == 0 && e.event.Transition? && e.pk < n && IsEntry(t, on, e))
            && Pairwise(r, Distinct)
  {
    if n > 0 {
      TransitionsAre(t, on, n - 1);
      BeforeMeans(on, t.transitions[n - 1].occurredAt.day);
      ApartFrom(TransitionEntries(t, on, n - 1), TransitionEntry(t, n - 1), n - 1);
    }
  }

  lemma {:induction false} ReviewsAre(t: Tables, on: Date, n: nat)
    requires Referenced(t) && n <= |t.reviews|
    ensures var r := ReviewEntries(t, on, n);
            && (forall e :: e in r <==> e.order == 1 && e.event.Review? && e.pk < n && IsEntry(t, on, e))
            && Pairwise(r, Distinct)
  {
    if n > 0 {
      ReviewsAre(t, on, n - 1);
      BeforeMeans(on, t.reviews[n - 1].occurredAt.day);
      ApartFrom(ReviewEntries(t, on, n - 1), ReviewEntry(t, n - 1), n - 1);
    }
  }

  lemma ApartFrom(rows: seq<Entry>, e: Entry, n: nat)
    requires Pairwise(rows, Distinct) && e.pk == n && forall x | x in rows :: x.pk < n
    ensures Pairwise(rows + [e], Distinct)
  {}

  function Unsorted(t: Tables, on: Date): seq<Entry>
    requires Referenced(t)
  {
    TransitionEntries(t, on, |t.transitions|) + ReviewEntries(t, on, |t.reviews|)
  }

  lemma UnsortedHolds(t: Tables, on: Date, e: Entry)
    requires Referenced(t)
    ensures e in Unsorted(t, on) <==> IsEntry(t, on, e)
  {
    TransitionsAre(t, on, |t.transitions|);
    ReviewsAre(t, on, |t.reviews|);
  }

  lemma UnsortedIsDistinct(t: Tables, on: Date)
    requires Referenced(t)
    ensures Pairwise(Unsorted(t, on), Distinct)
  {
    var a, b := TransitionEntries(t, on, |t.transitions|), ReviewEntries(t, on, |t.reviews|);
    TransitionsAre(t, on, |t.transitions|);
    ReviewsAre(t, on, |t.reviews|);
    forall x, y | x in a && y in b ensures x.order != y.order {}
    BothDistinct(a, b);
  }

  lemma BothDistinct(a: seq<Entry>, b: seq<Entry>)
    requires Pairwise(a, Distinct) && Pairwise(b, Distinct)
    requires forall x, y | x in a && y in b :: x.order != y.order
    ensures Pairwise(a + b, Distinct)
  {
    forall i, j | 0 <= i < |a| && 0 <= j < |b| ensures Distinct(a[i], b[j]) {
      assert a[i] in a && b[j] in b;
    }
  }

  lemma TimelineHolds(t: Tables, on: Date, e: Entry)
    requires Referenced(t)
    ensures e in Timeline(t, on) <==> IsEntry(t, on, e)
  {
    SortKeeps(Unsorted(t, on), EntryLe);
    UnsortedHolds(t, on, e);
  }

  lemma TimelineIsSorted(t: Tables, on: Date)
    requires Referenced(t)
    ensures Pairwise(Timeline(t, on), Distinct) && Pairwise(Timeline(t, on), EntryLe)
  {
    EntryLeIsOrder();
    SortSorts(Unsorted(t, on), EntryLe);
    UnsortedIsDistinct(t, on);
    SortKeepsPairwise(Unsorted(t, on), EntryLe, Distinct);
  }

  /** One moment is earlier than another. */
  predicate Earlier(a: Moment, b: Moment) {
    Rank(a.day) < Rank(b.day) || (Rank(a.day) == Rank(b.day) && a.time < b.time)
  }

  /** Row p of one table stands for event e; it comes before row q, which stands for f: by time, transitions before
      reviews of the same moment, and earlier rows first. */
  predicate InTurn(p: nat, e: Event, q: nat, f: Event) {
    || Earlier(e.at, f.at)
    || (e.at == f.at && (|| (e.Transition? && f.Review?)
                         || (e.Transition? == f.Transition? && p < q)))
  }

  predicate IsRow(t: Tables, on: Date, p: nat, e: Event)
    requires Referenced(t)
  {
    if e.Transition? then IsTransition(t, on, p, e) else IsReview(t, on, p, e)
  }

  /** The history of a day holds each captured transition and each counting review by the day exactly once, in turn. */
  lemma HistoryIs(t: Tables, on: Date) returns (rows: seq<nat>)
    requires Referenced(t)
    ensures var h := CapturedHistory(t, on);
            && |rows| == |h|
            && (forall i | 0 <= i < |h| :: IsRow(t, on, rows[i], h[i]))
            && (forall i, j | 0 <= i < j < |h| :: InTurn(rows[i], h[i], rows[j], h[j]))
            && (forall p, e | IsRow(t, on, p, e) :: exists i | 0 <= i < |h| :: h[i] == e && rows[i] == p)
  {
    var timeline, h := Timeline(t, on), CapturedHistory(t, on);
    TimelineIsSorted(t, on);
    rows := seq(|timeline|, i requires 0 <= i < |timeline| => timeline[i].pk);
    forall i | 0 <= i < |h| ensures IsRow(t, on, rows[i], h[i]) {
      TimelineHolds(t, on, timeline[i]);
    }
    forall i, j | 0 <= i < j < |h| ensures InTurn(rows[i], h[i], rows[j], h[j]) {
      TimelineHolds(t, on, timeline[i]);
      TimelineHolds(t, on, timeline[j]);
      TurnOf(t, on, timeline[i], timeline[j]);
    }
    forall p, e | IsRow(t, on, p, e) ensures exists i | 0 <= i < |h| :: h[i] == e && rows[i] == p {
      var entry := Entry(e.at, if e.Transition? then 0 else 1, p, e);
      TimelineHolds(t, on, entry);
      var i :| 0 <= i < |timeline| && timeline[i] == entry;
      assert h[i] == e && rows[i] == p;
    }
  }

  lemma TurnOf(t: Tables, on: Date, a: Entry, b: Entry)
    requires Referenced(t) && IsEntry(t, on, a) && IsEntry(t, on, b)
    requires Distinct(a, b) && EntryLe(a, b)
    ensures InTurn(a.pk, a.event, b.pk, b.event)
  {
    BeforeMeans(a.at.day, b.at.day);
  }
}
