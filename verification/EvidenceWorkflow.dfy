/**
  Discrepancies and re-verifications as the editors record them (knowledge/evidence_workflow.py), the
  transitions captured on save, and the history read back for a day (knowledge/evidence_workflow_temporal.py).
 */
module EvidenceWorkflow {
  import opened Wrappers
  import opened Ordering
  import opened Calendar
  import opened Catalog
  import opened EvidenceReplay
  import opened TrustProjection

  datatype Status = OpenStatus | ResolvedStatus

  datatype Discrepancy =
    Discrepancy(owner: Owner, status: Status, outcome: TrustState, createdAt: Moment, resolvedAt: Option<Moment>)

  datatype TransitionRow = TransitionRow(discrepancy: nat, opens: bool, state: TrustState, occurredAt: Moment)

  datatype ReviewRow =
    ReviewRow(owner: Owner, state: TrustState, verifiedOn: Date, reverifyOn: Option<Date>, meaningChanged: bool,
              occurredAt: Moment)

  /** Append-only tables; the primary key of a row is its position. */
  datatype Tables = Tables(discrepancies: seq<Discrepancy>, transitions: seq<TransitionRow>, reviews: seq<ReviewRow>)

  datatype WorkflowError =
    | NoEvidence | MixedSubjects | OutcomeNotOpen | NotOpen | UnknownDiscrepancy
    | ResolvedIsImmutable | OwnerReassigned | CreationChanged | OpenWithResolution | ResolvedWithoutResolution
    | OpenOutcomeChanged
    | UnorderedInterval | SuccessorPolicy | IncompleteEvidence | DraftMaterial | UnfitSuccessor

  predicate IsOpenOutcome(state: TrustState) {
    state == NeedsReverification || state == Disputed || state == Unverified
  }

  // ----- what the tables always satisfy

  /** `opening[d]` and `resolving[d]` are the keys of the transitions of discrepancy `d`. */
  ghost predicate Consistent(t: Tables, opening: seq<nat>, resolving: seq<Option<nat>>) {
    && |opening| == |resolving| == |t.discrepancies|
    && (forall d | 0 <= d < |t.discrepancies| :: Captured(t, d, opening[d], resolving[d]))
    && forall p | 0 <= p < |t.transitions| ::
         var d := t.transitions[p].discrepancy;
         d < |t.discrepancies| && (opening[d] == p || resolving[d] == Some(p))
  }

  ghost predicate Captured(t: Tables, d: nat, opening: nat, resolving: Option<nat>)
    requires d < |t.discrepancies|
  {
    var row := t.discrepancies[d];
    && opening < |t.transitions| && Opens(t.transitions[opening], d, row)
    && (row.status == OpenStatus ==> resolving.None? && row.resolvedAt.None? && IsOpenOutcome(row.outcome))
    && (row.status == ResolvedStatus ==>
          && row.resolvedAt.Some? && resolving.Some? && opening < resolving.value < |t.transitions|
          && t.transitions[resolving.value] == TransitionRow(d, false, row.outcome, row.resolvedAt.value))
  }

  predicate Opens(transition: TransitionRow, d: nat, row: Discrepancy) {
    && transition.discrepancy == d && transition.opens && IsOpenOutcome(transition.state)
    && transition.occurredAt == row.createdAt
  }

  // ----- saving an existing discrepancy

  function SaveError(stored: Discrepancy, next: Discrepancy): Option<WorkflowError> {
    if stored.status == ResolvedStatus then Some(ResolvedIsImmutable)
    else if stored.owner != next.owner then Some(OwnerReassigned)
    else if stored.createdAt != next.createdAt then Some(CreationChanged)
    else if next.status == OpenStatus && !IsOpenOutcome(next.outcome) then Some(OutcomeNotOpen)
    else if next.status == OpenStatus && next.resolvedAt.Some? then Some(OpenWithResolution)
    else if next.status == ResolvedStatus && next.resolvedAt.None? then Some(ResolvedWithoutResolution)
    else if next.status == OpenStatus && stored.outcome != next.outcome then Some(OpenOutcomeChanged)
    else None
  }

  class Workflow {
    var discrepancies: seq<Discrepancy>
    var transitions: seq<TransitionRow>
    var reviews: seq<ReviewRow>
    ghost var opening: seq<nat>
    ghost var resolving: seq<Option<nat>>

    ghost predicate Valid()
      reads this
    {
      Consistent(Contents(), opening, resolving)
    }

    function Contents(): Tables
      reads this
    {
      Tables(discrepancies, transitions, reviews)
    }

    constructor ()
      ensures Valid() && Contents() == Tables([], [], [])
    {
      discrepancies, transitions, reviews := [], [], [];
      opening, resolving := [], [];
    }

    /** `open_evidence_discrepancy`, with the transition its creation captures. */
    method Open(owner: Owner, evidence: seq<Owner>, outcome: TrustState, now: Moment)
      returns (error: Option<WorkflowError>)
      requires Valid()
      modifies this
      ensures Valid()
      ensures error == if evidence == [] then Some(NoEvidence)
                       else if exists o | o in evidence :: o != owner then Some(MixedSubjects)
                       else if !IsOpenOutcome(outcome) then Some(OutcomeNotOpen) else None
      ensures error.Some? ==> Contents() == old(Contents())
      ensures error.None? ==>
                Contents() == Tables(old(discrepancies) + [Discrepancy(owner, OpenStatus, outcome, now, None)],
                                     old(transitions)
                                     + [TransitionRow(|old(discrepancies)|, true, outcome, now)], old(reviews))
    {
      if evidence == [] { return Some(NoEvidence); }
      if exists o | o in evidence :: o != owner { return Some(MixedSubjects); }
      if !IsOpenOutcome(outcome) { return Some(OutcomeNotOpen); }
      ghost var before := Contents();
      discrepancies := discrepancies + [Discrepancy(owner, OpenStatus, outcome, now, None)];
      transitions := transitions + [TransitionRow(|discrepancies| - 1, true, outcome, now)];
      opening, resolving := opening + [|transitions| - 1], resolving + [None];
      OpeningKeeps(before, Contents(), opening, resolving);
      return None;
    }

    /** Saving an existing row: refused, or stored with the transition captured when it becomes resolved. */
    method Save(id: nat, next: Discrepancy) returns (error: Option<WorkflowError>)
      requires Valid() && id < |discrepancies|
      modifies this
      ensures Valid()
      ensures error == SaveError(old(discrepancies[id]), next)
      ensures error.Some? ==> Contents() == old(Contents())
      ensures error.None? ==>
                var captured := if next.status == ResolvedStatus
                                then [TransitionRow(id, false, next.outcome, next.resolvedAt.value)] else [];
                Contents() == Tables(old(discrepancies)[id := next], old(transitions) + captured,
                                     old(reviews))
    {
      var stored := discrepancies[id];
      error := SaveError(stored, next);
      if error.Some? { return; }
      ghost var before := Contents();
      discrepancies := discrepancies[id := next];
      if stored.status == OpenStatus && next.status == ResolvedStatus {
        transitions := transitions + [TransitionRow(id, false, next.outcome, next.resolvedAt.value)];
        resolving := resolving[id := Some(|transitions| - 1)];
      }
      SavingKeeps(before, Contents(), opening, old(resolving), resolving, id);
    }

    /** `resolve_evidence_discrepancy` */
    method Resolve(id: nat, outcome: TrustState, now: Moment) returns (error: Option<WorkflowError>)
      requires Valid()
      modifies this
      ensures Valid()
      ensures error == if id >= |old(discrepancies)| then Some(UnknownDiscrepancy)
                       else if old(discrepancies[id]).status != OpenStatus then Some(NotOpen) else None
      ensures error.Some? ==> Contents() == old(Contents())
      ensures error.None? ==>
                var open := old(discrepancies[id]);
                var resolved := open.(status := ResolvedStatus, outcome := outcome, resolvedAt := Some(now));
                Contents() == Tables(old(discrepancies)[id := resolved],
                                     old(transitions) + [TransitionRow(id, false, outcome, now)], old(reviews))
    {
      if id >= |discrepancies| { return Some(UnknownDiscrepancy); }
      if discrepancies[id].status != OpenStatus { return Some(NotOpen); }
      error := Save(id, discrepancies[id].(status := ResolvedStatus, outcome := outcome, resolvedAt := Some(now)));
    }

    /**
      `record_evidence_reverification`. What the database is asked for comes as arguments: whether the reviewed
      evidence is the subject's complete set, whether all its versions are drafts, and whether a successor is fit.
     */
    method Record(owner: Owner, reviewed: seq<Owner>, complete: bool, onlyDrafts: bool, state: TrustState,
                  verifiedOn: Date, reverifyOn: Option<Date>, meaningChanged: bool, successor: Option<bool>,
                  now: Moment) returns (error: Option<WorkflowError>)
      requires Valid()
      modifies this
      ensures Valid()
      ensures error == if reverifyOn.Some? && Before(reverifyOn.value, verifiedOn) then Some(UnorderedInterval)
                       else if meaningChanged != successor.Some? then Some(SuccessorPolicy)
                       else if reviewed == [] then Some(NoEvidence)
                       else if exists o | o in reviewed :: o != owner then Some(MixedSubjects)
                       else if !complete then Some(IncompleteEvidence)
                       else if onlyDrafts then Some(DraftMaterial)
                       else if successor == Some(false) then Some(UnfitSuccessor) else None
      ensures error.Some? ==> Contents() == old(Contents())
      ensures error.None? ==>
                var row := ReviewRow(owner, state, verifiedOn, reverifyOn, meaningChanged, now);
                Contents() == old(Contents()).(reviews := old(reviews) + [row])
    {
      if reverifyOn.Some? && Before(reverifyOn.value, verifiedOn) { return Some(UnorderedInterval); }
      if meaningChanged != successor.Some? { return Some(SuccessorPolicy); }
      if reviewed == [] { return Some(NoEvidence); }
      if exists o | o in reviewed :: o != owner { return Some(MixedSubjects); }
      if !complete { return Some(IncompleteEvidence); }
      if onlyDrafts { return Some(DraftMaterial); }
      if successor == Some(false) { return Some(UnfitSuccessor); }
      ghost var before := Contents();
      reviews := reviews + [ReviewRow(owner, state, verifiedOn, reverifyOn, meaningChanged, now)];
      ReviewingKeeps(before, Contents(), opening, resolving);
      return None;
    }
  }

  lemma OpeningKeeps(t: Tables, t': Tables, opening: seq<nat>, resolving: seq<Option<nat>>)
    requires opening != [] && resolving != [] && t'.discrepancies != [] && t'.transitions != []
    requires Consistent(t, opening[..|opening| - 1], resolving[..|resolving| - 1])
    requires |opening| == |resolving| == |t'.discrepancies| && |t'.discrepancies| == |t.discrepancies| + 1
    requires t'.discrepancies == t.discrepancies + [t'.discrepancies[|t.discrepancies|]]
    requires |t'.transitions| == |t.transitions| + 1
             && t'.transitions == t.transitions + [t'.transitions[|t.transitions|]]
    requires opening[|opening| - 1] == |t.transitions| && resolving[|resolving| - 1] == None
    requires var row := t'.discrepancies[|t.discrepancies|];
             row.status == OpenStatus && row.resolvedAt.None? && IsOpenOutcome(row.outcome)
             && Opens(t'.transitions[|t.transitions|], |t.discrepancies|, row)
    ensures Consistent(t', opening, resolving)
  {
    forall d | 0 <= d < |t.discrepancies| ensures Captured(t', d, opening[d], resolving[d]) {
      assert Captured(t, d, opening[..|opening| - 1][d], resolving[..|resolving| - 1][d]);
    }
    forall p | 0 <= p < |t.transitions| ensures t'.transitions[p] == t.transitions[p] {}
  }

  lemma SavingKeeps(t: Tables, t': Tables, opening: seq<nat>, resolving: seq<Option<nat>>, resolving': seq<Option<nat>>,
                    id: nat)
    requires Consistent(t, opening, resolving) && id < |t.discrepancies|
    requires |t'.discrepancies| == |t.discrepancies| && t'.discrepancies == t.discrepancies[id := t'.discrepancies[id]]
    requires SaveError(t.discrepancies[id], t'.discrepancies[id]).None?
    requires var row := t'.discrepancies[id];
             if row.status == ResolvedStatus
             then t'.transitions == t.transitions + [TransitionRow(id, false, row.outcome, row.resolvedAt.value)]
                  && resolving' == resolving[id := Some(|t.transitions|)]
             else t'.transitions == t.transitions && resolving' == resolving
    ensures Consistent(t', opening, resolving')
  {
    forall d | 0 <= d < |t.discrepancies| ensures Captured(t', d, opening[d], resolving'[d]) {
      assert Captured(t, d, opening[d], resolving[d]);
    }
    forall p | 0 <= p < |t.transitions| ensures t'.transitions[p] == t.transitions[p] {}
  }

  lemma ReviewingKeeps(t: Tables, t': Tables, opening: seq<nat>, resolving: seq<Option<nat>>)
    requires Consistent(t, opening, resolving) && t'.discrepancies == t.discrepancies && t'.transitions == t.transitions
    ensures Consistent(t', opening, resolving)
  {
    forall d | 0 <= d < |t.discrepancies| ensures Captured(t', d, opening[d], resolving[d]) {
      assert Captured(t, d, opening[d], resolving[d]);
    }
  }

  // ----- the history read back for a day

  datatype Entry = Entry(at: Moment, order: nat, pk: nat, event: Event)

  predicate MomentLe(a: Moment, b: Moment) {
    Before(a.day, b.day) || (a.day == b.day && a.time <= b.time)
  }

  /** The sort key (timestamp, discrepancy before review, primary key). */
  predicate EntryLe(a: Entry, b: Entry) {
    if a.at != b.at then MomentLe(a.at, b.at) else a.order < b.order || (a.order == b.order && a.pk <= b.pk)
  }

  lemma EntryLeIsOrder()
    ensures IsOrder(EntryLe)
  {}

  function TransitionEntry(t: Tables, pk: nat): Entry
    requires pk < |t.transitions| && t.transitions[pk].discrepancy < |t.discrepancies|
  {
    var row := t.transitions[pk];
    Entry(row.occurredAt, 0, pk,
          Transition(t.discrepancies[row.discrepancy].owner, row.occurredAt, row.discrepancy, row.opens, row.state))
  }

  function ReviewEntry(t: Tables, pk: nat): Entry
    requires pk < |t.reviews|
  {
    var row := t.reviews[pk];
    Entry(row.occurredAt, 1, pk, Review(row.owner, row.occurredAt, row.state, row.verifiedOn, row.reverifyOn))
  }

  predicate Referenced(t: Tables) {
    forall p | 0 <= p < |t.transitions| :: t.transitions[p].discrepancy < |t.discrepancies|
  }

  function TransitionEntries(t: Tables, on: Date, n: nat): seq<Entry>
    requires Referenced(t) && n <= |t.transitions|
  {
    if n == 0 then []
    else
      TransitionEntries(t, on, n - 1)
      + (if NotAfter(t.transitions[n - 1].occurredAt.day, on) then [TransitionEntry(t, n - 1)] else [])
  }

  /** Reviews that changed the meaning do not count. */
  function ReviewEntries(t: Tables, on: Date, n: nat): seq<Entry>
    requires n <= |t.reviews|
  {
    if n == 0 then []
    else
      ReviewEntries(t, on, n - 1)
      + (if NotAfter(t.reviews[n - 1].occurredAt.day, on) && !t.reviews[n - 1].meaningChanged
           then [ReviewEntry(t, n - 1)] else [])
  }

  function Timeline(t: Tables, on: Date): seq<Entry>
    requires Referenced(t)
  {
    SortBy(TransitionEntries(t, on, |t.transitions|) + ReviewEntries(t, on, |t.reviews|), EntryLe)
  }

  function EventsIn(timeline: seq<Entry>): seq<Event> {
    seq(|timeline|, i requires 0 <= i < |timeline| => timeline[i].event)
  }

  /** `_captured_history_as_of` */
  function CapturedHistory(t: Tables, on: Date): seq<Event>
    requires Referenced(t)
  {
    EventsIn(Timeline(t, on))
  }

  function KeptEntries(entries: seq<Entry>, keep: set<Owner>): seq<Entry> {
    if entries == [] then []
    else if entries[0].event.owner in keep then [entries[0]] + KeptEntries(entries[1..], keep)
    else KeptEntries(entries[1..], keep)
  }

  /** The same, restricted to the records anchored in a scope. */
  function ScopedHistory(t: Tables, on: Date, keep: set<Owner>): seq<Event>
    requires Referenced(t)
  {
    EventsIn(SortBy(KeptEntries(TransitionEntries(t, on, |t.transitions|) + ReviewEntries(t, on, |t.reviews|), keep),
                    EntryLe))
  }

  /** Reads the two tables, keeps the records of the day and scope, and puts them in replay order. */
  method ReadScopedHistory(t: Tables, on: Date, keep: set<Owner>) returns (history: seq<Event>)
    requires Referenced(t)
    ensures history == ScopedHistory(t, on, keep)
  {
    var timeline: seq<Entry> := [];
    for n := 0 to |t.transitions|
      invariant timeline == KeptEntries(TransitionEntries(t, on, n), keep)
    {
      var row := t.transitions[n];
      KeptAppended(TransitionEntries(t, on, n), TransitionEntry(t, n), keep);
      assert TransitionEntries(t, on, n) + [] == TransitionEntries(t, on, n);
      if NotAfter(row.occurredAt.day, on) && t.discrepancies[row.discrepancy].owner in keep {
        timeline := timeline + [TransitionEntry(t, n)];
      }
    }
    ghost var before := TransitionEntries(t, on, |t.transitions|);
    assert before + [] == before;
    for n := 0 to |t.reviews|
      invariant timeline == KeptEntries(before + ReviewEntries(t, on, n), keep)
    {
      var row := t.reviews[n];
      KeptAppended(before + ReviewEntries(t, on, n), ReviewEntry(t, n), keep);
      assert ReviewEntries(t, on, n) + [] == ReviewEntries(t, on, n);
      assert before + (ReviewEntries(t, on, n) + [ReviewEntry(t, n)])
             == before + ReviewEntries(t, on, n) + [ReviewEntry(t, n)];
      if NotAfter(row.occurredAt.day, on) && !row.meaningChanged && row.owner in keep {
        timeline := timeline + [ReviewEntry(t, n)];
      }
    }
    history := EventsIn(SortBy(timeline, EntryLe));
  }

  lemma {:induction false} KeptAppended(entries: seq<Entry>, e: Entry, keep: set<Owner>)
    ensures KeptEntries(entries + [e], keep) == KeptEntries(entries, keep) + (if e.event.owner in keep then [e] else [])
  {
    if entries != [] {
      KeptAppended(entries[1..], e, keep);
      assert (entries + [e])[1..] == entries[1..] + [e];
    } else {
      assert entries + [e] == [e] && [e][1..] == [];
    }
  }

  lemma {:induction false} KeptAreEntries(entries: seq<Entry>, keep: set<Owner>)
    ensures forall e :: e in KeptEntries(entries, keep) <==> e in entries && e.event.owner in keep
  {
    if entries != [] {
      KeptAreEntries(entries[1..], keep);
      assert forall e :: e in entries <==> e == entries[0] || e in entries[1..];
    }
  }

  lemma {:induction false} InsertKept(x: Entry, rows: seq<Entry>, keep: set<Owner>)
    requires Pairwise(rows, EntryLe)
    ensures KeptEntries(Insert(x, rows, EntryLe), keep)
            == if x.event.owner in keep then Insert(x, KeptEntries(rows, keep), EntryLe) else KeptEntries(rows, keep)
  {
    if rows != [] {
      InsertKept(x, rows[1..], keep);
      var kept := KeptEntries(rows, keep);
      if EntryLe(x, rows[0]) {
        KeptAreEntries(rows, keep);
        assert ([x] + rows)[1..] == rows;
        if kept != [] {
          assert kept[0] in rows;
          EntryLeIsOrder();
          assert EntryLe(x, kept[0]);
        }
      } else {
        assert ([rows[0]] + Insert(x, rows[1..], EntryLe))[1..] == Insert(x, rows[1..], EntryLe);
      }
    }
  }

  lemma {:induction false} SortKept(rows: seq<Entry>, keep: set<Owner>)
    ensures SortBy(KeptEntries(rows, keep), EntryLe) == KeptEntries(SortBy(rows, EntryLe), keep)
  {
    if rows != [] {
      SortKept(rows[1..], keep);
      EntryLeIsOrder();
      SortSorts(rows[1..], EntryLe);
      InsertKept(rows[0], SortBy(rows[1..], EntryLe), keep);
      if rows[0].event.owner in keep {
        assert KeptEntries(rows, keep)[1..] == KeptEntries(rows[1..], keep);
      }
    }
  }

  lemma {:induction false} ConcerningFront(e: Event, rest: seq<Event>, keep: set<Owner>)
    ensures Concerning([e] + rest, keep) == (if e.owner in keep then [e] else []) + Concerning(rest, keep)
  {
    if rest != [] {
      assert ([e] + rest)[..|rest|] == [e] + rest[..|rest| - 1];
      ConcerningFront(e, rest[..|rest| - 1], keep);
    } else {
      assert [e] + rest == [e] && [e][..0] == [];
    }
  }

  lemma {:induction false} EventsOfKept(entries: seq<Entry>, keep: set<Owner>)
    ensures EventsIn(KeptEntries(entries, keep)) == Concerning(EventsIn(entries), keep)
  {
    if entries != [] {
      EventsOfKept(entries[1..], keep);
      assert EventsIn(entries) == [entries[0].event] + EventsIn(entries[1..]);
      ConcerningFront(entries[0].event, EventsIn(entries[1..]), keep);
      if entries[0].event.owner in keep {
        assert EventsIn(KeptEntries(entries, keep)) == [entries[0].event] + EventsIn(KeptEntries(entries[1..], keep));
      }
    } else {
      assert EventsIn(entries) == [];
    }
  }

  /** Filtering the tables to a scope first gives the scope's part of the full history. */
  lemma ScopedHistoryIsItsPart(t: Tables, on: Date, keep: set<Owner>)
    requires Referenced(t)
    ensures ScopedHistory(t, on, keep) == Concerning(CapturedHistory(t, on), keep)
  {
    var all := TransitionEntries(t, on, |t.transitions|) + ReviewEntries(t, on, |t.reviews|);
    SortKept(all, keep);
    EventsOfKept(SortBy(all, EntryLe), keep);
  }

  lemma {:induction false} TransitionEntriesMeans(t: Tables, on: Date, n: nat, e: Entry)
    requires Referenced(t) && n <= |t.transitions|
    ensures e in TransitionEntries(t, on, n)
            <==> e.pk < n && NotAfter(t.transitions[e.pk].occurredAt.day, on) && e == TransitionEntry(t, e.pk)
  {
    if n > 0 { TransitionEntriesMeans(t, on, n - 1, e); }
  }

  lemma {:induction false} ReviewEntriesAreReviews(t: Tables, on: Date, n: nat, e: Entry)
    requires n <= |t.reviews|
    ensures e in ReviewEntries(t, on, n) ==> e.event.Review?
  {
    if n > 0 { ReviewEntriesAreReviews(t, on, n - 1, e); }
  }

  /** The transitions in the timeline are those stamped by the day. */
  lemma TimelineMeans(t: Tables, on: Date, e: Entry)
    requires Referenced(t)
    ensures e in Timeline(t, on) && e.event.Transition?
            <==> e.pk < |t.transitions| && NotAfter(t.transitions[e.pk].occurredAt.day, on)
                 && e == TransitionEntry(t, e.pk)
  {
    var all := TransitionEntries(t, on, |t.transitions|) + ReviewEntries(t, on, |t.reviews|);
    SortKeeps(all, EntryLe);
    TransitionEntriesMeans(t, on, |t.transitions|, e);
    ReviewEntriesAreReviews(t, on, |t.reviews|, e);
  }

  predicate About(e: Event, owner: Owner, d: nat) {
    e.Transition? && e.owner == owner && e.discrepancy == d
  }

  /** A discrepancy is open for its owner exactly when the last transition about it in the history opened it. */
  lemma {:induction false} LastAboutDecides(history: seq<Event>, owner: Owner, d: nat)
    ensures d in OpenNow(EventsOf(history, owner))
            <==> exists i | 0 <= i < |history| :: LastAbout(history, i, owner, d) && history[i].opens
  {
    if history != [] {
      var init, last := history[..|history| - 1], history[|history| - 1];
      LastAboutDecides(init, owner, d);
      var events := EventsOf(init, owner);
      assert (events + [last])[..|events|] == events;
      if About(last, owner, d) {
        assert LastAbout(history, |init|, owner, d);
        forall i | 0 <= i < |init| ensures !LastAbout(history, i, owner, d) {}
      } else {
        forall i | 0 <= i < |init| ensures LastAbout(history, i, owner, d) <==> LastAbout(init, i, owner, d) {}
      }
    }
  }

  ghost predicate LastAbout(history: seq<Event>, i: nat, owner: Owner, d: nat)
    requires i < |history|
  {
    About(history[i], owner, d) && forall j | i < j < |history| :: !About(history[j], owner, d)
  }

  lemma {:induction false} SomeLastAbout(history: seq<Event>, from: nat, owner: Owner, d: nat) returns (i: nat)
    requires from < |history| && About(history[from], owner, d)
    ensures from <= i < |history| && LastAbout(history, i, owner, d)
    decreases |history| - from
  {
    if LastAbout(history, from, owner, d) {
      i := from;
    } else {
      var j :| from < j < |history| && About(history[j], owner, d);
      i := SomeLastAbout(history, j, owner, d);
    }
  }

  /** Opened by the day, and not resolved by the day at or after its opening. */
  predicate OpenOn(row: Discrepancy, on: Date) {
    && NotAfter(row.createdAt.day, on)
    && !(row.status == ResolvedStatus && row.resolvedAt.Some? && NotAfter(row.resolvedAt.value.day, on)
         && MomentLe(row.createdAt, row.resolvedAt.value))
  }

  /**
    The replay of the captured history sees a discrepancy open exactly when it was opened by the day and not
    resolved since; a resolution stamped before the opening is the one that does not count.
   */
  lemma ReplaySeesOpenExactlyIf(t: Tables, opening: seq<nat>, resolving: seq<Option<nat>>, d: nat, on: Date)
    requires Consistent(t, opening, resolving) && d < |t.discrepancies|
    ensures Referenced(t)
    ensures d in OpenNow(EventsOf(CapturedHistory(t, on), t.discrepancies[d].owner)) <==> OpenOn(t.discrepancies[d], on)
  {
    var row, history, timeline := t.discrepancies[d], CapturedHistory(t, on), Timeline(t, on);
    assert Captured(t, d, opening[d], resolving[d]);
    LastAboutDecides(history, row.owner, d);
    var open := TransitionEntry(t, opening[d]);
    TimelineMeans(t, on, open);
    EntryLeIsOrder();
    SortSorts(TransitionEntries(t, on, |t.transitions|) + ReviewEntries(t, on, |t.reviews|), EntryLe);
    forall i | 0 <= i < |timeline| && About(timeline[i].event, row.owner, d)
      ensures timeline[i] == open || (resolving[d].Some? && timeline[i] == TransitionEntry(t, resolving[d].value))
    {
      TimelineMeans(t, on, timeline[i]);
    }
    if resolving[d].Some? { TimelineMeans(t, on, TransitionEntry(t, resolving[d].value)); }
    if NotAfter(row.createdAt.day, on) {
      var a :| 0 <= a < |timeline| && timeline[a] == open;
      var last := SomeLastAbout(history, a, row.owner, d);
      assert forall i | 0 <= i < |history| && LastAbout(history, i, row.owner, d) :: i == last;
      var resolve := if resolving[d].Some? then Some(TransitionEntry(t, resolving[d].value)) else None;
      LastIsLatest(timeline, history, a, last, open, resolve);
    }
  }

  lemma LastIsLatest(timeline: seq<Entry>, history: seq<Event>, a: nat, last: nat, open: Entry, resolve: Option<Entry>)
    requires Pairwise(timeline, EntryLe) && history == EventsIn(timeline)
    requires a <= last < |timeline| && timeline[a] == open && open.event.Transition? && open.event.opens
    requires LastAbout(history, last, open.event.owner, open.event.discrepancy)
    requires timeline[last] == open || (resolve.Some? && timeline[last] == resolve.value)
    requires resolve.Some? ==>
               About(resolve.value.event, open.event.owner, open.event.discrepancy) && !resolve.value.event.opens
                               && resolve.value.order == open.order && open.pk < resolve.value.pk
    ensures history[last].opens
            <==> !(resolve.Some? && resolve.value in timeline && MomentLe(open.at, resolve.value.at))
  {
    if resolve.Some? && resolve.value in timeline {
      var b :| 0 <= b < |timeline| && timeline[b] == resolve.value;
      assert history[b] == resolve.value.event;
      assert b <= last;
      if timeline[last] == open { assert b < last; assert EntryLe(timeline[b], timeline[last]); }
      else { assert a < last; assert EntryLe(timeline[a], timeline[last]); }
    }
  }

  // ----- what the replay makes of it

  lemma CapturedOpensInconclusive(t: Tables, opening: seq<nat>, resolving: seq<Option<nat>>, on: Date)
    requires Consistent(t, opening, resolving)
    ensures Referenced(t) && OpensInconclusive(CapturedHistory(t, on))
  {
    var history, timeline := CapturedHistory(t, on), Timeline(t, on);
    forall e | e in history && e.Transition? && e.opens ensures e.state in {NeedsReverification, Disputed, Unverified} {
      var i :| 0 <= i < |history| && history[i] == e;
      TimelineMeans(t, on, timeline[i]);
      var d := e.discrepancy;
      assert Captured(t, d, opening[d], resolving[d]);
    }
  }

  /** While a discrepancy is open on the day, its claim is not current on that day, whatever was reviewed meanwhile. */
  lemma OpenIsNotCurrent(t: Tables, opening: seq<nat>, resolving: seq<Option<nat>>, d: nat, on: Date)
    requires Consistent(t, opening, resolving) && d < |t.discrepancies| && OpenOn(t.discrepancies[d], on)
    ensures Referenced(t)
    ensures var overlays, owner := OverlaysOf(CapturedHistory(t, on)), t.discrepancies[d].owner;
            owner in overlays && overlays[owner].state.Some? && overlays[owner].state.value != Current
  {
    var history, owner := CapturedHistory(t, on), t.discrepancies[d].owner;
    ReplaySeesOpenExactlyIf(t, opening, resolving, d, on);
    CapturedOpensInconclusive(t, opening, resolving, on);
    OwnersHaveEvents(history, owner);
    OpenStateIsOpenOutcome(history, owner);
  }

  // ----- a resolution stamped before its own opening

  /** One discrepancy, opened and then resolved. */
  function OpenedAndResolved(owner: Owner, outcome: TrustState, created: Moment, result: TrustState,
                             resolved: Moment): Tables {
    Tables([Discrepancy(owner, ResolvedStatus, result, created, Some(resolved))],
           [TransitionRow(0, true, outcome, created), TransitionRow(0, false, result, resolved)], [])
  }

  /** The workflow reaches these tables, in whatever order the two moments are. */
  method OpenAndResolve(owner: Owner, outcome: TrustState, created: Moment, result: TrustState, resolved: Moment)
    returns (w: Workflow)
    requires IsOpenOutcome(outcome)
    ensures fresh(w) && w.Valid() && w.Contents() == OpenedAndResolved(owner, outcome, created, result, resolved)
  {
    w := new Workflow();
    var refused := w.Open(owner, [owner], outcome, created);
    refused := w.Resolve(0, result, resolved);
  }

  /**
    Resolved before it was opened, the discrepancy stays open on every later day, and its claim is never current
    again.
   */
  lemma ResolvedTooEarlyStaysOpen(owner: Owner, outcome: TrustState, created: Moment, result: TrustState,
                                  resolved: Moment, on: Date)
    requires IsOpenOutcome(outcome) && !MomentLe(created, resolved) && NotAfter(created.day, on)
    ensures var t := OpenedAndResolved(owner, outcome, created, result, resolved);
            && Consistent(t, [0], [Some(1)]) && OpenOn(t.discrepancies[0], on)
            && 0 in OpenNow(EventsOf(CapturedHistory(t, on), owner))
            && var overlays := OverlaysOf(CapturedHistory(t, on));
               owner in overlays && overlays[owner].state.Some? && overlays[owner].state.value != Current
  {
    var t := OpenedAndResolved(owner, outcome, created, result, resolved);
    assert Captured(t, 0, 0, Some(1));
    ReplaySeesOpenExactlyIf(t, [0], [Some(1)], 0, on);
    OpenIsNotCurrent(t, [0], [Some(1)], 0, on);
  }
}
