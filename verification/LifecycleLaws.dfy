/**
  Exactly when each lifecycle action is refused, with which failures, and what it changes otherwise
  (knowledge/publication.py, knowledge/models.py).
 */
module LifecycleLaws {
  import opened Wrappers
  import opened Calendar
  import opened Catalog
  import opened Versions
  import opened CycleCheck
  import opened Lifecycle

  predicate EndsBeforeItStarts(v: Version) {
    v.effectiveFrom.Some? && v.effectiveTo.Some? && Before(v.effectiveTo.value, v.effectiveFrom.value)
  }

  /** A published version of the same Procedure, neither over before the other starts nor starting after it is over. */
  predicate InTheWay(other: Version, v: Version) {
    && other.state == Published && other.procedure == v.procedure
    && !(other.effectiveTo.Some? && v.effectiveFrom.Some? && Before(other.effectiveTo.value, v.effectiveFrom.value))
    && !(v.effectiveTo.Some? && other.effectiveFrom.Some? && Before(v.effectiveTo.value, other.effectiveFrom.value))
  }

  /** A published version of the first Procedure, or the one to be published, must wait for the second. */
  ghost predicate WaitsFor(versions: map<nat, Version>, pk: nat, first: string, second: string) {
    exists k, d | k in versions && d in versions[k].dependencies ::
      && (versions[k].state == Published || k == pk) && versions[k].procedure == first
      && d.blocking && d.target == second
  }

  /** Some Procedure would wait for itself in the end. */
  ghost predicate Deadlocks(versions: map<nat, Version>, pk: nat) {
    exists path: seq<string> :: && |path| >= 2 && path[0] == path[|path| - 1]
                  && forall i | 0 <= i < |path| - 1 :: WaitsFor(versions, pk, path[i], path[i + 1])
  }

  lemma EdgeExactlyIf(versions: map<nat, Version>, pk: nat, first: string, second: string)
    ensures (first, second) in GraphWith(versions, Some(pk)) <==> WaitsFor(versions, pk, first, second)
  {
    if WaitsFor(versions, pk, first, second) {
      var k, d :| k in versions && d in versions[k].dependencies
                  && (versions[k].state == Published || k == pk) && versions[k].procedure == first
                  && d.blocking && d.target == second;
      assert second in TargetsOf(versions[k]);
      assert (first, second) in EdgesFrom(versions[k]);
    }
  }

  lemma CyclicExactlyIf(versions: map<nat, Version>, pk: nat)
    ensures Cyclic(versions, pk) <==> Deadlocks(versions, pk)
  {
    forall a, b { EdgeExactlyIf(versions, pk, a, b); }
    var edges := GraphWith(versions, Some(pk));
    if path :| IsCycle(edges, path) {
      assert forall i | 0 <= i < |path| - 1 :: WaitsFor(versions, pk, path[i], path[i + 1]);
    }
    if Deadlocks(versions, pk) {
      var path: seq<string> :| && |path| >= 2 && path[0] == path[|path| - 1]
                               && forall i | 0 <= i < |path| - 1 :: WaitsFor(versions, pk, path[i], path[i + 1]);
      assert IsCycle(edges, path);
    }
  }

  lemma OverlapFoundExactlyIf(versions: map<nat, Version>, pk: nat)
    requires pk in versions
    ensures OverlapQuery(versions, pk) != {}
            <==> exists k | k in versions && k != pk :: InTheWay(versions[k], versions[pk])
  {
    forall k ensures k in OverlapQuery(versions, pk)
                     <==> k in versions && k != pk && InTheWay(versions[k], versions[pk])
    {}
  }

  /** Each failure for one gate. */
  predicate Tells(f: set<Failure>, draft: bool, actor: bool, contract: bool, interval: bool, free: bool, acyclic: bool,
                  others: bool) {
    && (VersionNotDraft in f <==> !draft) && (InvalidActor in f <==> !actor)
       && (UnsupportedContract in f <==> !contract)
    && (InvalidInterval in f <==> !interval) && (OverlappingPublishedVersion in f <==> !free)
    && (BlockingCycle in f <==> !acyclic) && (OtherGateFailed in f <==> !others)
    && f <= {VersionNotDraft, InvalidActor, UnsupportedContract, InvalidInterval, OverlappingPublishedVersion,
             BlockingCycle, OtherGateFailed}
  }

  lemma GatesTell(draft: bool, actor: bool, contract: bool, interval: bool, free: bool, acyclic: bool, others: bool)
    ensures Tells((if !draft then {VersionNotDraft} else {}) + (if !actor then {InvalidActor} else {})
                  + (if !contract then {UnsupportedContract} else {}) + (if !interval then {InvalidInterval} else {})
                  + (if !free then {OverlappingPublishedVersion} else {}) + (if !acyclic then {BlockingCycle} else {})
                  + (if !others then {OtherGateFailed} else {}),
                  draft, actor, contract, interval, free, acyclic, others)
  {}

  /** Publishing reports every gate that fails, and no other failure. */
  lemma PublishFailsExactlyIf(s: Store, pk: nat, actorSaved: bool, otherGatesPass: bool)
    ensures pk !in s.versions ==> PublishFailures(s, pk, actorSaved, otherGatesPass) == {UnknownVersion}
    ensures pk in s.versions ==>
              var v := s.versions[pk];
              Tells(PublishFailures(s, pk, actorSaved, otherGatesPass),
                    v.state == Draft, actorSaved, v.contractV1, !EndsBeforeItStarts(v),
                    forall k | k in s.versions && k != pk :: !InTheWay(s.versions[k], v),
                    !Deadlocks(s.versions, pk), otherGatesPass)
  {
    if pk in s.versions {
      var v := s.versions[pk];
      CyclicExactlyIf(s.versions, pk);
      OverlapFoundExactlyIf(s.versions, pk);
      GatesTell(v.state == Draft, actorSaved, v.contractV1, OrderedInterval(v), OverlapQuery(s.versions, pk) == {},
                !Cyclic(s.versions, pk), otherGatesPass);
    }
  }

  /** A version is published exactly when no gate fails; then its state and the trail change, and nothing else. */
  lemma PublishChanges(s: Store, pk: nat, actorSaved: bool, otherGatesPass: bool)
    ensures var t := Next(s, Publish(pk, actorSaved, otherGatesPass));
            if forall f :: f !in PublishFailures(s, pk, actorSaved, otherGatesPass) then
              && pk in s.versions && t.versions == s.versions[pk := s.versions[pk].(state := Published)]
              && t.next == s.next && t.audit == s.audit + [AuditEvent(pk, PublishedEvent, Draft, Published)]
            else t == s
  {
    PassingMeans(s, pk, actorSaved, otherGatesPass);
  }

  /** Only a saved actor withdraws, and only what is published; then its state and the trail change, and nothing
      else. */
  lemma WithdrawChanges(s: Store, pk: nat, actorSaved: bool)
    ensures var t, failures := Next(s, Withdraw(pk, actorSaved)), Failures(s, Withdraw(pk, actorSaved));
            if pk in s.versions && actorSaved && s.versions[pk].state == Published then
              && failures == {} && t.versions == s.versions[pk := s.versions[pk].(state := Withdrawn)]
              && t.next == s.next && t.audit == s.audit + [AuditEvent(pk, WithdrawnEvent, Published, Withdrawn)]
            else
              && t == s && failures == {if pk !in s.versions then UnknownVersion
                                        else if !actorSaved then InvalidActor else VersionNotPublished}
  {}

  /** Only drafts are created, under a fresh key; only drafts are saved, and stay drafts; only drafts are deleted. */
  lemma DraftsChange(s: Store, pk: nat, v: Version)
    ensures var t, failures := Next(s, Create(v)), Failures(s, Create(v));
            if v.state == Draft then failures == {} && t == Store(s.versions[s.next := v], s.next + 1, s.audit)
            else failures == {OnlyCreatedAsDraft} && t == s
    ensures var t, failures := Next(s, SaveDraft(pk, v)), Failures(s, SaveDraft(pk, v));
            if pk in s.versions && s.versions[pk].state == Draft && v.state == Draft then
              failures == {} && t == Store(s.versions[pk := v], s.next, s.audit)
            else
              && t == s && failures == {if pk !in s.versions then UnknownVersion
                                        else if s.versions[pk].state != Draft then ImmutableVersion
                                        else UseLifecycleService}
    ensures var t, failures := Next(s, Delete(pk)), Failures(s, Delete(pk));
            if pk in s.versions && s.versions[pk].state == Draft then
              && failures == {} && t.versions == (map k | k in s.versions && k != pk :: s.versions[k])
              && t.next == s.next && t.audit == s.audit
            else t == s && failures == {if pk !in s.versions then UnknownVersion else CannotDelete}
  {}

  /** Whatever is refused changes nothing. */
  lemma RefusedChangesNothing(s: Store, action: Action)
    ensures Failures(s, action) != {} ==> Next(s, action) == s
  {}
}
