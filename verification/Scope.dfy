/**
  Planning on one service's part of the catalog (knowledge/planning_scope.py): the batched graph
  discovery, and why the restricted snapshot plans exactly like the full one.
 */
module Scope {

  // ----- reachability

  /** A batched lookup answers for a batch exactly what it answers for its members. */
  ghost predicate Additive<A(!new), B(!new)>(f: set<A> -> set<B>) {
    f({}) == {} && forall x, y :: f(x + y) == f(x) + f(y)
  }

  /** The procedures one dependency away. */
  ghost function Next<P(!new), V(!new)>(from: set<P>, versionsFor: set<P> -> set<V>,
                                        targetsFor: set<V> -> set<P>): set<P> {
    targetsFor(versionsFor(from))
  }

  /** Starts at an initial procedure and follows dependencies one at a time. */
  ghost predicate IsPath<P(!new), V(!new)>(path: seq<P>, initial: set<P>, versionsFor: set<P> -> set<V>,
                                           targetsFor: set<V> -> set<P>) {
    path != []
    && if |path| == 1 then path[0] in initial
       else IsPath(path[..|path| - 1], initial, versionsFor, targetsFor)
            && path[|path| - 1] in Next({path[|path| - 2]}, versionsFor, targetsFor)
  }

  ghost predicate Reachable<P(!new), V(!new)>(p: P, initial: set<P>, versionsFor: set<P> -> set<V>,
                                              targetsFor: set<V> -> set<P>) {
    exists path :: IsPath(path, initial, versionsFor, targetsFor) && path[|path| - 1] == p
  }

  lemma InitialIsReachable<P(!new), V(!new)>(p: P, initial: set<P>, versionsFor: set<P> -> set<V>,
                                             targetsFor: set<V> -> set<P>)
    requires p in initial
    ensures Reachable(p, initial, versionsFor, targetsFor)
  {
    assert IsPath([p], initial, versionsFor, targetsFor);
  }

  lemma TargetIsReachable<P(!new), V(!new)>(p: P, q: P, initial: set<P>, versionsFor: set<P> -> set<V>,
                                            targetsFor: set<V> -> set<P>)
    requires Reachable(p, initial, versionsFor, targetsFor) && q in Next({p}, versionsFor, targetsFor)
    ensures Reachable(q, initial, versionsFor, targetsFor)
  {
    var path :| IsPath(path, initial, versionsFor, targetsFor) && path[|path| - 1] == p;
    assert (path + [q])[..|path|] == path;
    assert IsPath(path + [q], initial, versionsFor, targetsFor);
  }

  /** What a batch reaches, one of its members reaches. */
  lemma {:induction false} MemberReaches<P(!new), V(!new)>(from: set<P>, q: P, versionsFor: set<P> -> set<V>,
                                                           targetsFor: set<V> -> set<P>)
    returns (p: P)
    requires Additive(versionsFor) && Additive(targetsFor)
    requires q in Next(from, versionsFor, targetsFor)
    ensures p in from && q in Next({p}, versionsFor, targetsFor)
    decreases from
  {
    assert from != {};
    p :| p in from;
    if q !in Next({p}, versionsFor, targetsFor) {
      var rest := from - {p};
      assert from == {p} + rest;
      assert versionsFor(from) == versionsFor({p}) + versionsFor(rest);
      assert targetsFor(versionsFor(from)) == targetsFor(versionsFor({p})) + targetsFor(versionsFor(rest));
      p := MemberReaches(rest, q, versionsFor, targetsFor);
    }
  }

  lemma MembersAreCovered<P(!new), V(!new)>(p: P, all: set<P>, versionsFor: set<P> -> set<V>,
                                            targetsFor: set<V> -> set<P>)
    requires Additive(versionsFor) && Additive(targetsFor) && p in all
    ensures versionsFor({p}) <= versionsFor(all)
    ensures Next({p}, versionsFor, targetsFor) <= Next(all, versionsFor, targetsFor)
  {
    assert all == {p} + all;
    assert versionsFor(all) == versionsFor({p}) + versionsFor(all);
    assert targetsFor(versionsFor(all)) == targetsFor(versionsFor({p})) + targetsFor(versionsFor(all));
  }

  ghost predicate ClosedUnder<P(!new), V(!new)>(all: set<P>, initial: set<P>, versionsFor: set<P> -> set<V>,
                                                targetsFor: set<V> -> set<P>) {
    initial <= all && Next(all, versionsFor, targetsFor) <= all
  }

  lemma {:induction false} PathsStayInside<P(!new), V(!new)>(path: seq<P>, all: set<P>, initial: set<P>,
                                                 versionsFor: set<P> -> set<V>, targetsFor: set<V> -> set<P>)
    requires Additive(versionsFor) && Additive(targetsFor)
    requires ClosedUnder(all, initial, versionsFor, targetsFor) && IsPath(path, initial, versionsFor, targetsFor)
    ensures path[|path| - 1] in all
  {
    if |path| > 1 {
      PathsStayInside(path[..|path| - 1], all, initial, versionsFor, targetsFor);
      MembersAreCovered(path[|path| - 2], all, versionsFor, targetsFor);
    }
  }

  /**
    `_discover_procedure_graph`: exactly the procedures a dependency path reaches, and exactly their
    versions. `universe` stands for the finite tables the lookups read; cycles are allowed.
   */
  method DiscoverProcedureGraph<P(==,!new), V(==,!new)>(initial: set<P>, versionsFor: set<P> -> set<V>,
                                                        targetsFor: set<V> -> set<P>, ghost universe: set<P>)
    returns (visited: set<P>, versions: set<V>)
    requires Additive(versionsFor) && Additive(targetsFor)
    requires ClosedUnder(universe, initial, versionsFor, targetsFor)
    ensures forall p :: p in visited <==> Reachable(p, initial, versionsFor, targetsFor)
    ensures ClosedUnder(visited, initial, versionsFor, targetsFor)
    ensures versions == versionsFor(visited)
    ensures forall v :: v in versions <==> exists p :: p in visited && v in versionsFor({p})
  {
    var frontier := initial;
    visited, versions := {}, {};
    forall p | p in initial ensures Reachable(p, initial, versionsFor, targetsFor) {
      InitialIsReachable(p, initial, versionsFor, targetsFor);
    }
    while frontier != {}
      invariant visited + frontier <= universe && initial <= visited + frontier
      invariant versions == versionsFor(visited)
      invariant Next(visited, versionsFor, targetsFor) <= visited + frontier
      invariant forall p | p in visited + frontier :: Reachable(p, initial, versionsFor, targetsFor)
      decreases universe - visited
    {
      var current := frontier - visited;
      if current == {} {
        break;
      }
      ghost var before := visited;
      visited := visited + current;
      var currentVersions := versionsFor(current);
      versions := versions + currentVersions;
      frontier := targetsFor(currentVersions) - visited;
      BatchIsCovered(before, current, visited, versionsFor, targetsFor);
      NextStaysInside(current, universe, versionsFor, targetsFor);
      forall q | q in frontier ensures Reachable(q, initial, versionsFor, targetsFor) {
        var p := MemberReaches(current, q, versionsFor, targetsFor);
        TargetIsReachable(p, q, initial, versionsFor, targetsFor);
      }
    }
    forall p | Reachable(p, initial, versionsFor, targetsFor) ensures p in visited {
      var path :| IsPath(path, initial, versionsFor, targetsFor) && path[|path| - 1] == p;
      PathsStayInside(path, visited, initial, versionsFor, targetsFor);
    }
    VersionsOfABatch(visited, versionsFor);
  }

  lemma BatchIsCovered<P(!new), V(!new)>(a: set<P>, b: set<P>, both: set<P>, versionsFor: set<P> -> set<V>,
                                         targetsFor: set<V> -> set<P>)
    requires Additive(versionsFor) && Additive(targetsFor) && both == a + b
    ensures versionsFor(both) == versionsFor(a) + versionsFor(b)
    ensures Next(both, versionsFor, targetsFor) == Next(a, versionsFor, targetsFor) + Next(b, versionsFor, targetsFor)
  {}

  lemma NextStaysInside<P(!new), V(!new)>(some: set<P>, all: set<P>, versionsFor: set<P> -> set<V>,
                                          targetsFor: set<V> -> set<P>)
    requires Additive(versionsFor) && Additive(targetsFor) && some <= all && Next(all, versionsFor, targetsFor) <= all
    ensures Next(some, versionsFor, targetsFor) <= all
  {
    BatchIsCovered(some, all, all, versionsFor, targetsFor);
  }

  lemma {:induction false} VersionsOfABatch<P(!new), V(!new)>(from: set<P>, versionsFor: set<P> -> set<V>)
    requires Additive(versionsFor)
    ensures forall v :: v in versionsFor(from) <==> exists p :: p in from && v in versionsFor({p})
    decreases from
  {
    if from != {} {
      var p :| p in from;
      VersionsOfABatch(from - {p}, versionsFor);
      assert from == {p} + (from - {p});
      assert versionsFor(from) == versionsFor({p}) + versionsFor(from - {p});
    }
  }
}
