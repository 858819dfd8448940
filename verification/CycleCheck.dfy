/** `_has_blocking_cycle` (knowledge/procedure_dependencies.py): depth-first search with two colours. */
module CycleCheck {
  /** A directed edge: a version of the first Procedure depends on the second. */
  type Edge = (string, string)

  // ----- cycles

  ghost predicate IsWalk(edges: set<Edge>, path: seq<string>) {
    forall i | 0 <= i < |path| - 1 :: (path[i], path[i + 1]) in edges
  }

  ghost predicate IsCycle(edges: set<Edge>, path: seq<string>) {
    |path| >= 2 && IsWalk(edges, path) && path[0] == path[|path| - 1]
  }

  ghost predicate HasCycle(edges: set<Edge>) {
    exists path :: IsCycle(edges, path)
  }

  /** Removing edges never creates a cycle. */
  lemma FewerEdgesFewerCycles(fewer: set<Edge>, more: set<Edge>)
    requires fewer <= more && HasCycle(fewer)
    ensures HasCycle(more)
  {
    var path :| IsCycle(fewer, path);
    assert IsCycle(more, path);
  }

  // ----- the search

  function Successors(edges: map<string, set<string>>, node: string): set<string> {
    if node in edges then edges[node] else {}
  }

  function EdgesOf(edges: map<string, set<string>>): set<Edge> {
    set a, b | a in edges && b in edges[a] :: (a, b)
  }

  function Nodes(edges: map<string, set<string>>): set<string> {
    edges.Keys + set a, b | a in edges && b in edges[a] :: b
  }

  /** Finished nodes lead only to finished nodes, and lie on no cycle. */
  ghost predicate Finished(edges: map<string, set<string>>, visited: set<string>) {
    && (forall n | n in visited :: Successors(edges, n) <= visited)
    && forall path | IsCycle(EdgesOf(edges), path) :: path[0] !in visited
  }

  /** The nodes being visited, in order: each the successor of the one before, the next node a successor of the last. */
  ghost predicate Stacked(edges: map<string, set<string>>, stack: seq<string>, visiting: set<string>, node: string) {
    && (forall n :: n in visiting <==> n in stack)
    && IsWalk(EdgesOf(edges), stack + [node])
  }

  lemma {:induction false} WalkStaysInside(edges: map<string, set<string>>, visited: set<string>, path: seq<string>)
    requires Finished(edges, visited)
    requires path != [] && IsWalk(EdgesOf(edges), path) && path[0] in visited
    ensures path[|path| - 1] in visited
  {
    if |path| > 1 {
      assert (path[0], path[1]) in EdgesOf(edges);
      WalkStaysInside(edges, visited, path[1..]);
    }
  }

  /** A node whose successors are all finished is finished. */
  lemma OneMoreFinished(edges: map<string, set<string>>, visited: set<string>, node: string)
    requires Finished(edges, visited) && node !in visited && Successors(edges, node) <= visited
    ensures Finished(edges, visited + {node})
  {
    forall path | IsCycle(EdgesOf(edges), path) ensures path[0] != node {
      if path[0] == node {
        assert (path[0], path[1]) in EdgesOf(edges);
        WalkStaysInside(edges, visited, path[1..]);
        assert false;
      }
    }
  }

  /** Meeting a node that is still being visited closes a cycle. */
  lemma BackEdgeIsCycle(edges: map<string, set<string>>, stack: seq<string>, visiting: set<string>, node: string)
    requires Stacked(edges, stack, visiting, node) && node in visiting
    ensures HasCycle(EdgesOf(edges))
  {
    var i :| 0 <= i < |stack| && stack[i] == node;
    var path := (stack + [node])[i..];
    assert IsWalk(EdgesOf(edges), path);
    assert IsCycle(EdgesOf(edges), path);
  }

  lemma AllFinished(edges: map<string, set<string>>, visited: set<string>)
    requires Finished(edges, visited) && edges.Keys <= visited
    ensures !HasCycle(EdgesOf(edges))
  {
    if HasCycle(EdgesOf(edges)) {
      var path :| IsCycle(EdgesOf(edges), path);
      StartHasEdge(edges, path);
      assert false;
    }
  }

  lemma StartHasEdge(edges: map<string, set<string>>, path: seq<string>)
    requires IsCycle(EdgesOf(edges), path)
    ensures path[0] in edges
  {
    assert (path[0], path[1]) in EdgesOf(edges);
  }

  class Search {
    const edges: map<string, set<string>>
    var visiting: set<string>
    var visited: set<string>

    constructor (edges: map<string, set<string>>)
      ensures this.edges == edges && visiting == {} && visited == {}
    {
      this.edges := edges;
      visiting, visited := {}, {};
    }

    /** `visit`; the ghost `stack` lists `visiting` in order. */
    method Visit(node: string, ghost stack: seq<string>) returns (found: bool)
      requires node in Nodes(edges) && visiting <= Nodes(edges)
      requires visiting !! visited && Finished(edges, visited) && Stacked(edges, stack, visiting, node)
      modifies this
      ensures found ==> HasCycle(EdgesOf(edges))
      ensures !found ==>
                && visiting == old(visiting) && visiting !! visited && Finished(edges, visited)
                && visited >= old(visited) + {node}
      decreases Nodes(edges) - visiting
    {
      if node in visiting {
        BackEdgeIsCycle(edges, stack, visiting, node);
        return true;
      }
      if node in visited {
        return false;
      }
      visiting := visiting + {node};
      var todo := Successors(edges, node);
      while todo != {}
        invariant todo <= Successors(edges, node)
        invariant visiting == old(visiting) + {node} && visiting !! visited && Finished(edges, visited)
        invariant visited >= old(visited) + (Successors(edges, node) - todo)
        decreases todo
      {
        var target :| target in todo;
        assert (node, target) in EdgesOf(edges);
        var closes := Visit(target, stack + [node]);
        if closes {
          return true;
        }
        todo := todo - {target};
      }
      visiting := visiting - {node};
      OneMoreFinished(edges, visited, node);
      visited := visited + {node};
      return false;
    }
  }

  /** One stored dependency row. */
  datatype Row = Row(from: string, target: string, blocking: bool)

  function BlockingEdges(rows: seq<Row>): set<Edge> {
    set r | r in rows && r.blocking :: (r.from, r.target)
  }

  lemma BlockingEdgesNext(rows: seq<Row>, n: nat)
    requires n < |rows|
    ensures BlockingEdges(rows[..n + 1])
            == BlockingEdges(rows[..n]) + (if rows[n].blocking then {(rows[n].from, rows[n].target)} else {})
  {
    assert rows[..n + 1] == rows[..n] + [rows[n]];
  }

  /** True exactly when the blocking dependencies contain a directed cycle; terminates on every graph. */
  method HasBlockingCycle(rows: seq<Row>) returns (found: bool)
    ensures found <==> HasCycle(BlockingEdges(rows))
  {
    var edges: map<string, set<string>> := map[];
    for n := 0 to |rows|
      invariant EdgesOf(edges) == BlockingEdges(rows[..n])
    {
      BlockingEdgesNext(rows, n);
      if rows[n].blocking {
        edges := edges[rows[n].from := Successors(edges, rows[n].from) + {rows[n].target}];
      }
    }
    assert rows[..|rows|] == rows;
    var search := new Search(edges);
    var todo := edges.Keys;
    while todo != {}
      invariant todo <= edges.Keys && search.edges == edges
      invariant search.visiting == {} && Finished(edges, search.visited) && edges.Keys - todo <= search.visited
      decreases todo
    {
      var node :| node in todo;
      found := search.Visit(node, []);
      if found {
        return;
      }
      todo := todo - {node};
    }
    found := false;
    AllFinished(edges, search.visited);
  }
}
