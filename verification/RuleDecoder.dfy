/**
  `validate_rule_v1`: the bounded decoder with an explicit stack, record ids handed out before the
  children are read, and a bottom-up rebuild. It is proved equal to the recursive reading of
  module Rules, diagnostics included.
 */
module RuleDecoder {
  import opened Wrappers
  import opened Facts
  import opened Rules

  datatype Entry = Entry(node: Json, path: Path, id: nat)
  datatype Record = Record(head: Head, kids: seq<nat>)

  // ----- what is still to be read

  /** The nodes the stack will visit; the top of the stack is its last element. */
  ghost function Pending(stack: seq<Entry>): (r: seq<Located>)
    ensures |r| >= |stack|
  {
    if stack == [] then []
    else
      var top := stack[|stack| - 1];
      Preorder(top.node, top.path) + Pending(stack[..|stack| - 1])
  }

  lemma PendingPush(stack: seq<Entry>, e: Entry)
    ensures Pending(stack + [e]) == Preorder(e.node, e.path) + Pending(stack)
  {
    assert (stack + [e])[..|stack|] == stack;
  }

  /** Equal, or both longer than the cap and equal up to and including the first node past it. */
  ghost predicate SameUpToCap(a: seq<Located>, b: seq<Located>) {
    a == b || (|a| > MAX_RULE_NODES && |b| > MAX_RULE_NODES && a[..MAX_RULE_NODES + 1] == b[..MAX_RULE_NODES + 1])
  }

  lemma {:induction false} KidPrefix(kids: seq<Json>, path: Path, n: nat)
    requires n <= |kids|
    ensures |PreorderOfKids(kids[..n], path)| <= |PreorderOfKids(kids, path)|
    ensures PreorderOfKids(kids, path)[..|PreorderOfKids(kids[..n], path)|] == PreorderOfKids(kids[..n], path)
    decreases |kids|
  {
    if n == |kids| {
      assert kids[..n] == kids;
    } else {
      var init := kids[..|kids| - 1];
      KidPrefix(init, path, n);
      assert init[..n] == kids[..n];
    }
  }

  /** Dropping children past the remaining capacity changes nothing the decoder can still see. */
  lemma TruncationIsInvisible(done: seq<Located>, kids: seq<Json>, path: Path, n: nat, rest: seq<Located>)
    requires n <= |kids|
    requires n == |kids| || |done| + n >= MAX_RULE_NODES + 1
    ensures SameUpToCap(done + (PreorderOfKids(kids[..n], path) + rest), done + (PreorderOfKids(kids, path) + rest))
  {
    if n == |kids| {
      assert kids[..n] == kids;
    } else {
      KidPrefix(kids, path, n);
      var short, long := PreorderOfKids(kids[..n], path), PreorderOfKids(kids, path);
      var a, b := done + (short + rest), done + (long + rest);
      var cap := MAX_RULE_NODES + 1;
      assert |done| + |short| >= cap;
      assert a[..cap] == (done + short)[..cap];
      assert b[..cap] == (done + long)[..cap];
      assert (done + long)[..|done| + |short|] == done + short;
    }
  }

  lemma SameUpToCapTransitive(a: seq<Located>, b: seq<Located>, c: seq<Located>)
    requires SameUpToCap(a, b) && SameUpToCap(b, c)
    ensures SameUpToCap(a, c)
  {}

  function KidEntry(kids: seq<Json>, path: Path, first: nat, i: nat): Entry
    requires i < |kids|
  {
    Entry(kids[i], KidPath(path, i), first + i)
  }

  /** The children are pushed last first, so that child 0 ends up on top. */
  ghost predicate Pushed(stack: seq<Entry>, kids: seq<Json>, path: Path, first: nat, r: seq<Entry>) {
    && |stack| <= |r| <= |stack| + |kids|
    && r[..|stack|] == stack
    && forall k | |stack| <= k < |r| :: r[k] == KidEntry(kids, path, first, |stack| + |kids| - 1 - k)
  }

  method PushChildren(stack: seq<Entry>, kids: seq<Json>, path: Path, first: nat) returns (r: seq<Entry>)
    ensures |r| == |stack| + |kids| && Pushed(stack, kids, path, first, r)
    ensures Pending(r) == PreorderOfKids(kids, path) + Pending(stack)
  {
    r := stack;
    var index: nat := |kids|;
    assert kids[..index] == kids;
    while index > 0
      invariant 0 <= index <= |kids|
      invariant |r| == |stack| + |kids| - index && Pushed(stack, kids, path, first, r)
      invariant PreorderOfKids(kids[..index], path) + Pending(r) == PreorderOfKids(kids, path) + Pending(stack)
    {
      PushOne(kids, path, r, first, index);
      PushedMore(stack, kids, path, first, r);
      index := index - 1;
      r := r + [KidEntry(kids, path, first, index)];
    }
  }

  lemma PushOne(kids: seq<Json>, path: Path, r: seq<Entry>, first: nat, index: nat)
    requires 0 < index <= |kids|
    ensures PreorderOfKids(kids[..index - 1], path) + Pending(r + [KidEntry(kids, path, first, index - 1)])
            == PreorderOfKids(kids[..index], path) + Pending(r)
  {
    var last := index - 1;
    assert kids[..index][..last] == kids[..last];
    PendingPush(r, KidEntry(kids, path, first, last));
    Associative(PreorderOfKids(kids[..last], path), Preorder(kids[last], KidPath(path, last)), Pending(r));
  }

  lemma PushedMore(stack: seq<Entry>, kids: seq<Json>, path: Path, first: nat, r: seq<Entry>)
    requires Pushed(stack, kids, path, first, r) && |r| < |stack| + |kids|
    ensures Pushed(stack, kids, path, first, r + [KidEntry(kids, path, first, |stack| + |kids| - 1 - |r|)])
  {}

  lemma Associative<T>(a: seq<T>, b: seq<T>, c: seq<T>)
    ensures (a + b) + c == a + (b + c)
  {}

  // ----- what has been read

  /** Record `id` stands for the raw node `src[id]`; its child ids come later and stand for its children. */
  ghost predicate Linked(records: seq<Option<Record>>, src: seq<Json>, id: nat, truncated: bool, definitions: Registry)
    requires id < |records| == |src|
  {
    && records[id].Some?
    && var r := records[id].value;
    && NodeHead(src[id], definitions) == Some(r.head)
    && |r.kids| <= |Kids(src[id])|
    && (!truncated ==> |r.kids| == |Kids(src[id])|)
    && forall i | 0 <= i < |r.kids| :: id < r.kids[i] < |records| && src[r.kids[i]] == Kids(src[id])[i]
  }

  lemma DiagnoseNext(done: seq<Located>, node: Json, path: Path, definitions: Registry)
    ensures Diagnose(done + [(node, path)], definitions)
            == AddAll(Diagnose(done, definitions), NodeDiagnostics(node, path, definitions))
  {
    var more, nodes := NodeDiagnostics(node, path, definitions), done + [(node, path)];
    var lists := seq(|done|, i requires 0 <= i < |done| => NodeDiagnostics(done[i].0, done[i].1, definitions));
    assert seq(|nodes|, i requires 0 <= i < |nodes| => NodeDiagnostics(nodes[i].0, nodes[i].1, definitions))
           == lists + [more];
    assert (lists + [more])[..|lists|] == lists;
  }

  lemma AddAllKeeps(seen: seq<Diagnostic>, more: seq<Diagnostic>)
    ensures |AddAll(seen, more)| >= |seen|
    ensures more != [] ==> AddAll(seen, more) != []
  {}

  /** A node without diagnostics has a record. */
  lemma CleanNodeHasHead(node: Json, path: Path, definitions: Registry)
    requires NodeDiagnostics(node, path, definitions) == []
    ensures NodeHead(node, definitions).Some?
  {}

  /** The rebuild of one record agrees with the recursive reading once its children do. */
  lemma RebuildStep(records: seq<Option<Record>>, src: seq<Json>, id: nat, definitions: Registry,
                    built: seq<Option<Predicate>>, children: seq<Predicate>)
    requires id < |records| == |src| == |built|
    requires Linked(records, src, id, false, definitions)
    requires forall j | id < j < |src| :: built[j] == Some(Tree(src[j], definitions))
    requires |children| == |records[id].value.kids|
    requires forall i | 0 <= i < |children| ::
               records[id].value.kids[i] < |built| && Some(children[i]) == built[records[id].value.kids[i]]
    ensures var r := records[id].value;
            Predicate(r.head.op, r.head.fact, r.head.value, children) == Tree(src[id], definitions)
  {
    var kids := Kids(src[id]);
    KidsAreSmaller(src[id]);
    assert forall i | 0 <= i < |children| :: children[i] == Tree(kids[i], definitions);
    if kids == [] {
      assert children == [];
    } else {
      assert children == TreesOf(kids, definitions);
    }
  }

  lemma PreorderUnfolds(node: Json, path: Path)
    ensures Preorder(node, path) == [(node, path)] + PreorderOfKids(Kids(node), path)
  {}

  /** Reading one node and pushing its children keeps the visit order, up to the cap. */
  lemma ReadOne(done: seq<Located>, node: Json, path: Path, n: nat, rest: seq<Located>, nodes: seq<Located>)
    requires SameUpToCap(done + (Preorder(node, path) + rest), nodes)
    requires n <= |Kids(node)| && (n == |Kids(node)| || |done| + 1 + n >= MAX_RULE_NODES + 1)
    ensures SameUpToCap(done + [(node, path)] + (PreorderOfKids(Kids(node)[..n], path) + rest), nodes)
  {
    var below, done' := PreorderOfKids(Kids(node), path), done + [(node, path)];
    TruncationIsInvisible(done', Kids(node), path, n, rest);
    PreorderUnfolds(node, path);
    Associative([(node, path)], below, rest);
    Associative(done, [(node, path)], below + rest);
    SameUpToCapTransitive(done' + (PreorderOfKids(Kids(node)[..n], path) + rest), done' + (below + rest), nodes);
  }

  ghost predicate OnStack(stack: seq<Entry>, id: nat) {
    exists k | 0 <= k < |stack| :: stack[k].id == id
  }

  ghost predicate StackOf(stack: seq<Entry>, src: seq<Json>) {
    && (forall k | 0 <= k < |stack| :: stack[k].id < |src| && src[stack[k].id] == stack[k].node)
    && (forall j, k | 0 <= j < k < |stack| :: stack[j].id != stack[k].id)
  }

  /** Handing out fresh ids keeps every id on the stack at most once and forgets none. */
  lemma StackStep(before: seq<Entry>, src: seq<Json>, kids: seq<Json>, path: Path, stack: seq<Entry>)
    requires before != [] && StackOf(before, src)
    requires |stack| == |before| - 1 + |kids| && Pushed(before[..|before| - 1], kids, path, |src|, stack)
    ensures StackOf(stack, src + kids)
    ensures forall i | |src| <= i < |src| + |kids| :: OnStack(stack, i)
    ensures forall i | OnStack(before, i) && i != before[|before| - 1].id :: OnStack(stack, i)
  {
    var rest := |before| - 1;
    assert forall k | 0 <= k < rest :: stack[k] == stack[..rest][k] == before[k];
    forall i | |src| <= i < |src| + |kids| ensures OnStack(stack, i) {
      assert stack[rest + |kids| - 1 - (i - |src|)].id == i;
    }
    forall i | OnStack(before, i) && i != before[rest].id ensures OnStack(stack, i) {
      var k :| 0 <= k < |before| && before[k].id == i;
      assert stack[k].id == i;
    }
  }

  /** Every id is waiting on the stack or has its final record. */
  ghost predicate Accounted(stack: seq<Entry>, records: seq<Option<Record>>, src: seq<Json>, truncated: bool,
                            definitions: Registry)
    requires |records| == |src|
  {
    forall id | 0 <= id < |records| :: OnStack(stack, id) || Linked(records, src, id, truncated, definitions)
  }

  function ChildIds(first: nat, n: nat): seq<nat> {
    seq(n, i requires 0 <= i < n => first + i)
  }

  lemma AccountedStep(before: seq<Entry>, stack: seq<Entry>, records: seq<Option<Record>>, src: seq<Json>,
                      truncated: bool, n: nat, definitions: Registry, records': seq<Option<Record>>)
    requires before != [] && |records| == |src| && StackOf(before, src)
    requires Accounted(before, records, src, truncated, definitions)
    requires var top := before[|before| - 1];
             && n <= |Kids(top.node)|
             && NodeHead(top.node, definitions).Some?
             && records' == (records + seq(n, _ => None))
                            [top.id := Some(Record(NodeHead(top.node, definitions).value, ChildIds(|records|, n)))]
    requires forall i | |src| <= i < |src| + n :: OnStack(stack, i)
    requires forall i | OnStack(before, i) && i != before[|before| - 1].id :: OnStack(stack, i)
    ensures var kids := Kids(before[|before| - 1].node);
            Accounted(stack, records', src + kids[..n], truncated || n < |kids|, definitions)
  {
    var top := before[|before| - 1];
    var kids := Kids(top.node);
    var src', truncated' := src + kids[..n], truncated || n < |kids|;
    forall j | 0 <= j < |records'| && !OnStack(stack, j)
      ensures Linked(records', src', j, truncated', definitions)
    {
      if j != top.id {
        assert Linked(records, src, j, truncated, definitions);
        assert records'[j] == records[j];
      }
    }
  }

  /** What the run has done so far: nodes read, raw node of each record id, whether children were cut off. */
  datatype History = History(done: seq<Located>, src: seq<Json>, truncated: bool)

  ghost predicate Invariant(h: History, raw: Json, stack: seq<Entry>, records: seq<Option<Record>>,
                            diagnostics: seq<Diagnostic>, definitions: Registry)
  {
    && |h.done| <= MAX_RULE_NODES
    && SameUpToCap(h.done + Pending(stack), Preorder(raw, ROOT))
    && diagnostics == Diagnose(h.done, definitions)
    && (h.truncated ==> |h.done| + |stack| > MAX_RULE_NODES)
    && |h.src| == |records| > 0 && h.src[0] == raw
    && StackOf(stack, h.src)
    && (diagnostics == [] ==> Accounted(stack, records, h.src, h.truncated, definitions))
  }

  /** How many children may still be visited: one more than the cap leaves, so that the cap is noticed. */
  function VisitCount(node: Json, nodeCount: nat): nat
    requires nodeCount <= MAX_RULE_NODES
  {
    var capacity := MAX_RULE_NODES - nodeCount + 1;
    if |Kids(node)| <= capacity then |Kids(node)| else capacity
  }

  /** One turn of the loop below the cap. */
  method ReadNode(ghost h: History, raw: Json, stack: seq<Entry>, records: seq<Option<Record>>,
                  diagnostics: seq<Diagnostic>, definitions: Registry, nodeCount: nat)
    returns (ghost h': History, stack': seq<Entry>, records': seq<Option<Record>>, diagnostics': seq<Diagnostic>)
    requires stack != [] && nodeCount == |h.done| + 1 <= MAX_RULE_NODES
    requires Invariant(h, raw, stack, records, diagnostics, definitions)
    ensures Invariant(h', raw, stack', records', diagnostics', definitions)
    ensures |h'.done| == nodeCount
    ensures var top, visited := stack[|stack| - 1], VisitCount(stack[|stack| - 1].node, nodeCount);
            && diagnostics' == AddAll(diagnostics, NodeDiagnostics(top.node, top.path, definitions))
            && |stack'| == |stack| - 1 + visited && |records'| == |records| + visited
  {
    var Entry(node, path, id) := stack[|stack| - 1];
    ghost var rest := stack[..|stack| - 1];
    diagnostics' := AddAll(diagnostics, NodeDiagnostics(node, path, definitions));
    var kids := Kids(node);
    var visitCount := VisitCount(node, nodeCount);
    var first := |records|;
    stack' := PushChildren(stack[..|stack| - 1], kids[..visitCount], path, first);
    records' := records + seq(visitCount, _ => None);
    var head := NodeHead(node, definitions);
    if head.Some? {
      records' := records'[id := Some(Record(head.value, ChildIds(first, visitCount)))];
    }
    h' := History(h.done + [(node, path)], h.src + kids[..visitCount], h.truncated || visitCount < |kids|);
    ReadNodeStep(h, raw, stack, records, diagnostics, definitions, visitCount, stack', records');
  }

  lemma ReadNodeStep(h: History, raw: Json, stack: seq<Entry>, records: seq<Option<Record>>,
                     diagnostics: seq<Diagnostic>, definitions: Registry,
                     n: nat, stack': seq<Entry>, records': seq<Option<Record>>)
    requires stack != [] && |h.done| < MAX_RULE_NODES
    requires Invariant(h, raw, stack, records, diagnostics, definitions)
    requires var top, rest := stack[|stack| - 1], stack[..|stack| - 1];
             var kids := Kids(top.node);
             && n <= |kids| && (n == |kids| || |h.done| + 1 + n == MAX_RULE_NODES + 1)
             && |stack'| == |rest| + n && Pushed(rest, kids[..n], top.path, |records|, stack')
             && Pending(stack') == PreorderOfKids(kids[..n], top.path) + Pending(rest)
             && |records'| == |records| + n
             && (NodeHead(top.node, definitions).Some? ==>
                   records' == (records + seq(n, _ => None))
                               [top.id := Some(Record(NodeHead(top.node, definitions).value, ChildIds(|records|, n)))])
    ensures var top := stack[|stack| - 1];
            var kids := Kids(top.node);
            Invariant(History(h.done + [(top.node, top.path)], h.src + kids[..n], h.truncated || n < |kids|),
                      raw, stack', records', AddAll(diagnostics, NodeDiagnostics(top.node, top.path, definitions)),
                          definitions)
  {
    var top := stack[|stack| - 1];
    var kids := Kids(top.node);
    var more := NodeDiagnostics(top.node, top.path, definitions);
    NodesStep(h.done, raw, stack, n, stack');
    DiagnoseNext(h.done, top.node, top.path, definitions);
    AddAllKeeps(diagnostics, more);
    StackStep(stack, h.src, kids[..n], top.path, stack');
    if AddAll(diagnostics, more) == [] {
      CleanNodeHasHead(top.node, top.path, definitions);
      AccountedStep(stack, stack', records, h.src, h.truncated, n, definitions, records');
    }
  }

  lemma NodesStep(done: seq<Located>, raw: Json, stack: seq<Entry>, n: nat, stack': seq<Entry>)
    requires stack != [] && SameUpToCap(done + Pending(stack), Preorder(raw, ROOT))
    requires var top, rest := stack[|stack| - 1], stack[..|stack| - 1];
             var kids := Kids(top.node);
             && n <= |kids| && (n == |kids| || |done| + 1 + n == MAX_RULE_NODES + 1)
             && Pending(stack') == PreorderOfKids(kids[..n], top.path) + Pending(rest)
    ensures var top := stack[|stack| - 1];
            SameUpToCap(done + [(top.node, top.path)] + Pending(stack'), Preorder(raw, ROOT))
  {
    var top, rest := stack[|stack| - 1], stack[..|stack| - 1];
    ReadOne(done, top.node, top.path, n, Pending(rest), Preorder(raw, ROOT));
  }

  lemma CapReached(h: History, raw: Json, stack: seq<Entry>, records: seq<Option<Record>>,
                   diagnostics: seq<Diagnostic>, definitions: Registry)
    requires stack != [] && |h.done| == MAX_RULE_NODES
    requires Invariant(h, raw, stack, records, diagnostics, definitions)
    ensures |Preorder(raw, ROOT)| > MAX_RULE_NODES
    ensures h.done == Preorder(raw, ROOT)[..MAX_RULE_NODES]
  {
    var all := h.done + Pending(stack);
    assert |all| > MAX_RULE_NODES;
    assert h.done == all[..MAX_RULE_NODES + 1][..MAX_RULE_NODES];
  }

  lemma AllRead(h: History, raw: Json, records: seq<Option<Record>>, diagnostics: seq<Diagnostic>,
                definitions: Registry)
    requires Invariant(h, raw, [], records, diagnostics, definitions)
    ensures h.done == Preorder(raw, ROOT)
    ensures diagnostics == [] ==> forall id | 0 <= id < |records| :: Linked(records, h.src, id, false, definitions)
  {
    assert h.done + Pending([]) == h.done;
  }

  lemma Started(raw: Json, definitions: Registry)
    ensures Invariant(History([], [raw], false), raw, [Entry(raw, ROOT, 0)], [None], [], definitions)
  {
    var stack := [Entry(raw, ROOT, 0)];
    PendingPush([], stack[0]);
    assert [] + Pending(stack) == Preorder(raw, ROOT);
    assert stack[0].id == 0;
    assert OnStack(stack, 0);
  }

  method ValidateRule(raw: Json, definitions: Registry) returns (r: RuleValidation)
    ensures r == Validation(raw, definitions)
  {
    var diagnostics: seq<Diagnostic> := [];
    var records: seq<Option<Record>> := [None];
    var stack: seq<Entry> := [Entry(raw, ROOT, 0)];
    var nodeCount: nat := 0;
    var tooLarge := false;
    ghost var h := History([], [raw], false);
    Started(raw, definitions);

    while stack != []
      invariant !tooLarge && nodeCount == |h.done|
      invariant Invariant(h, raw, stack, records, diagnostics, definitions)
      decreases MAX_RULE_NODES - nodeCount
    {
      nodeCount := nodeCount + 1;
      if nodeCount > MAX_RULE_NODES {
        CapReached(h, raw, stack, records, diagnostics, definitions);
        diagnostics := AddDiagnostic(diagnostics, Diagnostic(RuleTooLarge, ROOT));
        tooLarge := true;
        break;
      }
      h, stack, records, diagnostics := ReadNode(h, raw, stack, records, diagnostics, definitions, nodeCount);
    }

    if diagnostics != [] {
      if !tooLarge { AllRead(h, raw, records, diagnostics, definitions); }
      r := RuleValidation(None, diagnostics);
    } else {
      AllRead(h, raw, records, diagnostics, definitions);
      var rule := Rebuild(records, h.src, definitions);
      r := RuleValidation(Some(rule), []);
    }
  }

  /** Children have larger ids than their parent, so one backwards pass builds every node once. */
  method Rebuild(records: seq<Option<Record>>, ghost src: seq<Json>, definitions: Registry) returns (rule: Predicate)
    requires |records| == |src| > 0
    requires forall id | 0 <= id < |records| :: Linked(records, src, id, false, definitions)
    ensures rule == Tree(src[0], definitions)
  {
    var predicates: seq<Option<Predicate>> := seq(|records|, _ => None);
    var index: nat := |records|;
    while index > 0
      invariant 0 <= index <= |records| == |predicates|
      invariant forall j | index <= j < |records| :: predicates[j] == Some(Tree(src[j], definitions))
    {
      index := index - 1;
      assert Linked(records, src, index, false, definitions);  // the defensive "missing record" branch is dead
      var record := records[index].value;
      var kids := record.kids;
      var children := seq(|kids|, i requires 0 <= i < |kids| && kids[i] < |predicates| && predicates[kids[i]].Some? =>
                                    predicates[kids[i]].value);
      RebuildStep(records, src, index, definitions, predicates, children);
      predicates := predicates[index := Some(Predicate(record.head.op, record.head.fact, record.head.value, children))];
    }
    rule := predicates[0].value;
  }
}
