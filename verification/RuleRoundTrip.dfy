/**
  Decoding and serializing undo each other: a raw rule is accepted with predicate p exactly when p is
  typed by the registry, has at most 128 nodes, and serializes to that raw rule.
 */
module RuleRoundTrip {
  import opened Wrappers
  import opened Ordering
  import opened Calendar
  import opened Facts
  import opened Rules

  // ----- registry-typed predicates

  predicate OperandTyped(op: Op, definition: FactDefinition, value: Operand) {
    if op.In? then
      value.Many? && 1 <= |value.vs| <= MAX_IN_OPERANDS
      && forall i | 0 <= i < |value.vs| :: ValueMatches(definition, value.vs[i])
    else value.One? && ValueMatches(definition, value.v)
  }

  predicate LeafTyped(p: Predicate, definitions: Registry)
    requires !IsBoolean(p.op)
  {
    && p.children == []
    && p.fact.Some? && p.fact.value in definitions
    && var definition := definitions[p.fact.value];
    && (if p.op.Exists? then p.value.NoOperand? && !definition.derived
        else OperandTyped(p.op, definition, p.value)
             && (IsOrdering(p.op) ==> definition.kind.IntegerKind? || definition.kind.DateKind?))
  }

  predicate RuleTyped(p: Predicate, definitions: Registry) {
    if IsBoolean(p.op) then
      && p.fact.None? && p.value.NoOperand?
      && (if p.op.Not? then |p.children| == 1 else |p.children| >= 1)
      && forall i | 0 <= i < |p.children| :: RuleTyped(p.children[i], definitions)
    else LeafTyped(p, definitions)
  }

  function Size(p: Predicate): nat {
    1 + SizeOfAll(p.children)
  }

  function SizeOfAll(ps: seq<Predicate>): nat {
    if ps == [] then 0 else SizeOfAll(ps[..|ps| - 1]) + Size(ps[|ps| - 1])
  }

  // ----- literals

  lemma LiteralRoundTrip(definition: FactDefinition, v: FactValue)
    requires ValueMatches(definition, v)
    ensures DecodeLiteral(definition, EncodeValue(v)) == Some(v)
  {
    if v.DateV? { ReadBackIsoText(v.d); }
  }

  lemma DecodedLiteral(definition: FactDefinition, raw: Json)
    requires DecodeLiteral(definition, raw).Some?
    ensures ValueMatches(definition, DecodeLiteral(definition, raw).value)
    ensures EncodeValue(DecodeLiteral(definition, raw).value) == raw
  {
    if definition.kind.DateKind? {
      IsoTextOfRead(raw.fields["$date"].s);
      assert raw.fields == map["$date" := raw.fields["$date"]];
    }
  }

  // ----- reported once, but never lost

  lemma AddAllEmpty(seen: seq<Diagnostic>, more: seq<Diagnostic>)
    ensures AddAll(seen, more) == [] <==> seen == [] && more == []
  {}

  ghost predicate Clean(node: Located, definitions: Registry) {
    NodeDiagnostics(node.0, node.1, definitions) == []
  }

  ghost function IsClean(definitions: Registry): Located -> bool {
    (node: Located) => Clean(node, definitions)
  }

  ghost predicate AllOf(nodes: seq<Located>, p: Located -> bool) {
    forall i | 0 <= i < |nodes| :: p(nodes[i])
  }

  ghost predicate AllClean(nodes: seq<Located>, definitions: Registry) {
    AllOf(nodes, IsClean(definitions))
  }

  lemma {:induction false} ReportEmpty(lists: seq<seq<Diagnostic>>)
    ensures Report(lists) == [] <==> forall i | 0 <= i < |lists| :: lists[i] == []
  {
    if lists != [] {
      var init, last := lists[..|lists| - 1], lists[|lists| - 1];
      ReportEmpty(init);
      AddAllEmpty(Report(init), last);
      assert forall i | 0 <= i < |init| :: lists[i] == init[i];
    }
  }

  lemma DiagnoseEmpty(nodes: seq<Located>, definitions: Registry)
    ensures Diagnose(nodes, definitions) == [] <==> AllClean(nodes, definitions)
  {
    var lists := seq(|nodes|, i requires 0 <= i < |nodes| => NodeDiagnostics(nodes[i].0, nodes[i].1, definitions));
    ReportEmpty(lists);
    assert forall i | 0 <= i < |nodes| :: lists[i] == [] <==> Clean(nodes[i], definitions);
  }

  ghost predicate EachKid(kids: seq<Json>, path: Path, p: Located -> bool) {
    forall i | 0 <= i < |kids| :: AllOf(Preorder(kids[i], KidPath(path, i)), p)
  }

  lemma EachKidNext(kids: seq<Json>, path: Path, p: Located -> bool)
    requires kids != []
    ensures var last := |kids| - 1;
            EachKid(kids, path, p)
            <==> EachKid(kids[..last], path, p) && AllOf(Preorder(kids[last], KidPath(path, last)), p)
  {
    var init := kids[..|kids| - 1];
    assert forall i | 0 <= i < |init| :: init[i] == kids[i];
  }

  lemma {:induction false} AllOfKids(kids: seq<Json>, path: Path, p: Located -> bool)
    ensures AllOf(PreorderOfKids(kids, path), p) <==> EachKid(kids, path, p)
  {
    if kids != [] {
      var last := |kids| - 1;
      AllOfKids(kids[..last], path, p);
      AllOfConcat(PreorderOfKids(kids[..last], path), Preorder(kids[last], KidPath(path, last)), p);
      EachKidNext(kids, path, p);
    }
  }

  lemma AllOfConcat(a: seq<Located>, b: seq<Located>, p: Located -> bool)
    ensures AllOf(a + b, p) <==> AllOf(a, p) && AllOf(b, p)
  {
    if AllOf(a + b, p) {
      assert forall i | 0 <= i < |a| :: (a + b)[i] == a[i];
      assert forall i | 0 <= i < |b| :: (a + b)[|a| + i] == b[i];
    }
  }

  lemma AllOfPreorder(node: Json, path: Path, p: Located -> bool)
    ensures AllOf(Preorder(node, path), p) <==> p((node, path)) && EachKid(Kids(node), path, p)
  {
    AllOfConcat([(node, path)], PreorderOfKids(Kids(node), path), p);
    AllOfKids(Kids(node), path, p);
    assert [(node, path)][0] == (node, path);
  }

  /** A subtree is clean exactly when its root and the subtrees of its children are. */
  lemma PreorderClean(node: Json, path: Path, definitions: Registry)
    ensures AllClean(Preorder(node, path), definitions)
            <==> Clean((node, path), definitions) && EachKid(Kids(node), path, IsClean(definitions))
  {
    AllOfPreorder(node, path, IsClean(definitions));
  }

  // ----- one node

  lemma BadLiterals(fact: string, decoded: seq<Option<FactValue>>, path: Path, from: nat)
    requires from <= |decoded|
    ensures BadLiteralDiagnostics(fact, decoded, path, from) == []
            <==> forall i | from <= i < |decoded| :: decoded[i].Some?
    decreases |decoded| - from
  {}

  /** A clean Boolean node carries exactly its operator and a usable child list. */
  lemma CleanBoolean(node: Json, path: Path, definitions: Registry)
    requires NodeOp(node).Some? && IsBoolean(NodeOp(node).value)
    ensures NodeDiagnostics(node, path, definitions) == []
            <==> var op := NodeOp(node).value;
                 && Kids(node) != []
                 && node.fields == map["op" := Str(OpName(op)), "children" := Arr(Kids(node))]
  {
    var op := NodeOp(node).value;
    ReadOpInverts(op, node.fields["op"].s);
    var extra := node.fields.Keys - AllowedFields(op);
    if NodeDiagnostics(node, path, definitions) == [] {
      assert |SortedTexts(extra)| == 0;
      assert extra == {};
      assert node.fields.Keys == {"op", "children"};
    }
    if Kids(node) != [] && node.fields == map["op" := Str(OpName(op)), "children" := Arr(Kids(node))] {
      assert extra == {};
      assert SortedTexts(extra) == [];
    }
  }

  lemma OperandClean(op: Op, fact: string, definition: FactDefinition, raw: Json, path: Path)
    ensures OperandDiagnostics(op, fact, definition, raw, path) == []
            <==> OperandTyped(op, definition, DecodeOperand(op, definition, raw))
    ensures OperandDiagnostics(op, fact, definition, raw, path) == [] ==>
              RawOf(DecodeOperand(op, definition, raw)) == raw
  {
    if op.In? {
      if raw.Arr? && 1 <= |raw.items| <= MAX_IN_OPERANDS {
        var decoded := Literals(definition, raw.items);
        BadLiterals(fact, decoded, path, 0);
        forall i | 0 <= i < |decoded| && decoded[i].Some?
          ensures ValueMatches(definition, decoded[i].value) && EncodeValue(decoded[i].value) == raw.items[i]
        {
          DecodedLiteral(definition, raw.items[i]);
        }
      }
    } else if DecodeLiteral(definition, raw).Some? {
      DecodedLiteral(definition, raw);
    }
  }

  /** The raw operand a typed operand serializes to. */
  function RawOf(value: Operand): Json {
    match value
    case NoOperand => Null
    case One(v) => EncodeValue(v)
    case Many(vs) => Arr(seq(|vs|, i requires 0 <= i < |vs| => EncodeValue(vs[i])))
  }

  function LeafFields(op: Op, fact: string, value: Operand): map<string, Json> {
    if op.Exists? then map["op" := Str(OpName(op)), "fact" := Str(fact)]
    else map["op" := Str(OpName(op)), "fact" := Str(fact), "value" := RawOf(value)]
  }

  lemma LeafSerialization(p: Predicate, definitions: Registry)
    requires !IsBoolean(p.op) && LeafTyped(p, definitions)
    ensures Serialize(p) == Obj(LeafFields(p.op, p.fact.value, p.value))
  {}

  /** A clean leaf has exactly the allowed fields and no defect of its own. */
  lemma CleanLeafFields(node: Json, path: Path, definitions: Registry)
    requires NodeOp(node).Some? && !IsBoolean(NodeOp(node).value)
    requires NodeDiagnostics(node, path, definitions) == []
    ensures var op := NodeOp(node).value;
            node.fields.Keys <= AllowedFields(op) && node.fields["op"] == Str(OpName(op))
            && LeafDiagnostics(op, node, path, definitions) == []
  {
    var op := NodeOp(node).value;
    ReadOpInverts(op, node.fields["op"].s);
    var extra := node.fields.Keys - AllowedFields(op);
    assert |SortedTexts(extra)| == 0;
    assert extra == {};
  }

  /** A clean leaf is typed and is the serialization of what it decodes to. */
  lemma CleanLeaf(node: Json, path: Path, definitions: Registry)
    requires NodeOp(node).Some? && !IsBoolean(NodeOp(node).value)
    requires NodeDiagnostics(node, path, definitions) == []
    ensures var p := Tree(node, definitions);
            LeafTyped(p, definitions) && Serialize(p) == node
  {
    var op := NodeOp(node).value;
    CleanLeafFields(node, path, definitions);
    var p := Tree(node, definitions);
    var fact := LeafFact(node).value;
    if !op.Exists? {
      OperandClean(op, fact, definitions[fact], RawOperand(node), path);
      assert RawOf(p.value) != Null;
    }
    assert node.fields == LeafFields(op, fact, p.value);
    LeafSerialization(p, definitions);
  }

  lemma OperandRoundTrip(op: Op, definition: FactDefinition, value: Operand)
    requires OperandTyped(op, definition, value)
    ensures DecodeOperand(op, definition, RawOf(value)) == value
  {
    if op.In? {
      var raw := RawOf(value);
      var decoded := Literals(definition, raw.items);
      forall i | 0 <= i < |value.vs| ensures decoded[i] == Some(value.vs[i]) {
        LiteralRoundTrip(definition, value.vs[i]);
      }
      assert DecodeOperand(op, definition, raw).vs == value.vs;
    } else {
      LiteralRoundTrip(definition, value.v);
    }
  }

  /** A typed leaf serializes to a clean node that decodes to it. */
  lemma TypedLeaf(p: Predicate, path: Path, definitions: Registry)
    requires !IsBoolean(p.op) && LeafTyped(p, definitions)
    ensures NodeDiagnostics(Serialize(p), path, definitions) == []
    ensures Kids(Serialize(p)) == [] && Tree(Serialize(p), definitions) == p
  {
    LeafSerialization(p, definitions);
    var node := Serialize(p);
    var fact := p.fact.value;
    ReadOpInverts(p.op, OpName(p.op));
    assert NodeOp(node) == Some(p.op);
    assert node.fields.Keys - AllowedFields(p.op) == {};
    assert SortedTexts({}) == [];
    assert LeafFact(node) == Some(fact);
    if !p.op.Exists? {
      OperandRoundTrip(p.op, definitions[fact], p.value);
      assert RawOperand(node) == RawOf(p.value);
      OperandClean(p.op, fact, definitions[fact], RawOperand(node), path);
    }
  }

  // ----- whole rules

  /** What a clean raw rule stands for. */
  ghost predicate Reads(node: Json, nodeCount: nat, p: Predicate, definitions: Registry) {
    RuleTyped(p, definitions) && Serialize(p) == node && Size(p) == nodeCount
  }

  lemma {:induction false} CleanRule(node: Json, path: Path, definitions: Registry)
    requires AllClean(Preorder(node, path), definitions)
    ensures Reads(node, |Preorder(node, path)|, Tree(node, definitions), definitions)
    decreases node
  {
    PreorderClean(node, path, definitions);
    var kids := Kids(node);
    KidsAreSmaller(node);
    if IsBoolean(NodeOp(node).value) {
      CleanBoolean(node, path, definitions);
      forall i | 0 <= i < |kids|
        ensures Reads(kids[i], |Preorder(kids[i], KidPath(path, i))|, Tree(kids[i], definitions), definitions)
      {
        CleanRule(kids[i], KidPath(path, i), definitions);
      }
      CleanBranch(node, path, definitions);
    } else {
      CleanLeaf(node, path, definitions);
    }
  }

  lemma SerializesTo(children: seq<Predicate>, kids: seq<Json>)
    requires |children| == |kids| && forall i | 0 <= i < |kids| :: Serialize(children[i]) == kids[i]
    ensures SerializeAll(children) == kids
  {}

  lemma BranchReads(op: Op, kids: seq<Json>, children: seq<Predicate>, path: Path, definitions: Registry)
    requires IsBoolean(op) && kids != [] && (op.Not? ==> |kids| == 1) && |children| == |kids|
    requires forall i | 0 <= i < |kids| ::
               Reads(kids[i], |Preorder(kids[i], KidPath(path, i))|, children[i], definitions)
    ensures var p := Predicate(op, None, NoOperand, children);
            && RuleTyped(p, definitions)
            && Serialize(p) == Obj(map["op" := Str(OpName(op)), "children" := Arr(kids)])
            && Size(p) == 1 + |PreorderOfKids(kids, path)|
  {
    SizesAddUp(kids, children, path);
    SerializesTo(children, kids);
  }

  lemma CleanBranch(node: Json, path: Path, definitions: Registry)
    requires NodeOp(node).Some? && IsBoolean(NodeOp(node).value) && NodeDiagnostics(node, path, definitions) == []
    requires forall i | 0 <= i < |Kids(node)| ::
               Reads(Kids(node)[i], |Preorder(Kids(node)[i], KidPath(path, i))|, Tree(Kids(node)[i], definitions),
                     definitions)
    ensures Reads(node, |Preorder(node, path)|, Tree(node, definitions), definitions)
  {
    var op, kids := NodeOp(node).value, Kids(node);
    CleanBoolean(node, path, definitions);
    KidsAreSmaller(node);
    BranchReads(op, kids, TreesOf(kids, definitions), path, definitions);
    assert Tree(node, definitions) == Predicate(op, None, NoOperand, TreesOf(kids, definitions));
  }

  lemma {:induction false} SizesAddUp(kids: seq<Json>, children: seq<Predicate>, path: Path)
    requires |kids| == |children|
    requires forall i | 0 <= i < |kids| :: Size(children[i]) == |Preorder(kids[i], KidPath(path, i))|
    ensures SizeOfAll(children) == |PreorderOfKids(kids, path)|
  {
    if kids != [] {
      SizesAddUp(kids[..|kids| - 1], children[..|kids| - 1], path);
    }
  }

  lemma {:induction false} TypedRule(p: Predicate, path: Path, definitions: Registry)
    requires RuleTyped(p, definitions)
    ensures AllClean(Preorder(Serialize(p), path), definitions)
    ensures Tree(Serialize(p), definitions) == p
    decreases p
  {
    PreorderClean(Serialize(p), path, definitions);
    if IsBoolean(p.op) {
      TypedBranch(p, path, definitions);
      var kids := Kids(Serialize(p));
      forall i | 0 <= i < |kids|
        ensures AllOf(Preorder(kids[i], KidPath(path, i)), IsClean(definitions))
                && Tree(kids[i], definitions) == p.children[i]
      {
        TypedRule(p.children[i], KidPath(path, i), definitions);
      }
      assert EachKid(kids, path, IsClean(definitions));
      assert TreesOf(kids, definitions) == p.children;
    } else {
      TypedLeaf(p, path, definitions);
      assert EachKid(Kids(Serialize(p)), path, IsClean(definitions));
    }
  }

  lemma TypedBranch(p: Predicate, path: Path, definitions: Registry)
    requires IsBoolean(p.op) && RuleTyped(p, definitions)
    ensures var node := Serialize(p);
            && NodeDiagnostics(node, path, definitions) == []
            && |Kids(node)| == |p.children| > 0
            && (forall i | 0 <= i < |p.children| :: Kids(node)[i] == Serialize(p.children[i]))
            && Tree(node, definitions) == Predicate(p.op, None, NoOperand, TreesOf(Kids(node), definitions))
  {
    var node := Serialize(p);
    ReadOpInverts(p.op, OpName(p.op));
    var kids := SerializeAll(p.children);
    assert node.fields == map["op" := Str(OpName(p.op)), "children" := Arr(kids)];
    assert Kids(node) == kids;
    CleanBoolean(node, path, definitions);
    KidsAreSmaller(node);
  }

  /**
    The decoder accepts exactly the serializations of the registry-typed predicates of at most
    128 nodes, and returns the predicate that was serialized.
   */
  lemma AcceptedExactlyIfSerialized(raw: Json, p: Predicate, definitions: Registry)
    ensures Validation(raw, definitions).rule == Some(p)
            <==> RuleTyped(p, definitions) && Size(p) <= MAX_RULE_NODES && Serialize(p) == raw
  {
    var nodes := Preorder(raw, ROOT);
    DiagnoseEmpty(nodes, definitions);
    if Validation(raw, definitions).rule == Some(p) {
      CleanRule(raw, ROOT, definitions);
    }
    if RuleTyped(p, definitions) && Size(p) <= MAX_RULE_NODES && Serialize(p) == raw {
      TypedRule(p, ROOT, definitions);
      CleanRule(raw, ROOT, definitions);
    }
  }

  /** Without a predicate there is at least one diagnostic, and never both. */
  lemma PredicateOrDiagnostics(raw: Json, definitions: Registry)
    ensures Validation(raw, definitions).rule.Some? <==> Validation(raw, definitions).diagnostics == []
    ensures |Preorder(raw, ROOT)| > MAX_RULE_NODES ==>
              Diagnostic(RuleTooLarge, ROOT) in Validation(raw, definitions).diagnostics
  {}
}
