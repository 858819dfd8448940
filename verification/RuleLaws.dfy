/**
  The documents the rule decoder accepts, written out member by member, and every diagnostic it reports by its exact
  condition (planning/rules.py, planning/facts.py).
 */
module RuleLaws {
  import opened Wrappers
  import opened Ordering
  import opened Calendar
  import opened Facts
  import opened Rules
  import opened RuleRoundTrip

  // ----- values and submissions

  /** What a Fact of this definition may be. */
  predicate Fits(definition: FactDefinition, v: FactValue) {
    match v
    case BoolV(_) => definition.kind == BooleanKind
    case IntV(i) => definition.kind == IntegerKind && (definition.minimum == None || definition.minimum.value <= i)
    case DateV(_) => definition.kind == DateKind
    case TextV(t) => definition.kind == StringKind || (definition.kind == EnumKind && t in definition.enumValues)
  }

  lemma MatchesExactlyIf(definition: FactDefinition, v: FactValue)
    ensures ValueMatches(definition, v) <==> Fits(definition, v)
  {}

  /** One submitted value is refused for the first of three reasons that holds. */
  lemma RefusedAs(definitions: Registry, key: string, raw: RawValue)
    ensures FactDefect(definitions, key, raw) == Some(UnsupportedFactKey(key)) <==> key !in definitions
    ensures FactDefect(definitions, key, raw) == Some(DerivedFactCannotBeSubmitted(key))
            <==> key in definitions && definitions[key].derived
    ensures FactDefect(definitions, key, raw) == Some(InvalidFactValue(key))
            <==> key in definitions && !definitions[key].derived && (raw.Foreign? || !Fits(definitions[key], raw.v))
    ensures FactDefect(definitions, key, raw) == None
            <==> key in definitions && !definitions[key].derived && raw.Typed? && Fits(definitions[key], raw.v)
  {
    if key in definitions && raw.Typed? { MatchesExactlyIf(definitions[key], raw.v); }
  }

  // ----- accepted documents

  lemma NamesAre()
    ensures OpName(All) == "all" && OpName(Any) == "any" && OpName(Not) == "not" && OpName(Eq) == "eq"
    ensures OpName(In) == "in" && OpName(Lt) == "lt" && OpName(Lte) == "lte" && OpName(Gt) == "gt"
    ensures OpName(Gte) == "gte" && OpName(Exists) == "exists"
  {}

  predicate WritesLiteral(v: FactValue, raw: Json) {
    match v
    case BoolV(b) => raw == Bool(b)
    case IntV(i) => raw == Int(i)
    case TextV(t) => raw == Str(t)
    case DateV(d) => raw.Obj? && raw.fields.Keys == {"$date"} && raw.fields["$date"] == Str(IsoText(d))
  }

  /** The document that writes this predicate: an operator with its children, or a Fact with its operand. */
  ghost predicate Writes(p: Predicate, raw: Json)
    decreases p
  {
    && raw.Obj? && "op" in raw.fields && raw.fields["op"] == Str(OpName(p.op))
    && match p.op
       case All | Any | Not =>
         && raw.fields.Keys == {"op", "children"} && raw.fields["children"].Arr?
         && |raw.fields["children"].items| == |p.children|
         && forall i | 0 <= i < |p.children| :: Writes(p.children[i], raw.fields["children"].items[i])
       case Exists => raw.fields.Keys == {"op", "fact"} && p.fact.Some? && raw.fields["fact"] == Str(p.fact.value)
       case In =>
         && raw.fields.Keys == {"op", "fact", "value"} && p.fact.Some? && raw.fields["fact"] == Str(p.fact.value)
         && p.value.Many? && raw.fields["value"].Arr? && |raw.fields["value"].items| == |p.value.vs|
         && forall i | 0 <= i < |p.value.vs| :: WritesLiteral(p.value.vs[i], raw.fields["value"].items[i])
       case _ =>
         && raw.fields.Keys == {"op", "fact", "value"} && p.fact.Some? && raw.fields["fact"] == Str(p.fact.value)
         && p.value.One? && WritesLiteral(p.value.v, raw.fields["value"])
  }

  /** The predicate respects the registry. */
  ghost predicate Admissible(p: Predicate, definitions: Registry)
    decreases p
  {
    match p.op
    case All | Any =>
      && p.fact.None? && p.value.NoOperand? && p.children != []
      && forall i | 0 <= i < |p.children| :: Admissible(p.children[i], definitions)
    case Not => p.fact.None? && p.value.NoOperand? && |p.children| == 1 && Admissible(p.children[0], definitions)
    case Exists =>
      && p.children == [] && p.fact.Some? && p.fact.value in definitions && p.value.NoOperand?
      && !definitions[p.fact.value].derived
    case Eq =>
      && p.children == [] && p.fact.Some? && p.fact.value in definitions && p.value.One?
      && Fits(definitions[p.fact.value], p.value.v)
    case In =>
      && p.children == [] && p.fact.Some? && p.fact.value in definitions && p.value.Many? && 1 <= |p.value.vs| <= 128
      && forall i | 0 <= i < |p.value.vs| :: Fits(definitions[p.fact.value], p.value.vs[i])
    case _ =>
      && p.children == [] && p.fact.Some? && p.fact.value in definitions && p.value.One?
      && Fits(definitions[p.fact.value], p.value.v) && definitions[p.fact.value].kind in {IntegerKind, DateKind}
  }

  lemma LeafAdmissible(p: Predicate, definitions: Registry)
    requires !IsBoolean(p.op)
    ensures Admissible(p, definitions) <==> LeafTyped(p, definitions)
  {
    if p.fact.Some? && p.fact.value in definitions {
      var definition := definitions[p.fact.value];
      if p.value.One? { MatchesExactlyIf(definition, p.value.v); }
      if p.value.Many? {
        forall i | 0 <= i < |p.value.vs| { MatchesExactlyIf(definition, p.value.vs[i]); }
      }
    }
  }

  lemma {:induction false} AdmissibleExactlyIf(p: Predicate, definitions: Registry)
    ensures Admissible(p, definitions) <==> RuleTyped(p, definitions)
    decreases p
  {
    if IsBoolean(p.op) {
      forall i | 0 <= i < |p.children| { AdmissibleExactlyIf(p.children[i], definitions); }
    } else {
      LeafAdmissible(p, definitions);
    }
  }

  lemma LiteralWritten(v: FactValue, raw: Json)
    ensures WritesLiteral(v, raw) <==> raw == EncodeValue(v)
  {
    if v.DateV? && raw.Obj? && raw.fields.Keys == {"$date"} && raw.fields["$date"] == Str(IsoText(v.d)) {
      assert raw.fields == map["$date" := Str(IsoText(v.d))];
    }
  }

  lemma LeafWritten(p: Predicate, raw: Json, definitions: Registry)
    requires !IsBoolean(p.op) && LeafTyped(p, definitions)
    ensures Writes(p, raw) <==> raw == Serialize(p)
  {
    LeafSerialization(p, definitions);
    var written := LeafFields(p.op, p.fact.value, p.value);
    if Writes(p, raw) {
      if p.op.In? {
        forall i | 0 <= i < |p.value.vs| { LiteralWritten(p.value.vs[i], raw.fields["value"].items[i]); }
        assert raw.fields["value"].items == RawOf(p.value).items;
      } else if !p.op.Exists? {
        LiteralWritten(p.value.v, raw.fields["value"]);
      }
      assert raw.fields == written;
    }
    if raw == Serialize(p) {
      if p.op.In? {
        forall i | 0 <= i < |p.value.vs| { LiteralWritten(p.value.vs[i], raw.fields["value"].items[i]); }
      } else if !p.op.Exists? {
        LiteralWritten(p.value.v, raw.fields["value"]);
      }
    }
  }

  lemma {:induction false} WrittenExactlyIf(p: Predicate, raw: Json, definitions: Registry)
    requires RuleTyped(p, definitions)
    ensures Writes(p, raw) <==> raw == Serialize(p)
    decreases p
  {
    if IsBoolean(p.op) {
      var written := SerializeAll(p.children);
      if raw.Obj? && "children" in raw.fields && raw.fields["children"].Arr? {
        var items := raw.fields["children"].items;
        forall i | 0 <= i < |p.children| && i < |items| { WrittenExactlyIf(p.children[i], items[i], definitions); }
        if Writes(p, raw) {
          assert items == written;
          assert raw.fields == map["op" := Str(OpName(p.op)), "children" := Arr(written)];
        }
      }
    } else {
      LeafWritten(p, raw, definitions);
    }
  }

  /** The decoder accepts exactly the documents that write an admissible predicate of at most 128 nodes, as that
      predicate. */
  lemma AcceptedAs(raw: Json, p: Predicate, definitions: Registry)
    ensures Validation(raw, definitions).rule == Some(p)
            <==> Admissible(p, definitions) && Size(p) <= 128 && Writes(p, raw)
  {
    AcceptedExactlyIfSerialized(raw, p, definitions);
    AdmissibleExactlyIf(p, definitions);
    if RuleTyped(p, definitions) { WrittenExactlyIf(p, raw, definitions); }
  }

  // ----- what one node is reported for

  /** The operator a node names. */
  predicate Names(node: Json, op: Op) {
    node.Obj? && "op" in node.fields && node.fields["op"] == Str(OpName(op))
  }

  /** A literal for a Fact of this definition. */
  predicate Denotes(definition: FactDefinition, raw: Json) {
    match definition.kind
    case DateKind =>
      raw.Obj? && raw.fields.Keys == {"$date"} && raw.fields["$date"].Str? && ReadIsoText(raw.fields["$date"].s).Some?
    case BooleanKind => raw.Bool?
    case IntegerKind => raw.Int? && (definition.minimum == None || definition.minimum.value <= raw.i)
    case StringKind => raw.Str?
    case EnumKind => raw.Str? && raw.s in definition.enumValues
  }

  predicate Composes(op: Op) {
    op == All || op == Any || op == Not
  }

  predicate Orders(op: Op) {
    op == Lt || op == Lte || op == Gt || op == Gte
  }

  predicate BelongsTo(op: Op, name: string) {
    || name == "op"
    || (Composes(op) && name == "children")
    || (!Composes(op) && name == "fact")
    || (!Composes(op) && op != Exists && name == "value")
  }

  /** A node that composes is reported for its list of children. */
  predicate ChildrenReported(op: Op, node: Json, path: Path, d: Diagnostic)
    requires node.Obj?
  {
    && d.path == path + [Field("children")]
    && if "children" !in node.fields || !node.fields["children"].Arr? then d.code == MalformedRule(OpName(op))
       else if op == Not then d.code == MalformedRule("not") && |node.fields["children"].items| != 1
       else d.code == EmptyBooleanComposition(OpName(op)) && node.fields["children"].items == []
  }

  predicate FactReported(op: Op, node: Json, path: Path, definitions: Registry, d: Diagnostic)
    requires node.Obj?
  {
    && d.path == path + [Field("fact")]
    && if "fact" !in node.fields then d.code == MissingRuleFact(OpName(op))
       else if !node.fields["fact"].Str? then d.code == MalformedRule(OpName(op))
       else
         var fact := node.fields["fact"].s;
         if fact !in definitions then d.code == UnsupportedRuleFact(fact)
         else
           || (op == Exists && definitions[fact].derived && d.code == ExistsRequiresSourceFact(fact))
           || (Orders(op) && definitions[fact].kind !in {IntegerKind, DateKind}
               && d.code == OrderingNotSupportedForFact(fact))
  }

  /** The operand is reported as a whole, or literal by literal. */
  predicate OperandReported(op: Op, node: Json, path: Path, definitions: Registry, d: Diagnostic)
    requires node.Obj?
  {
    && op != Exists && "fact" in node.fields && node.fields["fact"].Str? && node.fields["fact"].s in definitions
    && d.code == InvalidRuleOperand(node.fields["fact"].s)
    && var definition := definitions[node.fields["fact"].s];
       if op != In then
         && d.path == path + [Field("value")]
         && ("value" in node.fields ==> !Denotes(definition, node.fields["value"]))
       else if "value" !in node.fields || !node.fields["value"].Arr? then d.path == path + [Field("value")]
       else
         var items := node.fields["value"].items;
         if items == [] || |items| > 128 then d.path == path + [Field("value")]
         else
           exists i | 0 <= i < |items| ::
             d.path == path + [Field("value"), Index(i)] && !Denotes(definition, items[i])
  }

  /** A field that does not belong is reported. */
  predicate StrayReported(op: Op, node: Json, path: Path, d: Diagnostic)
    requires node.Obj?
  {
    exists name | name in node.fields ::
      !BelongsTo(op, name) && d == Diagnostic(MalformedRule(OpName(op)), path + [Field(name)])
  }

  predicate ReportedFor(op: Op, node: Json, path: Path, definitions: Registry, d: Diagnostic)
    requires node.Obj?
  {
    || StrayReported(op, node, path, d)
    || (if Composes(op) then ChildrenReported(op, node, path, d)
        else FactReported(op, node, path, definitions, d) || OperandReported(op, node, path, definitions, d))
  }

  /** Everything one node is reported for. */
  ghost predicate Reported(node: Json, path: Path, definitions: Registry, d: Diagnostic) {
    if !node.Obj? then d == Diagnostic(MalformedRule("<unknown>"), path)
    else if "op" !in node.fields || !node.fields["op"].Str? then
      d == Diagnostic(MalformedRule("<unknown>"), path + [Field("op")])
    else if forall op :: !Names(node, op) then
      d == Diagnostic(UnsupportedRuleOperator(node.fields["op"].s), path + [Field("op")])
    else exists op | Names(node, op) :: ReportedFor(op, node, path, definitions, d)
  }

  lemma NamedExactlyIf(node: Json, op: Op)
    ensures Names(node, op) <==> NodeOp(node) == Some(op)
  {
    if node.Obj? && "op" in node.fields && node.fields["op"].Str? { ReadOpInverts(op, node.fields["op"].s); }
  }

  lemma DenotedExactlyIf(definition: FactDefinition, raw: Json)
    ensures Denotes(definition, raw) <==> DecodeLiteral(definition, raw).Some?
  {}

  lemma {:induction false} BadLiteralReported(fact: string, definition: FactDefinition, items: seq<Json>, path: Path,
                                              from: nat, d: Diagnostic)
    requires from <= |items|
    ensures d in BadLiteralDiagnostics(fact, Literals(definition, items), path, from)
            <==> d.code == InvalidRuleOperand(fact)
                 && exists i | from <= i < |items| ::
                      d.path == path + [Field("value"), Index(i)] && !Denotes(definition, items[i])
    decreases |items| - from
  {
    if from < |items| {
      BadLiteralReported(fact, definition, items, path, from + 1, d);
      DenotedExactlyIf(definition, items[from]);
    }
  }

  lemma OperandReportedExactlyIf(op: Op, node: Json, path: Path, definitions: Registry, d: Diagnostic)
    requires node.Obj? && LeafDefinition(node, definitions).Some? && op != Exists
    ensures var fact := LeafFact(node).value;
            d in OperandDiagnostics(op, fact, definitions[fact], RawOperand(node), path)
            <==> OperandReported(op, node, path, definitions, d)
  {
    var raw, fact := RawOperand(node), LeafFact(node).value;
    DenotedExactlyIf(definitions[fact], raw);
    if op.In? && raw.Arr? && raw.items != [] && |raw.items| <= 128 {
      BadLiteralReported(fact, definitions[fact], raw.items, path, 0, d);
    }
  }

  lemma FactReportedExactlyIf(op: Op, node: Json, path: Path, definitions: Registry, d: Diagnostic)
    requires node.Obj? && LeafDefinition(node, definitions).None?
    ensures d in LeafDiagnostics(op, node, path, definitions)
            <==> FactReported(op, node, path, definitions, d) || OperandReported(op, node, path, definitions, d)
  {}

  lemma LeafReportedExactlyIf(op: Op, node: Json, path: Path, definitions: Registry, d: Diagnostic)
    requires node.Obj? && LeafDefinition(node, definitions).Some?
    ensures d in LeafDiagnostics(op, node, path, definitions)
            <==> FactReported(op, node, path, definitions, d) || OperandReported(op, node, path, definitions, d)
  {
    if op != Exists { OperandReportedExactlyIf(op, node, path, definitions, d); }
  }

  lemma FieldsListed(op: Op, extra: seq<string>, path: Path, d: Diagnostic)
    ensures d in FieldDiagnostics(op, extra, path)
            <==> exists name :: name in extra && d == Diagnostic(MalformedRule(OpName(op)), path + [Field(name)])
  {
    var list := FieldDiagnostics(op, extra, path);
    assert forall i | 0 <= i < |extra| :: list[i] == Diagnostic(MalformedRule(OpName(op)), path + [Field(extra[i])]);
    if name :| name in extra && d == Diagnostic(MalformedRule(OpName(op)), path + [Field(name)]) {
      var i :| 0 <= i < |extra| && extra[i] == name;
      assert list[i] == d;
    }
  }

  lemma AllowedExactlyIf(op: Op, name: string)
    ensures name in AllowedFields(op) <==> BelongsTo(op, name)
  {}

  lemma StrayReportedExactlyIf(op: Op, node: Json, path: Path, d: Diagnostic)
    requires node.Obj?
    ensures d in FieldDiagnostics(op, SortedTexts(node.fields.Keys - AllowedFields(op)), path)
            <==> StrayReported(op, node, path, d)
  {
    var extra := SortedTexts(node.fields.Keys - AllowedFields(op));
    FieldsListed(op, extra, path, d);
    forall name ensures name in extra <==> name in node.fields && !BelongsTo(op, name) { AllowedExactlyIf(op, name); }
  }

  lemma ChildrenReportedExactlyIf(op: Op, node: Json, path: Path, d: Diagnostic)
    requires node.Obj? && Composes(op)
    ensures d in ChildDiagnostics(op, node, path) <==> ChildrenReported(op, node, path, d)
  {}

  lemma NodeReportsBoth(op: Op, node: Json, path: Path, definitions: Registry, d: Diagnostic)
    requires NodeOp(node) == Some(op)
    ensures d in NodeDiagnostics(node, path, definitions)
            <==> || d in FieldDiagnostics(op, SortedTexts(node.fields.Keys - AllowedFields(op)), path)
                 || d in if IsBoolean(op) then ChildDiagnostics(op, node, path)
                         else LeafDiagnostics(op, node, path, definitions)
  {}

  lemma ReportedForExactlyIf(op: Op, node: Json, path: Path, definitions: Registry, d: Diagnostic)
    requires NodeOp(node) == Some(op)
    ensures d in NodeDiagnostics(node, path, definitions) <==> ReportedFor(op, node, path, definitions, d)
  {
    NodeReportsBoth(op, node, path, definitions, d);
    StrayReportedExactlyIf(op, node, path, d);
    if Composes(op) {
      ChildrenReportedExactlyIf(op, node, path, d);
    } else if LeafDefinition(node, definitions).None? {
      FactReportedExactlyIf(op, node, path, definitions, d);
    } else {
      LeafReportedExactlyIf(op, node, path, definitions, d);
    }
  }

  /** One node is reported for exactly this. */
  lemma NodeReportedExactlyIf(node: Json, path: Path, definitions: Registry, d: Diagnostic)
    ensures d in NodeDiagnostics(node, path, definitions) <==> Reported(node, path, definitions, d)
  {
    forall op { NamedExactlyIf(node, op); }
    if NodeOp(node).Some? { ReportedForExactlyIf(NodeOp(node).value, node, path, definitions, d); }
  }

  // ----- which nodes are read

  /** The node has a list of children to descend into: several for `all` and `any`, one for `not`. */
  predicate OpensUp(node: Json) {
    && (Names(node, All) || Names(node, Any) || Names(node, Not))
    && "children" in node.fields && node.fields["children"].Arr?
    && (Names(node, Not) ==> |node.fields["children"].items| == 1)
  }

  /** The node stands in the document at this path. */
  predicate Occurs(root: Json, at: Path, node: Json, path: Path)
    decreases root
  {
    || (node == root && path == at)
    || (OpensUp(root)
        && var items := root.fields["children"].items;
           exists i | 0 <= i < |items| :: Occurs(items[i], at + [Field("children"), Index(i)], node, path))
  }

  lemma OpensExactlyIf(node: Json)
    ensures OpensUp(node) ==> Kids(node) == node.fields["children"].items
    ensures !OpensUp(node) ==> Kids(node) == []
  {
    NamedExactlyIf(node, All);
    NamedExactlyIf(node, Any);
    NamedExactlyIf(node, Not);
  }

  predicate UnderKid(kids: seq<Json>, path: Path, x: Located, i: nat) {
    i < |kids| && x in Preorder(kids[i], KidPath(path, i))
  }

  lemma {:induction false} OfKidsExactlyIf(kids: seq<Json>, path: Path, x: Located)
    ensures x in PreorderOfKids(kids, path) <==> exists i :: UnderKid(kids, path, x, i)
  {
    if kids != [] {
      var last := |kids| - 1;
      var init := kids[..last];
      OfKidsExactlyIf(init, path, x);
      forall i: nat
        ensures UnderKid(kids, path, x, i)
                <==> UnderKid(init, path, x, i) || (i == last && x in Preorder(kids[last], KidPath(path, last)))
      {}
      if x in Preorder(kids[last], KidPath(path, last)) { assert UnderKid(kids, path, x, last); }
    }
  }

  /** The nodes read are exactly those that stand in the document. */
  lemma {:induction false} ReadExactlyIf(root: Json, at: Path, node: Json, path: Path)
    ensures (node, path) in Preorder(root, at) <==> Occurs(root, at, node, path)
    decreases root
  {
    OpensExactlyIf(root);
    OfKidsExactlyIf(Kids(root), at, (node, path));
    if OpensUp(root) {
      var items := root.fields["children"].items;
      forall i | 0 <= i < |items|
        ensures (node, path) in Preorder(items[i], KidPath(at, i)) <==> Occurs(items[i], KidPath(at, i), node, path)
      {
        ReadExactlyIf(items[i], KidPath(at, i), node, path);
      }
      forall i | 0 <= i < |items| && Occurs(items[i], KidPath(at, i), node, path)
        ensures UnderKid(items, at, (node, path), i)
      {}
    }
  }

  /** A shorter path comes before what lies below it, and otherwise the lower index first. */
  predicate PathBefore(a: Path, b: Path) {
    if a == [] then b != []
    else b != [] && if a[0] == b[0] then PathBefore(a[1..], b[1..])
                    else a[0].Index? && b[0].Index? && a[0].i < b[0].i
  }

  lemma {:induction false} BeforeBelow(path: Path, a: Path, b: Path)
    ensures PathBefore(path + a, path + b) <==> PathBefore(a, b)
  {
    if path == [] {
      assert path + a == a && path + b == b;
    } else {
      assert (path + a)[1..] == path[1..] + a && (path + b)[1..] == path[1..] + b;
      BeforeBelow(path[1..], a, b);
    }
  }

  /** Every path read below a path extends it. */
  ghost predicate Extend(nodes: seq<Located>, path: Path) {
    forall i | 0 <= i < |nodes| :: |path| <= |nodes[i].1| && nodes[i].1[..|path|] == path
  }

  ghost predicate InOrder(nodes: seq<Located>) {
    forall i, j | 0 <= i < j < |nodes| :: PathBefore(nodes[i].1, nodes[j].1)
  }

  /** Below the children, with the child's index next. */
  ghost predicate UnderKids(nodes: seq<Located>, path: Path, n: nat) {
    forall i | 0 <= i < |nodes| ::
      && |path| + 2 <= |nodes[i].1| && nodes[i].1[..|path|] == path && nodes[i].1[|path|] == Field("children")
      && nodes[i].1[|path| + 1].Index? && nodes[i].1[|path| + 1].i < n
  }

  lemma KidsBefore(a: Path, b: Path, path: Path)
    requires |path| + 2 <= |a| && a[..|path|] == path && a[|path|] == Field("children") && a[|path| + 1].Index?
    requires |path| + 2 <= |b| && b[..|path|] == path && b[|path|] == Field("children") && b[|path| + 1].Index?
    requires a[|path| + 1].i < b[|path| + 1].i
    ensures PathBefore(a, b)
  {
    var n := |path|;
    assert a == path + a[n..] && b == path + b[n..];
    assert a[n..][1..] == a[n + 1..] && b[n..][1..] == b[n + 1..];
    BeforeBelow(path, a[n..], b[n..]);
  }

  lemma {:induction false} KidsInOrder(kids: seq<Json>, path: Path)
    ensures InOrder(PreorderOfKids(kids, path)) && UnderKids(PreorderOfKids(kids, path), path, |kids|)
    decreases kids, 0
  {
    if kids != [] {
      var last := |kids| - 1;
      KidsInOrder(kids[..last], path);
      NodesInOrder(kids[last], KidPath(path, last));
      var before, below := PreorderOfKids(kids[..last], path), Preorder(kids[last], KidPath(path, last));
      forall j | 0 <= j < |below|
        ensures |path| + 2 <= |below[j].1| && below[j].1[..|path|] == path
                && below[j].1[|path|] == Field("children") && below[j].1[|path| + 1] == Index(last)
      {
        assert below[j].1[..|path| + 2] == KidPath(path, last);
        assert below[j].1[..|path| + 2][..|path|] == path;
      }
      forall i, j | 0 <= i < |before| && 0 <= j < |below| ensures PathBefore(before[i].1, below[j].1) {
        KidsBefore(before[i].1, below[j].1, path);
      }
    }
  }

  /** Nodes are read once each, parents before their children and children in their order. */
  lemma {:induction false} NodesInOrder(node: Json, path: Path)
    ensures InOrder(Preorder(node, path)) && Extend(Preorder(node, path), path)
    decreases node, 1
  {
    KidsAreSmaller(node);
    var kids := Kids(node);
    if kids != [] {
      KidsInOrder(kids, path);
      var below := PreorderOfKids(kids, path);
      forall j | 0 <= j < |below| ensures PathBefore(path, below[j].1) {
        assert path + [] == path && below[j].1 == path + below[j].1[|path|..];
        BeforeBelow(path, [], below[j].1[|path|..]);
      }
    }
  }

  // ----- what a rule is reported for

  lemma {:induction false} AddedExactlyIf(seen: seq<Diagnostic>, more: seq<Diagnostic>)
    requires forall i, j | 0 <= i < j < |seen| :: seen[i] != seen[j]
    ensures var r := AddAll(seen, more);
            && (forall d :: d in r <==> d in seen || d in more)
            && (forall i, j | 0 <= i < j < |r| :: r[i] != r[j])
            && seen <= r
  {
    if more != [] {
      var init := more[..|more| - 1];
      AddedExactlyIf(seen, init);
      assert forall d :: d in more <==> d in init || d == more[|more| - 1];
    }
  }

  lemma {:induction false} ReportedOnce(lists: seq<seq<Diagnostic>>, k: nat)
    requires k <= |lists|
    ensures var r := Report(lists);
            && (forall d :: d in r <==> exists i | 0 <= i < |lists| :: d in lists[i])
            && (forall i, j | 0 <= i < j < |r| :: r[i] != r[j])
            && Report(lists[..k]) <= r
  {
    if lists != [] {
      var init := lists[..|lists| - 1];
      ReportedOnce(init, if k < |lists| then k else |init|);
      AddedExactlyIf(Report(init), lists[|lists| - 1]);
      assert forall i | 0 <= i < |init| :: init[i] == lists[i];
      if k < |lists| { assert init[..k] == lists[..k]; } else { assert lists[..k] == lists; }
    }
  }

  ghost function ListsOf(nodes: seq<Located>, definitions: Registry): (r: seq<seq<Diagnostic>>)
    ensures |r| == |nodes|
  {
    seq(|nodes|, i requires 0 <= i < |nodes| => NodeDiagnostics(nodes[i].0, nodes[i].1, definitions))
  }

  /** What stands at each place is what the node there is reported for. */
  lemma ListedExactlyIf(nodes: seq<Located>, definitions: Registry, i: nat, d: Diagnostic)
    requires i < |nodes|
    ensures d in ListsOf(nodes, definitions)[i] <==> Reported(nodes[i].0, nodes[i].1, definitions, d)
  {
    NodeReportedExactlyIf(nodes[i].0, nodes[i].1, definitions, d);
  }

  /** The nodes' diagnostics, each once, those of earlier nodes first. */
  lemma DiagnosedExactlyIf(nodes: seq<Located>, definitions: Registry, k: nat)
    requires k <= |nodes|
    ensures var r, lists := Diagnose(nodes, definitions), ListsOf(nodes, definitions);
            && (forall d :: d in r <==> exists i | 0 <= i < |lists| :: d in lists[i])
            && (forall i, j | 0 <= i < j < |r| :: r[i] != r[j])
            && Diagnose(nodes[..k], definitions) <= r
  {
    ReportedOnce(ListsOf(nodes, definitions), k);
    assert ListsOf(nodes[..k], definitions) == ListsOf(nodes, definitions)[..k];
  }

  lemma ValidationReads(raw: Json, definitions: Registry)
    ensures var nodes, r := Preorder(raw, [Field("rule")]), Validation(raw, definitions);
            && r.diagnostics == (if |nodes| <= 128 then Diagnose(nodes, definitions)
                                 else AddDiagnostic(Diagnose(nodes[..128], definitions),
                                                    Diagnostic(RuleTooLarge, [Field("rule")])))
            && (r.rule.Some? <==> r.diagnostics == [])
  {}

  /** Each diagnostic once: those of the first 128 nodes, and that there are more. */
  ghost predicate ReportsFirst(r: seq<Diagnostic>, lists: seq<seq<Diagnostic>>) {
    && (forall i, j | 0 <= i < j < |r| :: r[i] != r[j])
    && forall d :: d in r <==> || (exists i | 0 <= i < |lists| && i < 128 :: d in lists[i])
                               || (|lists| > 128 && d == Diagnostic(RuleTooLarge, [Field("rule")]))
  }

  /** A rule is reported for what its first 128 nodes are reported for, and for being too large when it has more. */
  lemma RuleReportedExactlyIf(raw: Json, definitions: Registry)
    ensures var r := Validation(raw, definitions);
            ReportsFirst(r.diagnostics, ListsOf(Preorder(raw, [Field("rule")]), definitions))
            && (r.rule.Some? <==> r.diagnostics == [])
  {
    ValidationReads(raw, definitions);
    var nodes := Preorder(raw, [Field("rule")]);
    var read := if |nodes| <= 128 then nodes else nodes[..128];
    DiagnosedExactlyIf(read, definitions, 0);
    assert forall i | 0 <= i < |read| :: ListsOf(read, definitions)[i] == ListsOf(nodes, definitions)[i];
  }
}
