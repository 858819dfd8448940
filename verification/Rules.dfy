/**
  The v1 rule AST: raw JSON, decoded predicates, what one node contributes to validation, and
  the recursive reading of a rule that the work-list decoder must agree with (planning/rules.py).
 */
module Rules {
  import opened Wrappers
  import opened Ordering
  import opened Calendar
  import opened Facts

  const MAX_RULE_NODES := 128
  const MAX_IN_OPERANDS := 128

  datatype Op = All | Any | Not | Eq | In | Lt | Lte | Gt | Gte | Exists

  predicate IsBoolean(op: Op) { op.All? || op.Any? || op.Not? }
  predicate IsOrdering(op: Op) { op.Lt? || op.Lte? || op.Gt? || op.Gte? }

  datatype Operand = NoOperand | One(v: FactValue) | Many(vs: seq<FactValue>)

  datatype Predicate = Predicate(op: Op, fact: Option<string>, value: Operand, children: seq<Predicate>)

  /** An already deserialized JSON document. */
  datatype Json =
    | Null
    | Bool(b: bool)
    | Int(i: int)
    | Float(r: real)
    | Str(s: string)
    | Arr(items: seq<Json>)
    | Obj(fields: map<string, Json>)

  function OpName(op: Op): string {
    match op
    case All => "all" case Any => "any" case Not => "not" case Eq => "eq" case In => "in"
    case Lt => "lt" case Lte => "lte" case Gt => "gt" case Gte => "gte" case Exists => "exists"
  }

  function ReadOp(name: string): Option<Op> {
    if name == "all" then Some(All) else if name == "any" then Some(Any) else if name == "not" then Some(Not)
    else if name == "eq" then Some(Eq) else if name == "in" then Some(In) else if name == "lt" then Some(Lt)
    else if name == "lte" then Some(Lte) else if name == "gt" then Some(Gt) else if name == "gte" then Some(Gte)
    else if name == "exists" then Some(Exists) else None
  }

  lemma ReadOpInverts(op: Op, name: string)
    ensures ReadOp(OpName(op)) == Some(op)
    ensures ReadOp(name) == Some(op) ==> name == OpName(op)
  {}

  // ----- serialize_rule_v1

  function EncodeValue(v: FactValue): Json {
    match v
    case BoolV(b) => Bool(b)
    case IntV(i) => Int(i)
    case TextV(t) => Str(t)
    case DateV(d) => Obj(map["$date" := Str(IsoText(d))])
  }

  function Serialize(p: Predicate): Json {
    var op := Str(OpName(p.op));
    if IsBoolean(p.op) then
      Obj(map["op" := op, "children" := Arr(SerializeAll(p.children))])
    else
      var fact := if p.fact.Some? then Str(p.fact.value) else Null;
      match p.value
      case NoOperand => Obj(map["op" := op, "fact" := fact])
      case One(v) => Obj(map["op" := op, "fact" := fact, "value" := EncodeValue(v)])
      case Many(vs) =>
        Obj(map["op" := op, "fact" := fact,
                "value" := Arr(seq(|vs|, i requires 0 <= i < |vs| => EncodeValue(vs[i])))])
  }

  function SerializeAll(ps: seq<Predicate>): (r: seq<Json>)
    ensures |r| == |ps| && forall i | 0 <= i < |ps| :: r[i] == Serialize(ps[i])
  {
    seq(|ps|, i requires 0 <= i < |ps| => Serialize(ps[i]))
  }

  // ----- _decode_literal

  function DecodeLiteral(definition: FactDefinition, raw: Json): Option<FactValue> {
    if definition.kind.DateKind? then
      if raw.Obj? && raw.fields.Keys == {"$date"} && raw.fields["$date"].Str? then
        match ReadIsoText(raw.fields["$date"].s)
        case None => None
        case Some(d) => Some(DateV(d))
      else None
    else
      match raw
      case Bool(b) => if ValueMatches(definition, BoolV(b)) then Some(BoolV(b)) else None
      case Int(i) => if ValueMatches(definition, IntV(i)) then Some(IntV(i)) else None
      case Str(t) => if ValueMatches(definition, TextV(t)) then Some(TextV(t)) else None
      case _ => None
  }

  // ----- what one node contributes: its diagnostics, its record and the children it descends into

  const UNKNOWN_OP := "<unknown>"

  function NodeOp(node: Json): Option<Op> {
    if node.Obj? && "op" in node.fields && node.fields["op"].Str? then ReadOp(node.fields["op"].s) else None
  }

  function AllowedFields(op: Op): set<string> {
    if IsBoolean(op) then {"op", "children"} else if op.Exists? then {"op", "fact"} else {"op", "fact", "value"}
  }

  function FieldDiagnostics(op: Op, extra: seq<string>, path: Path): seq<Diagnostic> {
    seq(|extra|, i requires 0 <= i < |extra| => Diagnostic(MalformedRule(OpName(op)), path + [Field(extra[i])]))
  }

  /** Empty unless the node is a Boolean whose child list is usable. */
  function Kids(node: Json): seq<Json> {
    var op := NodeOp(node);
    if op.Some? && IsBoolean(op.value) && "children" in node.fields && node.fields["children"].Arr? then
      var items := node.fields["children"].items;
      if op.value.Not? && |items| != 1 then [] else items
    else []
  }

  function ChildDiagnostics(op: Op, node: Json, path: Path): seq<Diagnostic>
    requires node.Obj?
  {
    var at := path + [Field("children")];
    if "children" !in node.fields || !node.fields["children"].Arr? then [Diagnostic(MalformedRule(OpName(op)), at)]
    else
      var items := node.fields["children"].items;
      if op.Not? then (if |items| != 1 then [Diagnostic(MalformedRule("not"), at)] else [])
      else if items == [] then [Diagnostic(EmptyBooleanComposition(OpName(op)), at)]
      else []
  }

  /** `fact` of a leaf when it is a text, whether or not it is defined. */
  function LeafFact(node: Json): Option<string>
    requires node.Obj?
  {
    if "fact" in node.fields && node.fields["fact"].Str? then Some(node.fields["fact"].s) else None
  }

  function LeafDefinition(node: Json, definitions: Registry): Option<FactDefinition>
    requires node.Obj?
  {
    var fact := LeafFact(node);
    if fact.Some? && fact.value in definitions then Some(definitions[fact.value]) else None
  }

  function LeafFactDiagnostics(op: Op, node: Json, path: Path, definitions: Registry): seq<Diagnostic>
    requires node.Obj?
  {
    var at := path + [Field("fact")];
    if "fact" !in node.fields then [Diagnostic(MissingRuleFact(OpName(op)), at)]
    else if LeafFact(node).None? then [Diagnostic(MalformedRule(OpName(op)), at)]
    else if LeafDefinition(node, definitions).None? then [Diagnostic(UnsupportedRuleFact(LeafFact(node).value), at)]
    else []
  }

  function RawOperand(node: Json): Json
    requires node.Obj?
  {
    if "value" in node.fields then node.fields["value"] else Null
  }

  function Literals(definition: FactDefinition, raw: seq<Json>): seq<Option<FactValue>> {
    seq(|raw|, i requires 0 <= i < |raw| => DecodeLiteral(definition, raw[i]))
  }

  function BadLiteralDiagnostics(fact: string, decoded: seq<Option<FactValue>>, path: Path, from: nat): seq<Diagnostic>
    requires from <= |decoded|
    decreases |decoded| - from
  {
    if from == |decoded| then []
    else (if decoded[from].None? then [Diagnostic(InvalidRuleOperand(fact), path + [Field("value"), Index(from)])]
          else [])
         + BadLiteralDiagnostics(fact, decoded, path, from + 1)
  }

  function DecodeOperand(op: Op, definition: FactDefinition, raw: Json): Operand {
    if op.In? then
      if raw.Arr? && 1 <= |raw.items| <= MAX_IN_OPERANDS then
        var decoded := Literals(definition, raw.items);
        if forall i | 0 <= i < |decoded| :: decoded[i].Some? then
          Many(seq(|decoded|, i requires 0 <= i < |decoded| => decoded[i].value))
        else NoOperand
      else NoOperand
    else
      match DecodeLiteral(definition, raw)
      case None => NoOperand
      case Some(v) => One(v)
  }

  function OperandDiagnostics(op: Op, fact: string, definition: FactDefinition, raw: Json,
                              path: Path): seq<Diagnostic> {
    var bad := [Diagnostic(InvalidRuleOperand(fact), path + [Field("value")])];
    if op.In? then
      if !raw.Arr? || raw.items == [] || |raw.items| > MAX_IN_OPERANDS then bad
      else BadLiteralDiagnostics(fact, Literals(definition, raw.items), path, 0)
    else if DecodeLiteral(definition, raw).None? then bad
    else []
  }

  function LeafDiagnostics(op: Op, node: Json, path: Path, definitions: Registry): seq<Diagnostic>
    requires node.Obj?
  {
    var definition := LeafDefinition(node, definitions);
    LeafFactDiagnostics(op, node, path, definitions)
    + (if definition.None? then []
       else
         var fact := LeafFact(node).value;
         if op.Exists? then
           if definition.value.derived then [Diagnostic(ExistsRequiresSourceFact(fact), path + [Field("fact")])] else []
         else
           (if IsOrdering(op) && !definition.value.kind.IntegerKind? && !definition.value.kind.DateKind?
            then [Diagnostic(OrderingNotSupportedForFact(fact), path + [Field("fact")])] else [])
           + OperandDiagnostics(op, fact, definition.value, RawOperand(node), path))
  }

  function NodeDiagnostics(node: Json, path: Path, definitions: Registry): seq<Diagnostic> {
    if !node.Obj? then [Diagnostic(MalformedRule(UNKNOWN_OP), path)]
    else if "op" !in node.fields || !node.fields["op"].Str?
           then [Diagnostic(MalformedRule(UNKNOWN_OP), path + [Field("op")])]
    else if NodeOp(node).None? then [Diagnostic(UnsupportedRuleOperator(node.fields["op"].s), path + [Field("op")])]
    else
      var op := NodeOp(node).value;
      FieldDiagnostics(op, SortedTexts(node.fields.Keys - AllowedFields(op)), path)
      + (if IsBoolean(op) then ChildDiagnostics(op, node, path) else LeafDiagnostics(op, node, path, definitions))
  }

  /** What the decoder stores about a node besides its children. */
  datatype Head = Head(op: Op, fact: Option<string>, value: Operand)

  function NodeHead(node: Json, definitions: Registry): Option<Head> {
    var op := NodeOp(node);
    if op.None? then None
    else if IsBoolean(op.value) then Some(Head(op.value, None, NoOperand))
    else
      var definition := LeafDefinition(node, definitions);
      Some(Head(op.value, LeafFact(node),
                if op.value.Exists? || definition.None? then NoOperand
                else DecodeOperand(op.value, definition.value, RawOperand(node))))
  }

  // ----- the recursive reading: nodes in authored order, and the tree they decode to

  type Located = (Json, Path)

  lemma KidsAreSmaller(node: Json)
    ensures Kids(node) == [] || (node.Obj? && "children" in node.fields && node.fields["children"] == Arr(Kids(node)))
  {}

  function KidPath(path: Path, i: nat): Path {
    path + [Field("children"), Index(i)]
  }

  /** The node and everything below it, parents first, children left to right. */
  function Preorder(node: Json, path: Path): (r: seq<Located>)
    ensures r != []
    decreases node, 1
  {
    KidsAreSmaller(node);
    [(node, path)] + (if Kids(node) == [] then [] else PreorderOfKids(Kids(node), path))
  }

  function PreorderOfKids(kids: seq<Json>, path: Path): (r: seq<Located>)
    ensures |r| >= |kids|
    decreases kids, 0
  {
    if kids == [] then []
    else
      var last := |kids| - 1;
      PreorderOfKids(kids[..last], path) + Preorder(kids[last], KidPath(path, last))
  }

  /** Diagnostics are reported once. */
  function AddDiagnostic(seen: seq<Diagnostic>, d: Diagnostic): seq<Diagnostic> {
    if d in seen then seen else seen + [d]
  }

  function AddAll(seen: seq<Diagnostic>, more: seq<Diagnostic>): seq<Diagnostic> {
    if more == [] then seen else AddDiagnostic(AddAll(seen, more[..|more| - 1]), more[|more| - 1])
  }

  /** Diagnostics of several nodes in order, each reported once. */
  function Report(lists: seq<seq<Diagnostic>>): seq<Diagnostic> {
    if lists == [] then [] else AddAll(Report(lists[..|lists| - 1]), lists[|lists| - 1])
  }

  function Diagnose(nodes: seq<Located>, definitions: Registry): seq<Diagnostic> {
    Report(seq(|nodes|, i requires 0 <= i < |nodes| => NodeDiagnostics(nodes[i].0, nodes[i].1, definitions)))
  }

  function Tree(node: Json, definitions: Registry): Predicate
    decreases node
  {
    KidsAreSmaller(node);
    var kids := Kids(node);
    var head := NodeHead(node, definitions).GetOr(Head(All, None, NoOperand));
    Predicate(head.op, head.fact, head.value,
              if kids == [] then [] else TreesOf(kids, definitions))
  }

  function TreesOf(kids: seq<Json>, definitions: Registry): (r: seq<Predicate>)
    ensures |r| == |kids| && forall i | 0 <= i < |kids| :: r[i] == Tree(kids[i], definitions)
    decreases kids
  {
    seq(|kids|, i requires 0 <= i < |kids| => Tree(kids[i], definitions))
  }

  datatype RuleValidation = RuleValidation(rule: Option<Predicate>, diagnostics: seq<Diagnostic>)

  const ROOT: Path := [Field("rule")]

  /** All diagnostics of the first 128 nodes in authored order, and a predicate only when there are none. */
  function Validation(raw: Json, definitions: Registry): RuleValidation {
    var nodes := Preorder(raw, ROOT);
    var diagnostics :=
      if |nodes| <= MAX_RULE_NODES then Diagnose(nodes, definitions)
      else AddDiagnostic(Diagnose(nodes[..MAX_RULE_NODES], definitions), Diagnostic(RuleTooLarge, ROOT));
    if diagnostics == [] then RuleValidation(Some(Tree(raw, definitions)), [])
    else RuleValidation(None, diagnostics)
  }
}
