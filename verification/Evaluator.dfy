/**
  Exhaustive Strong Kleene evaluation with traces (planning/evaluator.py), and what a trace
  tells: which Facts are missing, and which submitted answers the result rests on.
 */
module Evaluator {
  import opened Wrappers
  import opened Ordering
  import opened Calendar
  import opened Facts
  import opened Rules
  import opened RuleRoundTrip

  datatype Truth = TRUE | FALSE | UNKNOWN

  datatype Trace = Trace(op: Op, result: Truth, factKey: Option<string>, factPresent: bool, submitted: bool,
                         missing: set<string>, affected: bool, children: seq<Trace>)

  // ----- comparisons: Python's `==` is total, its ordering raises on unrelated types

  function AsNumber(v: FactValue): Option<int> {
    match v
    case BoolV(b) => Some(if b then 1 else 0)
    case IntV(i) => Some(i)
    case _ => None
  }

  predicate PyEqual(a: FactValue, b: FactValue) {
    if AsNumber(a).Some? && AsNumber(b).Some? then AsNumber(a) == AsNumber(b) else a == b
  }

  /** a < b when the two types are ordered against each other. */
  function PyLess(a: FactValue, b: FactValue): Option<bool> {
    if AsNumber(a).Some? && AsNumber(b).Some? then Some(AsNumber(a).value < AsNumber(b).value)
    else if a.DateV? && b.DateV? then Some(Before(a.d, b.d))
    else if a.TextV? && b.TextV? then Some(a.t != b.t && TextLe(a.t, b.t))
    else None
  }

  /** None stands for the exception the comparison raises. */
  function Matches(op: Op, actual: FactValue, expected: Operand): Option<bool> {
    match op
    case Eq => Some(expected.One? && PyEqual(actual, expected.v))
    case In => if expected.Many? then Some(exists i | 0 <= i < |expected.vs| :: PyEqual(actual, expected.vs[i]))
               else None
    case Lt => if expected.One? then PyLess(actual, expected.v) else None
    case Gt => if expected.One? then PyLess(expected.v, actual) else None
    case Lte => if !expected.One? || PyLess(actual, expected.v).None? then None
                else Some(PyLess(actual, expected.v).value || PyEqual(actual, expected.v))
    case Gte => if !expected.One? || PyLess(expected.v, actual).None? then None
                else Some(PyLess(expected.v, actual).value || PyEqual(actual, expected.v))
    case _ => None
  }

  /** Where the source would raise instead of returning a trace; TraceOf continues with FALSE there. */
  predicate Raises(p: Predicate, facts: map<string, FactValue>) {
    match p.op
    case All => exists i | 0 <= i < |p.children| :: Raises(p.children[i], facts)
    case Any => exists i | 0 <= i < |p.children| :: Raises(p.children[i], facts)
    case Not => p.children == [] || Raises(p.children[0], facts)
    case Exists => p.fact.None?
    case _ => p.fact.None? || (p.fact.value in facts && Matches(p.op, facts[p.fact.value], p.value).None?)
  }

  // ----- _dominated, _compose, _evaluate_trace

  function Dominated(t: Trace): Trace {
    t.(affected := false, children := seq(|t.children|, i requires 0 <= i < |t.children| => Dominated(t.children[i])))
  }

  predicate Has(children: seq<Trace>, v: Truth) {
    exists i | 0 <= i < |children| :: children[i].result == v
  }

  /** The value that settles a composition alone: FALSE for `all`, TRUE for `any`. */
  function Deciding(op: Op): Truth {
    if op.All? then FALSE else TRUE
  }

  function Negated(v: Truth): Truth {
    match v case TRUE => FALSE case FALSE => TRUE case UNKNOWN => UNKNOWN
  }

  function Composed(op: Op, children: seq<Trace>): Truth {
    if Has(children, Deciding(op)) then Deciding(op)
    else if forall i | 0 <= i < |children| :: children[i].result == Negated(Deciding(op)) then Negated(Deciding(op))
    else UNKNOWN
  }

  function MissingOf(children: seq<Trace>): set<string> {
    set i, k | 0 <= i < |children| && children[i].result == UNKNOWN && k in children[i].missing :: k
  }

  function Compose(op: Op, children: seq<Trace>): Trace {
    var result := Composed(op, children);
    Trace(op, result, None, false, false,
          if result == UNKNOWN then MissingOf(children) else {},
          true,
          seq(|children|, i requires 0 <= i < |children| =>
                            if children[i].result == result then children[i] else Dominated(children[i])))
  }

  function Leaf(p: Predicate, facts: map<string, FactValue>, submitted: set<string>): Trace {
    if p.fact.None? then Trace(p.op, FALSE, None, false, false, {}, true, [])
    else
      var fact := p.fact.value;
      if p.op.Exists? then
        Trace(p.op, if fact in submitted then TRUE else FALSE, p.fact, fact in facts, fact in submitted, {}, true, [])
      else if fact !in facts then
        Trace(p.op, UNKNOWN, p.fact, false, fact in submitted, {fact}, true, [])
      else
        Trace(p.op, if Matches(p.op, facts[fact], p.value).GetOr(false) then TRUE else FALSE,
              p.fact, true, fact in submitted, {}, true, [])
  }

  function TraceOf(p: Predicate, facts: map<string, FactValue>, submitted: set<string>): Trace {
    if p.op.All? || p.op.Any? then
      Compose(p.op, seq(|p.children|, i requires 0 <= i < |p.children| => TraceOf(p.children[i], facts, submitted)))
    else if p.op.Not? then
      if p.children == [] then Trace(Not, FALSE, None, false, false, {}, true, [])
      else
        var child := TraceOf(p.children[0], facts, submitted);
        Trace(Not, Negated(child.result), None, false, false,
              if child.result == UNKNOWN then child.missing else {}, true, [child])
    else Leaf(p, facts, submitted)
  }

  function Eval(p: Predicate, facts: map<string, FactValue>, submitted: set<string>): Truth {
    TraceOf(p, facts, submitted).result
  }

  function MissingFacts(p: Predicate, facts: map<string, FactValue>, submitted: set<string>): set<string> {
    TraceOf(p, facts, submitted).missing
  }

  // ----- rule shapes and the keys a rule mentions

  /** The shape every decoded rule has. */
  predicate Shaped(p: Predicate) {
    if IsBoolean(p.op) then
      && p.fact.None?
      && p.children != [] && (p.op.Not? ==> |p.children| == 1)
      && forall i | 0 <= i < |p.children| :: Shaped(p.children[i])
    else p.fact.Some? && p.children == []
  }

  lemma {:induction false} TypedIsShaped(p: Predicate, definitions: Registry)
    requires RuleTyped(p, definitions)
    ensures Shaped(p)
  {
    if IsBoolean(p.op) {
      forall i | 0 <= i < |p.children| ensures Shaped(p.children[i]) { TypedIsShaped(p.children[i], definitions); }
    }
  }

  /** Keys of the `exists` tests of a rule: the only part of a rule that looks at absence. */
  function ExistsKeys(p: Predicate): set<string> {
    (if p.op.Exists? && p.fact.Some? then {p.fact.value} else {})
    + set i, k | 0 <= i < |p.children| && k in ExistsKeys(p.children[i]) :: k
  }

  function FactKeys(p: Predicate): set<string> {
    (if p.fact.Some? then {p.fact.value} else {}) + KeysOfAll(p.children)
  }

  function KeysOfAll(ps: seq<Predicate>): set<string> {
    if ps == [] then {} else KeysOfAll(ps[..|ps| - 1]) + FactKeys(ps[|ps| - 1])
  }

  lemma {:induction false} KeysOfMember(ps: seq<Predicate>, i: nat)
    requires i < |ps|
    ensures FactKeys(ps[i]) <= KeysOfAll(ps)
  {
    if i < |ps| - 1 { KeysOfMember(ps[..|ps| - 1], i); }
  }

  lemma KeysOfChild(p: Predicate, i: nat)
    requires i < |p.children|
    ensures ExistsKeys(p.children[i]) <= ExistsKeys(p)
    ensures FactKeys(p.children[i]) <= FactKeys(p)
  {
    KeysOfMember(p.children, i);
  }

  // ----- missing Facts characterise UNKNOWN

  lemma {:induction false} UnknownExactlyIfMissing(p: Predicate, facts: map<string, FactValue>, submitted: set<string>)
    requires Shaped(p)
    ensures Eval(p, facts, submitted) == UNKNOWN <==> MissingFacts(p, facts, submitted) != {}
    ensures MissingFacts(p, facts, submitted) <= FactKeys(p) - facts.Keys
  {
    if p.op.All? || p.op.Any? {
      var ts := seq(|p.children|, i requires 0 <= i < |p.children| => TraceOf(p.children[i], facts, submitted));
      forall i | 0 <= i < |p.children|
        ensures ts[i].result == UNKNOWN <==> ts[i].missing != {}
        ensures ts[i].missing <= FactKeys(p) - facts.Keys
      {
        UnknownExactlyIfMissing(p.children[i], facts, submitted);
        KeysOfChild(p, i);
      }
      if Composed(p.op, ts) == UNKNOWN {
        var i :| 0 <= i < |ts| && ts[i].result != Negated(Deciding(p.op));
        var k :| k in ts[i].missing;
        assert k in MissingOf(ts);
      }
    } else if p.op.Not? {
      UnknownExactlyIfMissing(p.children[0], facts, submitted);
      KeysOfChild(p, 0);
    }
  }

  /** More Facts, none of the old ones changed. */
  ghost predicate Extends(more: map<string, FactValue>, facts: map<string, FactValue>) {
    facts.Keys <= more.Keys && forall k | k in facts :: more[k] == facts[k]
  }

  /** No `exists` test of the rule sees a difference. */
  ghost predicate SameExists(p: Predicate, a: set<string>, b: set<string>) {
    forall k | k in ExistsKeys(p) :: k in a <==> k in b
  }

  /** A decided rule stays decided when Facts are added. */
  lemma {:induction false} DecidedStays(p: Predicate, facts: map<string, FactValue>, submitted: set<string>,
                                        more: map<string, FactValue>, submitted': set<string>)
    requires Extends(more, facts) && SameExists(p, submitted, submitted')
    requires Eval(p, facts, submitted) != UNKNOWN
    ensures Eval(p, more, submitted') == Eval(p, facts, submitted)
  {
    if p.op.All? || p.op.Any? {
      var ts := seq(|p.children|, i requires 0 <= i < |p.children| => TraceOf(p.children[i], facts, submitted));
      var us := seq(|p.children|, i requires 0 <= i < |p.children| => TraceOf(p.children[i], more, submitted'));
      forall i | 0 <= i < |ts| && ts[i].result != UNKNOWN ensures us[i].result == ts[i].result {
        KeysOfChild(p, i);
        DecidedStays(p.children[i], facts, submitted, more, submitted');
      }
      if Has(ts, Deciding(p.op)) {
        var i :| 0 <= i < |ts| && ts[i].result == Deciding(p.op);
        assert us[i].result == Deciding(p.op);
      }
    } else if p.op.Not? && p.children != [] {
      KeysOfChild(p, 0);
      DecidedStays(p.children[0], facts, submitted, more, submitted');
    } else if p.op.Exists? && p.fact.Some? {
      assert p.fact.value in ExistsKeys(p);
    }
  }

  /** Supplying every missing Fact decides the rule. */
  lemma {:induction false} MissingDecides(p: Predicate, facts: map<string, FactValue>, submitted: set<string>,
                                          more: map<string, FactValue>, submitted': set<string>)
    requires Shaped(p) && Extends(more, facts) && SameExists(p, submitted, submitted')
    requires MissingFacts(p, facts, submitted) <= more.Keys
    ensures Eval(p, more, submitted') != UNKNOWN
  {
    if Eval(p, facts, submitted) != UNKNOWN {
      DecidedStays(p, facts, submitted, more, submitted');
    } else if p.op.All? || p.op.Any? {
      var ts := seq(|p.children|, i requires 0 <= i < |p.children| => TraceOf(p.children[i], facts, submitted));
      var us := seq(|p.children|, i requires 0 <= i < |p.children| => TraceOf(p.children[i], more, submitted'));
      forall i | 0 <= i < |ts| ensures us[i].result != UNKNOWN {
        KeysOfChild(p, i);
        UnknownExactlyIfMissing(p.children[i], facts, submitted);
        assert ts[i].result == UNKNOWN ==> forall k | k in ts[i].missing :: k in MissingOf(ts);
        MissingDecides(p.children[i], facts, submitted, more, submitted');
      }
      assert !Has(us, UNKNOWN);
      if !Has(us, Deciding(p.op)) {
        assert forall i | 0 <= i < |us| :: us[i].result == Negated(Deciding(p.op));
      }
    } else if p.op.Not? {
      KeysOfChild(p, 0);
      MissingDecides(p.children[0], facts, submitted, more, submitted');
    }
  }

  /** Supplying only other Facts leaves the rule UNKNOWN: every missing Fact set is hit before it is decided. */
  lemma {:induction false} OtherFactsDoNotDecide(p: Predicate, facts: map<string, FactValue>, submitted: set<string>,
                                                 more: map<string, FactValue>, submitted': set<string>)
    requires Shaped(p) && Extends(more, facts) && SameExists(p, submitted, submitted')
    requires Eval(p, facts, submitted) == UNKNOWN
    requires MissingFacts(p, facts, submitted) !! more.Keys
    ensures Eval(p, more, submitted') == UNKNOWN
  {
    if p.op.All? || p.op.Any? {
      var ts := seq(|p.children|, i requires 0 <= i < |p.children| => TraceOf(p.children[i], facts, submitted));
      var us := seq(|p.children|, i requires 0 <= i < |p.children| => TraceOf(p.children[i], more, submitted'));
      forall i | 0 <= i < |ts| ensures us[i].result == ts[i].result {
        KeysOfChild(p, i);
        if ts[i].result == UNKNOWN {
          assert forall k | k in ts[i].missing :: k in MissingOf(ts);
          OtherFactsDoNotDecide(p.children[i], facts, submitted, more, submitted');
        } else {
          DecidedStays(p.children[i], facts, submitted, more, submitted');
        }
      }
      assert !Has(ts, Deciding(p.op));
      var i :| 0 <= i < |ts| && ts[i].result != Negated(Deciding(p.op));
      assert us[i].result != Negated(Deciding(p.op));
    } else if p.op.Not? {
      KeysOfChild(p, 0);
      OtherFactsDoNotDecide(p.children[0], facts, submitted, more, submitted');
    }
  }

  // ----- blame: the submitted keys a result rests on

  /** Submitted leaves reached through consequential nodes only. */
  function InfluentialKeys(t: Trace): set<string> {
    if !t.affected then {}
    else
      (if t.factKey.Some? && t.submitted then {t.factKey.value} else {}) + InfluenceOfAll(t.children)
  }

  function InfluenceOfAll(ts: seq<Trace>): set<string> {
    if ts == [] then {} else InfluenceOfAll(ts[..|ts| - 1]) + InfluentialKeys(ts[|ts| - 1])
  }

  lemma {:induction false} InfluenceOfMember(ts: seq<Trace>, i: nat)
    requires i < |ts|
    ensures InfluentialKeys(ts[i]) <= InfluenceOfAll(ts)
  {
    if i < |ts| - 1 { InfluenceOfMember(ts[..|ts| - 1], i); }
  }

  lemma {:induction false} InfluenceWithin(ts: seq<Trace>, keys: set<string>)
    requires forall i | 0 <= i < |ts| :: InfluentialKeys(ts[i]) <= keys
    ensures InfluenceOfAll(ts) <= keys
  {
    if ts != [] { InfluenceWithin(ts[..|ts| - 1], keys); }
  }

  lemma InfluenceOfChild(t: Trace, i: nat)
    requires t.affected && i < |t.children|
    ensures InfluentialKeys(t.children[i]) <= InfluentialKeys(t)
  {
    InfluenceOfMember(t.children, i);
  }

  lemma {:induction false} BlameIsSubmitted(p: Predicate, facts: map<string, FactValue>, submitted: set<string>)
    ensures InfluentialKeys(TraceOf(p, facts, submitted)) <= submitted
  {
    var t := TraceOf(p, facts, submitted);
    if p.op.All? || p.op.Any? {
      forall i | 0 <= i < |t.children| ensures InfluentialKeys(t.children[i]) <= submitted {
        BlameIsSubmitted(p.children[i], facts, submitted);
      }
    } else if p.op.Not? && p.children != [] {
      BlameIsSubmitted(p.children[0], facts, submitted);
    }
    InfluenceWithin(t.children, submitted);
  }

  /** Answers stated only about source Facts: a mentioned key has a value exactly when it was submitted. */
  ghost predicate AboutAnswers(p: Predicate, facts: map<string, FactValue>, submitted: set<string>) {
    forall k | k in FactKeys(p) :: k in facts <==> k in submitted
  }

  /**
    Blame is sufficient: withdrawing any answers except the influential ones leaves a decided
    result as it was.
   */
  lemma {:induction false} BlameSuffices(p: Predicate, facts: map<string, FactValue>, submitted: set<string>,
                                         fewer: map<string, FactValue>, submitted': set<string>)
    requires Shaped(p)
    requires AboutAnswers(p, facts, submitted) && AboutAnswers(p, fewer, submitted')
    requires Extends(facts, fewer) && submitted' <= submitted
    requires Eval(p, facts, submitted) != UNKNOWN
    requires InfluentialKeys(TraceOf(p, facts, submitted)) <= submitted'
    ensures Eval(p, fewer, submitted') == Eval(p, facts, submitted)
  {
    if p.op.All? || p.op.Any? {
      var t := TraceOf(p, facts, submitted);
      var ts := seq(|p.children|, i requires 0 <= i < |p.children| => TraceOf(p.children[i], facts, submitted));
      var us := seq(|p.children|, i requires 0 <= i < |p.children| => TraceOf(p.children[i], fewer, submitted'));
      forall i | 0 <= i < |ts| && ts[i].result == t.result ensures us[i].result == t.result {
        InfluenceOfChild(t, i);
        assert t.children[i] == ts[i];
        KeysOfChild(p, i);
        BlameSuffices(p.children[i], facts, submitted, fewer, submitted');
      }
      if t.result == Deciding(p.op) {
        var i :| 0 <= i < |ts| && ts[i].result == Deciding(p.op);
        assert us[i].result == Deciding(p.op);
      }
    } else if p.op.Not? {
      InfluenceOfChild(TraceOf(p, facts, submitted), 0);
      KeysOfChild(p, 0);
      BlameSuffices(p.children[0], facts, submitted, fewer, submitted');
    } else {
      assert p.fact.value in FactKeys(p);
    }
  }

  /** Nothing submitted at all. */
  const NOTHING: map<string, FactValue> := map[]

  /** A decided result that blames no answer is decided, the same way, by no answers. */
  lemma NoBlameMeansNoAnswersNeeded(p: Predicate, facts: map<string, FactValue>, submitted: set<string>)
    requires Shaped(p) && AboutAnswers(p, facts, submitted)
    requires Eval(p, facts, submitted) != UNKNOWN && InfluentialKeys(TraceOf(p, facts, submitted)) == {}
    ensures Eval(p, NOTHING, {}) == Eval(p, facts, submitted)
  {
    BlameSuffices(p, facts, submitted, NOTHING, {});
  }

  /** Without `exists` tests nothing is decided before the first answer. */
  lemma {:induction false} NothingDecidesNothing(p: Predicate)
    requires Shaped(p) && ExistsKeys(p) == {}
    ensures Eval(p, NOTHING, {}) == UNKNOWN
  {
    if p.op.All? || p.op.Any? {
      var ts := seq(|p.children|, i requires 0 <= i < |p.children| => TraceOf(p.children[i], NOTHING, {}));
      forall i | 0 <= i < |ts| ensures ts[i].result == UNKNOWN {
        KeysOfChild(p, i);
        NothingDecidesNothing(p.children[i]);
      }
      assert ts[0].result == UNKNOWN;
    } else if p.op.Not? {
      KeysOfChild(p, 0);
      NothingDecidesNothing(p.children[0]);
    }
  }

  // ----- type soundness

  lemma SameKindComparable(definition: FactDefinition, a: FactValue, b: FactValue)
    requires ValueMatches(definition, a) && ValueMatches(definition, b)
    requires definition.kind.IntegerKind? || definition.kind.DateKind?
    ensures PyLess(a, b).Some?
  {}

  /** Equality never mixes Python's bool and int on values of one definition. */
  lemma SameKindEquality(definition: FactDefinition, a: FactValue, b: FactValue)
    requires ValueMatches(definition, a) && ValueMatches(definition, b)
    ensures PyEqual(a, b) <==> a == b
  {}

  /** An accepted rule over matching Facts never raises. */
  lemma {:induction false} TypedNeverRaises(p: Predicate, facts: map<string, FactValue>, definitions: Registry)
    requires RuleTyped(p, definitions) && ValuesMatch(facts, definitions)
    ensures !Raises(p, facts)
  {
    if IsBoolean(p.op) {
      forall i | 0 <= i < |p.children| ensures !Raises(p.children[i], facts) {
        TypedNeverRaises(p.children[i], facts, definitions);
      }
    } else if p.fact.value in facts && IsOrdering(p.op) {
      var definition := definitions[p.fact.value];
      SameKindComparable(definition, facts[p.fact.value], p.value.v);
      SameKindComparable(definition, p.value.v, facts[p.fact.value]);
    }
  }
}
