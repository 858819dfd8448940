/** What a rule means, operator by operator, and what its misses and its blame are made of (planning/evaluator.py). */
module EvaluatorLaws {
  import opened Wrappers
  import opened Facts
  import opened Rules
  import opened RuleRoundTrip
  import opened Evaluator

  // ----- composition

  lemma AllMeans(p: Predicate, facts: map<string, FactValue>, submitted: set<string>)
    requires p.op.All?
    ensures Eval(p, facts, submitted) == TRUE <==> forall c | c in p.children :: Eval(c, facts, submitted) == TRUE
    ensures Eval(p, facts, submitted) == FALSE <==> exists c | c in p.children :: Eval(c, facts, submitted) == FALSE
  {
    ChildResults(p, facts, submitted, TRUE);
    ChildResults(p, facts, submitted, FALSE);
  }

  lemma AnyMeans(p: Predicate, facts: map<string, FactValue>, submitted: set<string>)
    requires p.op.Any?
    ensures Eval(p, facts, submitted) == TRUE <==> exists c | c in p.children :: Eval(c, facts, submitted) == TRUE
    ensures Eval(p, facts, submitted) == FALSE <==> forall c | c in p.children :: Eval(c, facts, submitted) == FALSE
  {
    ChildResults(p, facts, submitted, TRUE);
    ChildResults(p, facts, submitted, FALSE);
  }

  lemma NotMeans(p: Predicate, facts: map<string, FactValue>, submitted: set<string>)
    requires p.op.Not? && |p.children| == 1
    ensures Eval(p, facts, submitted) == TRUE <==> Eval(p.children[0], facts, submitted) == FALSE
    ensures Eval(p, facts, submitted) == FALSE <==> Eval(p.children[0], facts, submitted) == TRUE
  {}

  lemma ChildResults(p: Predicate, facts: map<string, FactValue>, submitted: set<string>, v: Truth)
    requires p.op.All? || p.op.Any?
    ensures var ts := seq(|p.children|, i requires 0 <= i < |p.children| => TraceOf(p.children[i], facts, submitted));
            && TraceOf(p, facts, submitted) == Compose(p.op, ts)
            && (Has(ts, v) <==> exists c | c in p.children :: Eval(c, facts, submitted) == v)
            && ((forall i | 0 <= i < |ts| :: ts[i].result == v)
                <==> forall c | c in p.children :: Eval(c, facts, submitted) == v)
  {
    var ts := seq(|p.children|, i requires 0 <= i < |p.children| => TraceOf(p.children[i], facts, submitted));
    ResultsOf(ts, p.children, facts, submitted, v);
  }

  lemma ResultsOf(ts: seq<Trace>, children: seq<Predicate>, facts: map<string, FactValue>, submitted: set<string>,
                  v: Truth)
    requires |ts| == |children| && forall i | 0 <= i < |ts| :: ts[i].result == Eval(children[i], facts, submitted)
    ensures Has(ts, v) <==> exists c | c in children :: Eval(c, facts, submitted) == v
    ensures (forall i | 0 <= i < |ts| :: ts[i].result == v)
            <==> forall c | c in children :: Eval(c, facts, submitted) == v
  {
    if c :| c in children && Eval(c, facts, submitted) == v {
      var i :| 0 <= i < |children| && children[i] == c;
      assert ts[i].result == v;
    }
    if c :| c in children && Eval(c, facts, submitted) != v {
      var i :| 0 <= i < |children| && children[i] == c;
      assert ts[i].result != v;
    }
    forall i | 0 <= i < |ts| ensures children[i] in children {}
  }

  // ----- leaves

  /** `exists` looks at what was submitted, and at nothing else. */
  lemma ExistsMeans(p: Predicate, facts: map<string, FactValue>, submitted: set<string>)
    requires p.op.Exists? && p.fact.Some?
    ensures Eval(p, facts, submitted) == if p.fact.value in submitted then TRUE else FALSE
  {}

  /** Integers by value, dates by year, then month, then day. */
  predicate Smaller(a: FactValue, b: FactValue) {
    || (a.IntV? && b.IntV? && a.i < b.i)
    || (a.DateV? && b.DateV?
        && (|| a.d.year < b.d.year
            || (a.d.year == b.d.year && a.d.month < b.d.month)
            || (a.d.year == b.d.year && a.d.month == b.d.month && a.d.day < b.d.day)))
  }

  /** What the comparison of a leaf asserts of the Fact's value. */
  predicate Asserts(p: Predicate, v: FactValue) {
    match p.op
    case Eq => p.value == One(v)
    case In => p.value.Many? && v in p.value.vs
    case Lt => p.value.One? && Smaller(v, p.value.v)
    case Lte => p.value.One? && (Smaller(v, p.value.v) || v == p.value.v)
    case Gt => p.value.One? && Smaller(p.value.v, v)
    case Gte => p.value.One? && (Smaller(p.value.v, v) || v == p.value.v)
    case _ => false
  }

  /** A validated comparison is UNKNOWN without the Fact, and otherwise TRUE exactly when the value is as it asserts. */
  lemma ComparisonMeans(p: Predicate, facts: map<string, FactValue>, submitted: set<string>, definitions: Registry)
    requires !IsBoolean(p.op) && !p.op.Exists? && RuleTyped(p, definitions) && ValuesMatch(facts, definitions)
    ensures Eval(p, facts, submitted) == UNKNOWN <==> p.fact.value !in facts
    ensures Eval(p, facts, submitted) == TRUE <==> p.fact.value in facts && Asserts(p, facts[p.fact.value])
  {
    if p.fact.value in facts {
      var definition, v := definitions[p.fact.value], facts[p.fact.value];
      if p.value.One? { SameKindEquality(definition, v, p.value.v); }
      if p.value.Many? {
        forall i | 0 <= i < |p.value.vs| ensures PyEqual(v, p.value.vs[i]) <==> v == p.value.vs[i] {
          SameKindEquality(definition, v, p.value.vs[i]);
        }
      }
    }
  }

  /** Across kinds, `eq` is Python's: a boolean equals the integer it counts as. */
  lemma EqualityMeans(p: Predicate, facts: map<string, FactValue>, submitted: set<string>)
    requires p.op.Eq? && p.fact.Some? && p.fact.value in facts && p.value.One?
    ensures var v, w := facts[p.fact.value], p.value.v;
            Eval(p, facts, submitted) == TRUE
            <==> || v == w
                 || (v.BoolV? && w == IntV(if v.b then 1 else 0))
                 || (w.BoolV? && v == IntV(if w.b then 1 else 0))
  {}

  // ----- what is missing, and who is to blame

  /** An undecided rule misses what its undecided parts miss; a decided one misses nothing. */
  lemma MissingMeans(p: Predicate, facts: map<string, FactValue>, submitted: set<string>)
    requires Shaped(p)
    ensures MissingFacts(p, facts, submitted) ==
            if Eval(p, facts, submitted) != UNKNOWN then {}
            else if IsBoolean(p.op) then
              set c, k | c in p.children && Eval(c, facts, submitted) == UNKNOWN
                         && k in MissingFacts(c, facts, submitted) :: k
            else {p.fact.value}
  {
    if p.op.All? || p.op.Any? {
      var ts := seq(|p.children|, i requires 0 <= i < |p.children| => TraceOf(p.children[i], facts, submitted));
      forall c, k | c in p.children && Eval(c, facts, submitted) == UNKNOWN && k in MissingFacts(c, facts, submitted)
        ensures k in MissingOf(ts)
      {
        var i :| 0 <= i < |p.children| && p.children[i] == c;
        assert ts[i].result == UNKNOWN && k in ts[i].missing;
      }
      forall k | k in MissingOf(ts)
        ensures exists c | c in p.children ::
                  Eval(c, facts, submitted) == UNKNOWN && k in MissingFacts(c, facts, submitted)
      {
        var i :| 0 <= i < |ts| && ts[i].result == UNKNOWN && k in ts[i].missing;
        assert p.children[i] in p.children && k in MissingFacts(p.children[i], facts, submitted);
      }
    } else if p.op.Not? {
      assert p.children == [p.children[0]];
    }
  }

  /** The submitted keys a rule's value rests on. */
  function Blame(p: Predicate, facts: map<string, FactValue>, submitted: set<string>): set<string> {
    InfluentialKeys(TraceOf(p, facts, submitted))
  }

  /** Blame for `all` and `any` comes from the parts whose value is the whole's. */
  lemma BlameOfComposition(p: Predicate, facts: map<string, FactValue>, submitted: set<string>)
    requires p.op.All? || p.op.Any?
    ensures forall k ::
              k in Blame(p, facts, submitted)
              <==> exists c | c in p.children ::
                     Eval(c, facts, submitted) == Eval(p, facts, submitted) && k in Blame(c, facts, submitted)
  {
    var ts := seq(|p.children|, i requires 0 <= i < |p.children| => TraceOf(p.children[i], facts, submitted));
    assert TraceOf(p, facts, submitted) == Compose(p.op, ts);
    forall k
      ensures k in Blame(p, facts, submitted)
              <==> exists i | 0 <= i < |ts| :: ts[i].result == Composed(p.op, ts) && k in InfluentialKeys(ts[i])
    {
      InfluenceOfComposed(p.op, ts, k);
    }
    forall c, k | c in p.children && Eval(c, facts, submitted) == Composed(p.op, ts) && k in Blame(c, facts, submitted)
      ensures k in Blame(p, facts, submitted)
    {
      var i :| 0 <= i < |p.children| && p.children[i] == c;
      assert ts[i] == TraceOf(c, facts, submitted);
    }
    forall i | 0 <= i < |ts| ensures p.children[i] in p.children && ts[i] == TraceOf(p.children[i], facts, submitted) {}
  }

  lemma InfluenceOfComposed(op: Op, ts: seq<Trace>, k: string)
    ensures k in InfluentialKeys(Compose(op, ts))
            <==> exists i | 0 <= i < |ts| :: ts[i].result == Composed(op, ts) && k in InfluentialKeys(ts[i])
  {
    var t := Compose(op, ts);
    InfluenceIsUnion(t.children);
    assert t.affected && t.factKey.None? && |t.children| == |ts|;
    assert forall i | 0 <= i < |ts| :: t.children[i] == if ts[i].result == t.result then ts[i] else Dominated(ts[i]);
    assert forall i | 0 <= i < |ts| :: InfluentialKeys(Dominated(ts[i])) == {};
  }

  /** `not` is blamed on what its part is blamed on, and a leaf on its Fact, if that was submitted. */
  lemma BlameOfOthers(p: Predicate, facts: map<string, FactValue>, submitted: set<string>)
    requires Shaped(p) && !p.op.All? && !p.op.Any?
    ensures Blame(p, facts, submitted)
            == if p.op.Not? then Blame(p.children[0], facts, submitted) else {p.fact.value} * submitted
  {
    assert InfluenceOfAll([]) == {};
    if p.op.Not? {
      var child := TraceOf(p.children[0], facts, submitted);
      assert TraceOf(p, facts, submitted).children == [child] && [child][..0] == [];
      assert InfluenceOfAll([child]) == InfluenceOfAll([]) + InfluentialKeys(child);
    }
  }

  lemma {:induction false} InfluenceIsUnion(ts: seq<Trace>)
    ensures forall k :: k in InfluenceOfAll(ts) <==> exists i | 0 <= i < |ts| :: k in InfluentialKeys(ts[i])
  {
    if ts != [] {
      var init := ts[..|ts| - 1];
      InfluenceIsUnion(init);
      assert forall i | 0 <= i < |init| :: init[i] == ts[i];
    }
  }

  // ----- what a rule mentions

  /** The Fact stands somewhere in the rule. */
  predicate Mentions(p: Predicate, k: string)
    decreases p
  {
    p.fact == Some(k) || exists i | 0 <= i < |p.children| :: Mentions(p.children[i], k)
  }

  lemma {:induction false} KeysOfAllMean(ps: seq<Predicate>, k: string)
    ensures k in KeysOfAll(ps) <==> exists i | 0 <= i < |ps| :: k in FactKeys(ps[i])
  {
    if ps != [] {
      KeysOfAllMean(ps[..|ps| - 1], k);
      assert forall i | 0 <= i < |ps| - 1 :: ps[..|ps| - 1][i] == ps[i];
    }
  }

  lemma {:induction false} MentionedExactlyIf(p: Predicate, k: string)
    ensures k in FactKeys(p) <==> Mentions(p, k)
    decreases p
  {
    KeysOfAllMean(p.children, k);
    forall i | 0 <= i < |p.children| { MentionedExactlyIf(p.children[i], k); }
  }
}
