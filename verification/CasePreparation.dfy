/** Derivation of the five pinned Facts and contradiction checking (planning/case_preparation.py). */
module CasePreparation {
  import opened Wrappers
  import opened Ordering
  import opened Calendar
  import opened Facts
  import opened Rules
  import opened RuleRoundTrip
  import opened Evaluator

  const AGE := "age_years_on_evaluation_date"
  const CARD_EXPIRED := "card_expired_before_evaluation_date"
  const ONLY_SON := "only_son_candidate"
  const DEADLINE := "renewal_deadline_date"
  const DEADLINE_PASSED := "renewal_deadline_passed"
  const BIRTH := "birth_date"
  const EXPIRY := "national_id_expiry_date"
  const FATHER_ALIVE := "father_alive"
  const OTHER_SONS := "other_living_sons_of_father_count"

  /** The pinned derived keys in key order. */
  const DERIVED_KEYS: seq<string> := [AGE, CARD_EXPIRED, ONLY_SON, DEADLINE, DEADLINE_PASSED]

  /** DERIVED_FACT_DEPENDENCIES. */
  function DerivedSources(key: string): set<string> {
    if key == AGE then {BIRTH}
    else if key == ONLY_SON then {FATHER_ALIVE, OTHER_SONS}
    else {EXPIRY}
  }

  /** The pinned definition of a derived key. */
  function PinnedDefinition(key: string): FactDefinition {
    if key == AGE then FactDefinition(AGE, IntegerKind, [], Some(0), true)
    else if key == DEADLINE then FactDefinition(DEADLINE, DateKind, [], None, true)
    else FactDefinition(key, BooleanKind, [], None, true)
  }

  predicate Compatible(definition: FactDefinition) {
    definition.key in DERIVED_KEYS && definition == PinnedDefinition(definition.key)
  }

  datatype Contradiction = Contradiction(id: string, condition: Predicate, factKeys: seq<string>)

  datatype Preparation =
    | Prepared(facts: PreparedFacts)
    | InvalidCase(diagnostics: seq<Diagnostic>)
    | ConfigurationDefect
    | AssertionFailed

  // ----- derived values

  /** None when the source value is rejected. */
  function Derive(key: string, source: map<string, FactValue>, on: Date): Option<FactValue>
    requires DerivedSources(key) <= source.Keys
  {
    if key == AGE then
      var birth := source[BIRTH];
      if !birth.DateV? || Before(on, birth.d) then None else Some(IntV(CompletedYears(birth.d, on)))
    else if key == ONLY_SON then
      Some(BoolV(source[FATHER_ALIVE] == BoolV(true) && PyEqual(source[OTHER_SONS], IntV(0))))
    else
      var expiry := source[EXPIRY];
      if !expiry.DateV? then None
      else if key == CARD_EXPIRED then Some(BoolV(Before(expiry.d, on)))
      else
        match AddCalendarMonths(expiry.d, 3)
        case None => None
        case Some(deadline) => Some(if key == DEADLINE then DateV(deadline) else BoolV(Before(deadline, on)))
  }

  datatype Derivation =
    | Derived(values: map<string, FactValue>, missing: map<string, set<string>>)
    | Rejected(source: string)
    | Asserted

  /** What one pinned key adds. */
  function DeriveOne(so_far: Derivation, key: string, definitions: Registry, source: map<string, FactValue>,
                     on: Date): Derivation {
    if !so_far.Derived? || key !in definitions then so_far
    else if !Compatible(definitions[key]) then Asserted
    else if !(DerivedSources(key) <= source.Keys) then
      so_far.(missing := so_far.missing[key := DerivedSources(key) - source.Keys])
    else
      match Derive(key, source, on)
      case None => Rejected(if key == AGE then BIRTH else EXPIRY)
      case Some(v) => so_far.(values := so_far.values[key := v])
  }

  function DeriveAll(keys: seq<string>, definitions: Registry, source: map<string, FactValue>, on: Date): Derivation {
    if keys == [] then Derived(source, map[])
    else
      var last := keys[|keys| - 1];
      DeriveOne(DeriveAll(keys[..|keys| - 1], definitions, source, on), last, definitions, source, on)
  }

  // ----- contradictions

  function Elements(keys: seq<string>): set<string> {
    set k | k in keys
  }

  /** Two or more distinct source Facts, exactly those the condition mentions. */
  predicate Declares(declared: seq<string>, referenced: set<string>, definitions: Registry) {
    && |declared| >= 2
    && |Elements(declared)| == |declared|
    && Elements(declared) == referenced
    && forall k | k in declared :: k in definitions && !definitions[k].derived
  }

  predicate WellDeclared(c: Contradiction, definitions: Registry) {
    Declares(c.factKeys, FactKeys(c.condition), definitions)
  }

  predicate AllDeclared(cs: seq<Contradiction>, definitions: Registry) {
    cs == [] || (AllDeclared(cs[..|cs| - 1], definitions) && WellDeclared(cs[|cs| - 1], definitions))
  }

  lemma {:induction false} AllDeclaredMeans(cs: seq<Contradiction>, definitions: Registry)
    ensures AllDeclared(cs, definitions) <==> forall i | 0 <= i < |cs| :: WellDeclared(cs[i], definitions)
  {
    if cs != [] {
      AllDeclaredMeans(cs[..|cs| - 1], definitions);
      assert forall i | 0 <= i < |cs| - 1 :: cs[..|cs| - 1][i] == cs[i];
    }
  }

  /** The keys blamed for one contradiction: none unless its condition is TRUE. */
  function Blamed(c: Contradiction, facts: PreparedFacts): set<string> {
    var t := TraceOf(c.condition, facts.values, facts.submittedKeys);
    if t.result == TRUE then InfluentialKeys(t) else {}
  }

  function BlamedByAll(cs: seq<Contradiction>, facts: PreparedFacts): set<string> {
    if cs == [] then {} else BlamedByAll(cs[..|cs| - 1], facts) + Blamed(cs[|cs| - 1], facts)
  }

  function ContradictionDiagnostics(keys: seq<string>): seq<Diagnostic> {
    seq(|keys|, i requires 0 <= i < |keys| => Diagnostic(ContradictoryFacts, [Field("facts"), Field(keys[i])]))
  }

  // ----- prepare_case

  predicate DerivedAreCompatible(definitions: Registry) {
    forall k | k in definitions && definitions[k].derived :: Compatible(definitions[k])
  }

  function Prepare(definitions: Registry, contradictions: seq<Contradiction>, facts: map<string, RawValue>,
                   on: Date): Preparation {
    if !DerivedAreCompatible(definitions) then ConfigurationDefect
    else
      match SubmittedFacts(facts, definitions)
      case RejectedFacts(diagnostics) => InvalidCase(diagnostics)
      case ValidFacts(source) =>
        match DeriveAll(DERIVED_KEYS, definitions, source, on)
        case Asserted => AssertionFailed
        case Rejected(key) => InvalidCase([Diagnostic(InvalidFactValue(key), [Field("facts"), Field(key)])])
        case Derived(values, missing) =>
          Confront(definitions, contradictions, PreparedFacts(values, source.Keys, missing))
  }

  /** The contradictions against the derived case. */
  function Confront(definitions: Registry, contradictions: seq<Contradiction>, prepared: PreparedFacts): Preparation {
    if !AllDeclared(contradictions, definitions) then ConfigurationDefect
    else
      var blamed := BlamedByAll(contradictions, prepared);
      if blamed != {} then InvalidCase(ContradictionDiagnostics(SortedTexts(blamed))) else Prepared(prepared)
  }

  // ----- the loops of the source

  /** `_referenced_fact_keys`: an explicit stack over the predicate. */
  method ReferencedFactKeys(p: Predicate) returns (r: set<string>)
    ensures r == FactKeys(p)
  {
    r := {};
    var stack := [p];
    while stack != []
      invariant r + KeysOfAll(stack) == FactKeys(p)
      decreases SizeOfAll(stack)
    {
      var current := stack[|stack| - 1];
      var rest := stack[..|stack| - 1];
      KeysOfAllConcat(rest, current.children);
      assert SizeOfAll(stack) == SizeOfAll(rest) + Size(current) == SizeOfAll(rest) + 1 + SizeOfAll(current.children);
      if current.fact.Some? {
        r := r + {current.fact.value};
      }
      stack := rest + current.children;
    }
  }

  lemma {:induction false} KeysOfAllConcat(a: seq<Predicate>, b: seq<Predicate>)
    ensures KeysOfAll(a + b) == KeysOfAll(a) + KeysOfAll(b)
    ensures SizeOfAll(a + b) == SizeOfAll(a) + SizeOfAll(b)
  {
    if b == [] {
      assert a + b == a;
    } else {
      KeysOfAllConcat(a, b[..|b| - 1]);
      assert (a + b)[..|a + b| - 1] == a + b[..|b| - 1];
    }
  }

  /** `_influential_submitted_fact_keys`: an explicit stack over the trace, skipping dominated subtrees. */
  method CollectInfluentialKeys(t: Trace) returns (r: set<string>)
    ensures r == InfluentialKeys(t)
  {
    r := {};
    var stack := [t];
    while stack != []
      invariant r + InfluenceOfAll(stack) == InfluentialKeys(t)
      decreases TraceSizes(stack)
    {
      var current := stack[|stack| - 1];
      var rest := stack[..|stack| - 1];
      InfluenceOfAllConcat(rest, current.children);
      stack := rest;
      if current.affected {
        if current.factKey.Some? && current.submitted {
          r := r + {current.factKey.value};
        }
        stack := rest + current.children;
      }
    }
  }

  ghost function TraceSizes(ts: seq<Trace>): nat {
    if ts == [] then 0 else TraceSizes(ts[..|ts| - 1]) + 1 + TraceSizes(ts[|ts| - 1].children)
  }

  lemma {:induction false} InfluenceOfAllConcat(a: seq<Trace>, b: seq<Trace>)
    ensures InfluenceOfAll(a + b) == InfluenceOfAll(a) + InfluenceOfAll(b)
    ensures TraceSizes(a + b) == TraceSizes(a) + TraceSizes(b)
  {
    if b == [] {
      assert a + b == a;
    } else {
      InfluenceOfAllConcat(a, b[..|b| - 1]);
      assert (a + b)[..|a + b| - 1] == a + b[..|b| - 1];
    }
  }

  /** The derivation loop, with its early returns. */
  method DeriveFacts(keys: seq<string>, definitions: Registry, source: map<string, FactValue>, on: Date)
    returns (r: Derivation)
    ensures r == DeriveAll(keys, definitions, source, on)
  {
    var values := source;
    var missing: map<string, set<string>> := map[];
    var n: nat := 0;
    while n < |keys|
      invariant n <= |keys|
      invariant DeriveAll(keys[..n], definitions, source, on) == Derived(values, missing)
    {
      var key := keys[n];
      DeriveNext(keys, n, definitions, source, on);
      n := n + 1;
      if key in definitions {
        if !Compatible(definitions[key]) {
          Stuck(keys, n, definitions, source, on);
          return Asserted;
        }
        if !(DerivedSources(key) <= source.Keys) {
          missing := missing[key := DerivedSources(key) - source.Keys];
        } else {
          var derived := Derive(key, source, on);
          if derived.None? {
            Stuck(keys, n, definitions, source, on);
            return Rejected(if key == AGE then BIRTH else EXPIRY);
          }
          values := values[key := derived.value];
        }
      }
    }
    assert keys[..|keys|] == keys;
    r := Derived(values, missing);
  }

  method BlamedKeys(c: Contradiction, prepared: PreparedFacts) returns (r: set<string>)
    ensures r == Blamed(c, prepared)
  {
    var trace := TraceOf(c.condition, prepared.values, prepared.submittedKeys);
    if trace.result == TRUE {
      r := CollectInfluentialKeys(trace);
    } else {
      r := {};
    }
  }

  lemma ContradictionNext(cs: seq<Contradiction>, n: nat, definitions: Registry, facts: PreparedFacts)
    requires n < |cs|
    ensures BlamedByAll(cs[..n + 1], facts) == BlamedByAll(cs[..n], facts) + Blamed(cs[n], facts)
    ensures AllDeclared(cs[..n + 1], definitions)
            == (AllDeclared(cs[..n], definitions) && WellDeclared(cs[n], definitions))
  {
    assert cs[..n + 1][..n] == cs[..n];
  }

  method IsWellDeclared(c: Contradiction, definitions: Registry) returns (r: bool)
    ensures r == WellDeclared(c, definitions)
  {
    var referenced := ReferencedFactKeys(c.condition);
    r := Declares(c.factKeys, referenced, definitions);
  }

  /** The contradiction loop: None when a definition is malformed, otherwise every blamed key. */
  method CheckContradictions(contradictions: seq<Contradiction>, definitions: Registry, prepared: PreparedFacts)
    returns (r: Option<set<string>>)
    ensures r == if AllDeclared(contradictions, definitions) then Some(BlamedByAll(contradictions, prepared)) else None
  {
    var contradictory: set<string> := {};
    var n: nat := 0;
    while n < |contradictions|
      invariant n <= |contradictions|
      invariant AllDeclared(contradictions[..n], definitions)
      invariant contradictory == BlamedByAll(contradictions[..n], prepared)
    {
      var declared := IsWellDeclared(contradictions[n], definitions);
      if !declared {
        OneBadDeclaration(contradictions, n, definitions);
        return None;
      }
      ContradictionNext(contradictions, n, definitions, prepared);
      var keys := BlamedKeys(contradictions[n], prepared);
      contradictory := contradictory + keys;
      n := n + 1;
    }
    assert contradictions[..|contradictions|] == contradictions;
    r := Some(contradictory);
  }

  lemma OneBadDeclaration(cs: seq<Contradiction>, n: nat, definitions: Registry)
    requires n < |cs| && !WellDeclared(cs[n], definitions)
    ensures !AllDeclared(cs, definitions)
  {
    AllDeclaredMeans(cs, definitions);
  }

  method PrepareCase(definitions: Registry, contradictions: seq<Contradiction>, facts: map<string, RawValue>, on: Date)
    returns (r: Preparation)
    ensures r == Prepare(definitions, contradictions, facts, on)
  {
    if !DerivedAreCompatible(definitions) {
      return ConfigurationDefect;
    }
    var validation := ValidateSubmittedFacts(facts, definitions);
    if validation.RejectedFacts? {
      return InvalidCase(validation.diagnostics);
    }
    var derivation := DeriveFacts(DERIVED_KEYS, definitions, validation.facts, on);
    match derivation
    case Asserted => return AssertionFailed;
    case Rejected(bad) => return InvalidCase([Diagnostic(InvalidFactValue(bad), [Field("facts"), Field(bad)])]);
    case Derived(values, missing) =>
      r := ConfrontCase(definitions, contradictions, PreparedFacts(values, validation.facts.Keys, missing));
  }

  method ConfrontCase(definitions: Registry, contradictions: seq<Contradiction>, prepared: PreparedFacts)
    returns (r: Preparation)
    ensures r == Confront(definitions, contradictions, prepared)
  {
    var contradictory := CheckContradictions(contradictions, definitions, prepared);
    if contradictory.None? {
      return ConfigurationDefect;
    }
    if contradictory.value != {} {
      return InvalidCase(ContradictionDiagnostics(SortedTexts(contradictory.value)));
    }
    r := Prepared(prepared);
  }

  lemma DeriveNext(keys: seq<string>, n: nat, definitions: Registry, source: map<string, FactValue>, on: Date)
    requires n < |keys|
    ensures DeriveAll(keys[..n + 1], definitions, source, on)
            == DeriveOne(DeriveAll(keys[..n], definitions, source, on), keys[n], definitions, source, on)
  {
    assert keys[..n + 1][..n] == keys[..n];
  }

  /** A derivation that stopped early stays stopped. */
  lemma {:induction false} Stuck(keys: seq<string>, n: nat, definitions: Registry, source: map<string, FactValue>,
                                 on: Date)
    requires n <= |keys|
    requires !DeriveAll(keys[..n], definitions, source, on).Derived?
    ensures DeriveAll(keys, definitions, source, on) == DeriveAll(keys[..n], definitions, source, on)
    decreases |keys| - n
  {
    if n == |keys| {
      assert keys[..n] == keys;
    } else {
      DeriveNext(keys, n, definitions, source, on);
      Stuck(keys, n + 1, definitions, source, on);
    }
  }
}
