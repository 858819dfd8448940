/** The Fact registry, submitted-Fact validation and the prepared-Fact hand-off (planning/facts.py). */
module Facts {
  import opened Wrappers
  import opened Calendar
  import opened Ordering

  datatype FactValue = BoolV(b: bool) | IntV(i: int) | DateV(d: Date) | TextV(t: string)

  /** A value a caller may submit: one of the four Fact types, or an object of any other type. */
  datatype RawValue = Typed(v: FactValue) | Foreign

  datatype FactKind = EnumKind | IntegerKind | BooleanKind | DateKind | StringKind

  datatype FactDefinition =
    FactDefinition(key: string, kind: FactKind, enumValues: seq<string>, minimum: Option<int>, derived: bool)

  type Registry = map<string, FactDefinition>

  /** Registries are built from rows by their own key. */
  predicate KeyedByKey(definitions: Registry) {
    forall k | k in definitions :: definitions[k].key == k
  }

  predicate ValueMatches(definition: FactDefinition, v: FactValue) {
    match definition.kind
    case BooleanKind => v.BoolV?
    case IntegerKind => v.IntV? && (definition.minimum.None? || v.i >= definition.minimum.value)
    case DateKind => v.DateV?
    case StringKind => v.TextV?
    case EnumKind => v.TextV? && v.t in definition.enumValues
  }

  /** Every value is one its definition admits. */
  predicate ValuesMatch(values: map<string, FactValue>, definitions: Registry) {
    forall k | k in values :: k in definitions && ValueMatches(definitions[k], values[k])
  }

  // ----- diagnostics shared by the planning validators

  datatype PathPart = Field(name: string) | Index(i: nat)
  type Path = seq<PathPart>

  /** Each constructor is one code family; `Family` is the part of the code before the colon. */
  datatype Code =
    | MalformedRule(op: string)
    | UnsupportedRuleOperator(op: string)
    | EmptyBooleanComposition(op: string)
    | MissingRuleFact(op: string)
    | UnsupportedRuleFact(fact: string)
    | ExistsRequiresSourceFact(fact: string)
    | OrderingNotSupportedForFact(fact: string)
    | InvalidRuleOperand(fact: string)
    | RuleTooLarge
    | UnsupportedFactKey(key: string)
    | DerivedFactCannotBeSubmitted(key: string)
    | InvalidFactValue(key: string)
    | ContradictoryFacts

  datatype Diagnostic = Diagnostic(code: Code, path: Path)

  // ----- validate_submitted_facts

  function FactDefect(definitions: Registry, key: string, raw: RawValue): Option<Code> {
    if key !in definitions then Some(UnsupportedFactKey(key))
    else if definitions[key].derived then Some(DerivedFactCannotBeSubmitted(key))
    else if raw.Foreign? || !ValueMatches(definitions[key], raw.v) then Some(InvalidFactValue(key))
    else None
  }

  function FactDiagnostics(facts: map<string, RawValue>, definitions: Registry, keys: seq<string>): seq<Diagnostic>
    requires forall k | k in keys :: k in facts
  {
    if keys == [] then []
    else
      var last := keys[|keys| - 1];
      var defect := FactDefect(definitions, last, facts[last]);
      FactDiagnostics(facts, definitions, keys[..|keys| - 1])
      + (if defect.Some? then [Diagnostic(defect.value, [Field("facts"), Field(last)])] else [])
  }

  datatype FactValidation = ValidFacts(facts: map<string, FactValue>) | RejectedFacts(diagnostics: seq<Diagnostic>)

  function GoodAmong(facts: map<string, RawValue>, definitions: Registry, keys: seq<string>): map<string, FactValue>
    requires forall k | k in keys :: k in facts
  {
    map k | k in keys && FactDefect(definitions, k, facts[k]).None? :: facts[k].v
  }

  function SubmittedFacts(facts: map<string, RawValue>, definitions: Registry): FactValidation {
    var keys := SortedTexts(facts.Keys);
    var diagnostics := FactDiagnostics(facts, definitions, keys);
    if diagnostics == [] then ValidFacts(GoodAmong(facts, definitions, keys)) else RejectedFacts(diagnostics)
  }

  lemma NoDiagnosticsMeansNoDefect(facts: map<string, RawValue>, definitions: Registry)
    ensures SubmittedFacts(facts, definitions).ValidFacts?
            <==> forall k | k in facts :: FactDefect(definitions, k, facts[k]).None?
  {
    var keys := SortedTexts(facts.Keys);
    DiagnosticsNameBadKeys(facts, definitions, keys);
    var bad := BadKeys(facts, definitions, keys);
    if bad == [] {
      forall k | k in facts ensures FactDefect(definitions, k, facts[k]).None? {
        assert k !in bad;
      }
    } else {
      assert bad[0] in bad;
    }
  }

  lemma DefectFreeMeaning(definitions: Registry, key: string, raw: RawValue)
    requires FactDefect(definitions, key, raw).None?
    ensures key in definitions && !definitions[key].derived && raw.Typed? && ValueMatches(definitions[key], raw.v)
  {}

  /** All-or-nothing: acceptance copies every submitted value unchanged, each defined, typed and not derived. */
  lemma AcceptanceCopiesAll(facts: map<string, RawValue>, definitions: Registry)
    requires SubmittedFacts(facts, definitions).ValidFacts?
    ensures var copied := SubmittedFacts(facts, definitions).facts;
            && copied.Keys == facts.Keys
            && ValuesMatch(copied, definitions)
            && forall k | k in copied :: !definitions[k].derived && facts[k] == Typed(copied[k])
  {
    NoDiagnosticsMeansNoDefect(facts, definitions);
    var copied := SubmittedFacts(facts, definitions).facts;
    forall k | k in facts
      ensures k in copied && k in definitions && !definitions[k].derived
      ensures facts[k] == Typed(copied[k]) && ValueMatches(definitions[k], copied[k])
    {
      DefectFreeMeaning(definitions, k, facts[k]);
    }
  }

  /** The bad keys among `keys`, in their order. */
  ghost function BadKeys(facts: map<string, RawValue>, definitions: Registry, keys: seq<string>): (bad: seq<string>)
    requires forall k | k in keys :: k in facts
    ensures forall k :: k in bad <==> k in keys && FactDefect(definitions, k, facts[k]).Some?
  {
    if keys == [] then []
    else
      var init, last := BadKeys(facts, definitions, keys[..|keys| - 1]), keys[|keys| - 1];
      assert keys == keys[..|keys| - 1] + [last];
      if FactDefect(definitions, last, facts[last]).Some? then init + [last] else init
  }

  ghost predicate StrictlySorted(keys: seq<string>) {
    forall i, j | 0 <= i < j < |keys| :: keys[i] != keys[j] && TextLe(keys[i], keys[j])
  }

  /** The diagnostics name the keys one by one. */
  ghost predicate Name(diagnostics: seq<Diagnostic>, bad: seq<string>, facts: map<string, RawValue>,
                       definitions: Registry) {
    && |diagnostics| == |bad|
    && forall i | 0 <= i < |bad| ::
         && bad[i] in facts && FactDefect(definitions, bad[i], facts[bad[i]]).Some?
         && diagnostics[i]
            == Diagnostic(FactDefect(definitions, bad[i], facts[bad[i]]).value, [Field("facts"), Field(bad[i])])
  }

  /** A rejection names every bad key once, in key order, and no good key. */
  lemma RejectionIsComplete(facts: map<string, RawValue>, definitions: Registry) returns (bad: seq<string>)
    requires SubmittedFacts(facts, definitions).RejectedFacts?
    ensures forall k :: k in bad <==> k in facts && FactDefect(definitions, k, facts[k]).Some?
    ensures StrictlySorted(bad)
    ensures Name(SubmittedFacts(facts, definitions).diagnostics, bad, facts, definitions)
  {
    var keys := SortedTexts(facts.Keys);
    bad := BadKeys(facts, definitions, keys);
    DiagnosticsNameBadKeys(facts, definitions, keys);
  }

  lemma {:induction false} DiagnosticsNameBadKeys(facts: map<string, RawValue>, definitions: Registry,
                                                  keys: seq<string>)
    requires forall k | k in keys :: k in facts
    requires StrictlySorted(keys)
    ensures StrictlySorted(BadKeys(facts, definitions, keys))
    ensures Name(FactDiagnostics(facts, definitions, keys), BadKeys(facts, definitions, keys), facts, definitions)
  {
    if keys != [] {
      var init, last := keys[..|keys| - 1], keys[|keys| - 1];
      DiagnosticsNameBadKeys(facts, definitions, init);
      var bad := BadKeys(facts, definitions, init);
      forall i | 0 <= i < |bad| ensures bad[i] != last && TextLe(bad[i], last) {
        assert bad[i] in init;
      }
    }
  }

  /** What the loop has collected over some of the keys. */
  ghost predicate Collected(diagnostics: seq<Diagnostic>, copied: map<string, FactValue>, facts: map<string, RawValue>,
                            definitions: Registry, keys: seq<string>)
    requires forall k | k in keys :: k in facts
  {
    diagnostics == FactDiagnostics(facts, definitions, keys) && copied == GoodAmong(facts, definitions, keys)
  }

  lemma CollectedNext(diagnostics: seq<Diagnostic>, copied: map<string, FactValue>, facts: map<string, RawValue>,
                      definitions: Registry, keys: seq<string>, n: nat)
    requires forall k | k in keys :: k in facts
    requires n < |keys| && Collected(diagnostics, copied, facts, definitions, keys[..n])
    ensures var defect := FactDefect(definitions, keys[n], facts[keys[n]]);
            if defect.Some? then
              var named := diagnostics + [Diagnostic(defect.value, [Field("facts"), Field(keys[n])])];
              Collected(named, copied, facts, definitions, keys[..n + 1])
            else
              Collected(diagnostics, copied[keys[n] := facts[keys[n]].v], facts, definitions, keys[..n + 1])
  {
    assert keys[..n + 1] == keys[..n] + [keys[n]];
    assert keys[..n + 1][..n] == keys[..n];
  }

  /** The checks on one submitted value, in the source's order. */
  method CheckFact(definitions: Registry, key: string, raw: RawValue) returns (defect: Option<Code>)
    ensures defect == FactDefect(definitions, key, raw)
  {
    if key !in definitions { return Some(UnsupportedFactKey(key)); }
    if definitions[key].derived { return Some(DerivedFactCannotBeSubmitted(key)); }
    if raw.Foreign? || !ValueMatches(definitions[key], raw.v) { return Some(InvalidFactValue(key)); }
    return None;
  }

  method ValidateSubmittedFacts(facts: map<string, RawValue>, definitions: Registry) returns (r: FactValidation)
    ensures r == SubmittedFacts(facts, definitions)
  {
    var diagnostics, copied := CollectFacts(facts, definitions, SortedTexts(facts.Keys));
    r := if diagnostics != [] then RejectedFacts(diagnostics) else ValidFacts(copied);
  }

  /** The accumulating loop over the sorted keys. */
  method CollectFacts(facts: map<string, RawValue>, definitions: Registry, keys: seq<string>)
    returns (diagnostics: seq<Diagnostic>, copied: map<string, FactValue>)
    requires forall k | k in keys :: k in facts
    ensures Collected(diagnostics, copied, facts, definitions, keys)
  {
    diagnostics, copied := [], map[];
    for n := 0 to |keys|
      invariant Collected(diagnostics, copied, facts, definitions, keys[..n])
    {
      CollectedNext(diagnostics, copied, facts, definitions, keys, n);
      var key := keys[n];
      var defect := CheckFact(definitions, key, facts[key]);
      if defect.Some? {
        diagnostics := diagnostics + [Diagnostic(defect.value, [Field("facts"), Field(key)])];
      } else {
        DefectFreeMeaning(definitions, key, facts[key]);
        copied := copied[key := facts[key].v];
      }
    }
    assert keys[..|keys|] == keys;
  }

  /** What case preparation hands to every later phase. */
  datatype PreparedFacts =
    PreparedFacts(values: map<string, FactValue>, submittedKeys: set<string>, missingSources: map<string, set<string>>)
}
