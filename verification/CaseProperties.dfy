/** What a prepared case guarantees to every later phase. */
module CaseProperties {
  import opened Wrappers
  import opened Calendar
  import opened Facts
  import opened Rules
  import opened RuleRoundTrip
  import opened Evaluator
  import opened CasePreparation

  // ----- the closed form of derivation

  predicate Available(key: string, definitions: Registry, source: map<string, FactValue>) {
    key in definitions && DerivedSources(key) <= source.Keys
  }

  predicate Unavailable(key: string, definitions: Registry, source: map<string, FactValue>) {
    key in definitions && !(DerivedSources(key) <= source.Keys)
  }

  /** Every answered source Fact unchanged, every derivable Fact computed, every other one accounted for. */
  ghost predicate Describes(values: map<string, FactValue>, missing: map<string, set<string>>, keys: seq<string>,
                            definitions: Registry, source: map<string, FactValue>, on: Date)
  {
    DescribesValues(values, keys, definitions, source, on) && DescribesMissing(missing, keys, definitions, source)
  }

  ghost predicate DescribesValues(values: map<string, FactValue>, keys: seq<string>, definitions: Registry,
                                  source: map<string, FactValue>, on: Date)
  {
    && (forall k :: k in values <==> k in source || (k in keys && Available(k, definitions, source)))
    && (forall k | k in source && k !in keys :: k in values && values[k] == source[k])
    && (forall k | k in keys && Available(k, definitions, source) ::
          k in values && Derive(k, source, on) == Some(values[k]))
  }

  ghost predicate DescribesMissing(missing: map<string, set<string>>, keys: seq<string>, definitions: Registry,
                                   source: map<string, FactValue>)
  {
    && (forall k :: k in missing <==> k in keys && Unavailable(k, definitions, source))
    && (forall k | k in missing :: missing[k] == DerivedSources(k) - source.Keys)
  }

  lemma {:induction false} DerivationMeaning(keys: seq<string>, definitions: Registry, source: map<string, FactValue>,
                                             on: Date)
    requires DeriveAll(keys, definitions, source, on).Derived?
    ensures var d := DeriveAll(keys, definitions, source, on);
            Describes(d.values, d.missing, keys, definitions, source, on)
    ensures forall k | k in keys && k in definitions :: Compatible(definitions[k])
  {
    if keys != [] {
      var init, last := keys[..|keys| - 1], keys[|keys| - 1];
      var before := DeriveAll(init, definitions, source, on);
      var after := DeriveOne(before, last, definitions, source, on);
      assert after == DeriveAll(keys, definitions, source, on);
      assert before.Derived?;
      DerivationMeaning(init, definitions, source, on);
      DescribesNext(before.values, before.missing, after, init, last, definitions, source, on);
      assert keys == init + [last];
    }
  }

  lemma DescribesNext(values: map<string, FactValue>, missing: map<string, set<string>>, after: Derivation,
                      init: seq<string>, last: string, definitions: Registry, source: map<string, FactValue>, on: Date)
    requires Describes(values, missing, init, definitions, source, on)
    requires after == DeriveOne(Derived(values, missing), last, definitions, source, on) && after.Derived?
    ensures Describes(after.values, after.missing, init + [last], definitions, source, on)
  {
    assert forall k :: k in init + [last] <==> k in init || k == last;
    if Available(last, definitions, source) {
      ValuesWith(values, init, last, definitions, source, on);
    } else {
      MissingWith(missing, init, last, definitions, source);
    }
  }

  lemma ValuesWith(values: map<string, FactValue>, init: seq<string>, last: string, definitions: Registry,
                   source: map<string, FactValue>, on: Date)
    requires DescribesValues(values, init, definitions, source, on)
    requires Available(last, definitions, source) && Derive(last, source, on).Some?
    ensures DescribesValues(values[last := Derive(last, source, on).value], init + [last], definitions, source, on)
  {
    assert forall k :: k in init + [last] <==> k in init || k == last;
  }

  lemma MissingWith(missing: map<string, set<string>>, init: seq<string>, last: string, definitions: Registry,
                    source: map<string, FactValue>)
    requires DescribesMissing(missing, init, definitions, source)
    ensures DescribesMissing(
              if Unavailable(last, definitions, source) then missing[last := DerivedSources(last) - source.Keys]
              else missing,
              init + [last], definitions, source)
  {
    assert forall k :: k in init + [last] <==> k in init || k == last;
  }

  /** The meaning of successful preparation; `keys` are the pinned derived keys. */
  ghost predicate PreparedFrom(p: PreparedFacts, keys: seq<string>, definitions: Registry,
                               source: map<string, FactValue>, on: Date) {
    && p.submittedKeys == source.Keys
    && (forall k | k in source ::
          k in definitions && !definitions[k].derived && ValueMatches(definitions[k], source[k]))
    && (forall k | k in keys && k in definitions :: Compatible(definitions[k]))
    && Describes(p.values, p.missingSources, keys, definitions, source, on)
  }

  lemma PreparationMeaning(definitions: Registry, contradictions: seq<Contradiction>, facts: map<string, RawValue>,
                           on: Date)
    returns (source: map<string, FactValue>)
    requires Prepare(definitions, contradictions, facts, on).Prepared?
    ensures SubmittedFacts(facts, definitions) == ValidFacts(source) && source.Keys == facts.Keys
    ensures PreparedFrom(Prepare(definitions, contradictions, facts, on).facts, DERIVED_KEYS, definitions, source, on)
  {
    source := SubmittedFacts(facts, definitions).facts;
    AcceptanceCopiesAll(facts, definitions);
    DerivationMeaning(DERIVED_KEYS, definitions, source, on);
  }

  lemma SourceIsNotDerived(p: PreparedFacts, keys: seq<string>, definitions: Registry, source: map<string, FactValue>,
                           on: Date, k: string)
    requires PreparedFrom(p, keys, definitions, source, on) && k in source
    ensures k !in keys && k in p.values && p.values[k] == source[k]
  {
    if k in keys {
      CompatibleIsDerived(definitions[k]);
      assert false;
    }
  }

  lemma CompatibleIsDerived(definition: FactDefinition)
    requires Compatible(definition)
    ensures definition.derived && definition == PinnedDefinition(definition.key)
  {}

  /** Derived values only extend: with more answers, every earlier prepared value is still there, unchanged. */
  lemma PreparationExtends(p: PreparedFacts, source: map<string, FactValue>, p': PreparedFacts,
                           source': map<string, FactValue>, keys: seq<string>, definitions: Registry, on: Date)
    requires PreparedFrom(p, keys, definitions, source, on) && PreparedFrom(p', keys, definitions, source', on)
    requires Extends(source', source)
    ensures Extends(p'.values, p.values)
  {
    forall k | k in p.values ensures k in p'.values && p'.values[k] == p.values[k] {
      if k in source {
        SourceIsNotDerived(p, keys, definitions, source, on, k);
        SourceIsNotDerived(p', keys, definitions, source', on, k);
      } else {
        SameDerivation(k, definitions, source, source', on);
      }
    }
  }

  lemma SameDerivation(key: string, definitions: Registry, source: map<string, FactValue>,
                       source': map<string, FactValue>, on: Date)
    requires Available(key, definitions, source) && Extends(source', source)
    ensures Available(key, definitions, source') && Derive(key, source, on) == Derive(key, source', on)
  {}

  // ----- type soundness of preparation

  lemma DerivedValueMatches(key: string, source: map<string, FactValue>, on: Date)
    requires DerivedSources(key) <= source.Keys && Derive(key, source, on).Some?
    ensures ValueMatches(PinnedDefinition(key), Derive(key, source, on).value)
  {
    if key == AGE {
      CompletedYearsMeaning(source[BIRTH].d, on, 0);
    }
  }

  /** Every prepared value, derived ones included, matches its definition, so no accepted rule can raise. */
  lemma PreparedValuesMatch(p: PreparedFacts, keys: seq<string>, definitions: Registry, source: map<string, FactValue>,
                            on: Date)
    requires PreparedFrom(p, keys, definitions, source, on) && KeyedByKey(definitions)
    ensures ValuesMatch(p.values, definitions)
  {
    forall k | k in p.values ensures k in definitions && ValueMatches(definitions[k], p.values[k]) {
      if k in source {
        SourceIsNotDerived(p, keys, definitions, source, on, k);
      } else {
        assert Available(k, definitions, source);
        CompatibleIsDerived(definitions[k]);
        DerivedValueMatches(k, source, on);
      }
    }
  }

  lemma AcceptedRulesNeverRaise(definitions: Registry, contradictions: seq<Contradiction>, facts: map<string, RawValue>,
                                on: Date, rule: Predicate, raw: Json)
    requires KeyedByKey(definitions)
    requires Validation(raw, definitions).rule == Some(rule)
    requires Prepare(definitions, contradictions, facts, on).Prepared?
    ensures !Raises(rule, Prepare(definitions, contradictions, facts, on).facts.values)
  {
    var source := PreparationMeaning(definitions, contradictions, facts, on);
    var p := Prepare(definitions, contradictions, facts, on).facts;
    PreparedValuesMatch(p, DERIVED_KEYS, definitions, source, on);
    AcceptedExactlyIfSerialized(raw, rule, definitions);
    TypedNeverRaises(rule, p.values, definitions);
  }

  /** The renewal deadline never passes before the card itself has expired. */
  lemma DeadlinePassedImpliesExpired(source: map<string, FactValue>, on: Date)
    requires {EXPIRY} <= source.Keys
    requires Derive(DEADLINE_PASSED, source, on) == Some(BoolV(true))
    ensures Derive(CARD_EXPIRED, source, on) == Some(BoolV(true))
  {
    AddCalendarMonthsAdvances(source[EXPIRY].d, 3);
  }
}
