/** Which contradictions preparation enforces, and the one assertion an odd registry can trip. */
module Contradictions {
  import opened Wrappers
  import opened Calendar
  import opened Facts
  import opened Rules
  import opened Evaluator
  import opened CasePreparation
  import opened CaseProperties

  // ----- the assertion of preparation

  /** No pinned derived key is registered as a source Fact. */
  predicate PinnedNamesAreDerived(definitions: Registry) {
    forall k | k in DERIVED_KEYS && k in definitions :: definitions[k].derived
  }

  lemma {:induction false} AssertedMeans(keys: seq<string>, definitions: Registry, source: map<string, FactValue>,
                                         on: Date)
    ensures DeriveAll(keys, definitions, source, on).Asserted? ==>
              exists k :: k in keys && k in definitions && !Compatible(definitions[k])
  {
    if keys != [] {
      var init, last := keys[..|keys| - 1], keys[|keys| - 1];
      AssertedMeans(init, definitions, source, on);
      var before := DeriveAll(init, definitions, source, on);
      if before.Asserted? {
        var k :| k in init && k in definitions && !Compatible(definitions[k]);
        assert k in keys;
      } else if DeriveAll(keys, definitions, source, on).Asserted? {
        assert last in keys && last in definitions && !Compatible(definitions[last]);
      }
    }
  }

  lemma {:induction false} EmptyFormNeverRejects(keys: seq<string>, definitions: Registry, on: Date)
    ensures !DeriveAll(keys, definitions, NOTHING, on).Rejected?
    ensures (exists k :: k in keys && k in definitions && !Compatible(definitions[k])) ==>
              DeriveAll(keys, definitions, NOTHING, on).Asserted?
  {
    if keys != [] {
      var init, last := keys[..|keys| - 1], keys[|keys| - 1];
      EmptyFormNeverRejects(init, definitions, on);
      assert forall k :: k in keys <==> k in init || k == last;
      assert DerivedSources(last) != {};
    }
  }

  /**
    Some case trips the assertion exactly when a pinned derived key is registered as a source Fact (in a
    registry whose derived Facts are sound).
   */
  lemma AssertionTripsExactlyIf(definitions: Registry, contradictions: seq<Contradiction>, on: Date)
    ensures (exists facts :: Prepare(definitions, contradictions, facts, on).AssertionFailed?)
            <==> DerivedAreCompatible(definitions) && !PinnedNamesAreDerived(definitions)
  {
    if facts :| Prepare(definitions, contradictions, facts, on).AssertionFailed? {
      AssertedMeans(DERIVED_KEYS, definitions, SubmittedFacts(facts, definitions).facts, on);
    }
    if DerivedAreCompatible(definitions) && !PinnedNamesAreDerived(definitions) {
      EmptyFormTrips(definitions, contradictions, on);
    }
  }

  lemma EmptyFormTrips(definitions: Registry, contradictions: seq<Contradiction>, on: Date)
    requires DerivedAreCompatible(definitions) && !PinnedNamesAreDerived(definitions)
    ensures Prepare(definitions, contradictions, map[], on).AssertionFailed?
  {
    NoDiagnosticsMeansNoDefect(map[], definitions);
    AcceptanceCopiesAll(map[], definitions);
    assert SubmittedFacts(map[], definitions).facts == NOTHING;
    var k :| k in DERIVED_KEYS && k in definitions && !definitions[k].derived;
    SourceIsIncompatible(definitions[k]);
    EmptyFormNeverRejects(DERIVED_KEYS, definitions, on);
  }

  lemma SourceIsIncompatible(definition: FactDefinition)
    requires !definition.derived
    ensures !Compatible(definition)
  {}

  // ----- accepted cases

  lemma PreparedIsAboutAnswers(p: PreparedFacts, keys: seq<string>, definitions: Registry,
                               source: map<string, FactValue>, on: Date, rule: Predicate)
    requires PreparedFrom(p, keys, definitions, source, on)
    requires forall k | k in FactKeys(rule) :: k in definitions && !definitions[k].derived
    ensures AboutAnswers(rule, p.values, p.submittedKeys)
  {
    forall k | k in FactKeys(rule) ensures k in p.values <==> k in p.submittedKeys {
      if k in keys { CompatibleIsDerived(definitions[k]); assert false; }
    }
  }

  lemma {:induction false} BlamedMember(cs: seq<Contradiction>, facts: PreparedFacts, i: nat)
    requires i < |cs|
    ensures Blamed(cs[i], facts) <= BlamedByAll(cs, facts)
  {
    if i < |cs| - 1 { BlamedMember(cs[..|cs| - 1], facts, i); }
  }

  /** An accepted case blames no answer for any contradiction. */
  lemma AcceptedBlamesNobody(definitions: Registry, cs: seq<Contradiction>, facts: map<string, RawValue>, on: Date,
                             i: nat)
    requires i < |cs| && Prepare(definitions, cs, facts, on).Prepared?
    ensures WellDeclared(cs[i], definitions) && Blamed(cs[i], Prepare(definitions, cs, facts, on).facts) == {}
  {
    AcceptedIsUnblamed(definitions, cs, facts, on);
    AllDeclaredMeans(cs, definitions);
    BlamedMember(cs, Prepare(definitions, cs, facts, on).facts, i);
  }

  lemma AcceptedIsUnblamed(definitions: Registry, cs: seq<Contradiction>, facts: map<string, RawValue>, on: Date)
    requires Prepare(definitions, cs, facts, on).Prepared?
    ensures AllDeclared(cs, definitions) && BlamedByAll(cs, Prepare(definitions, cs, facts, on).facts) == {}
  {}

  /** A rule that is TRUE before the first answer has an `exists` test. */
  lemma TrueOfNothingTestsExistence(rule: Predicate)
    requires Shaped(rule) && Eval(rule, NOTHING, {}) == TRUE
    ensures ExistsKeys(rule) != {}
  {
    if ExistsKeys(rule) == {} { NothingDecidesNothing(rule); }
  }

  /** The condition of a contradiction holds in the prepared case. */
  predicate Holds(c: Contradiction, p: Preparation) {
    p.Prepared? && Eval(c.condition, p.facts.values, p.facts.submittedKeys) == TRUE
  }

  /**
    A contradiction that holds in an accepted case already holds before the first answer. Rules
    without `exists` tests are therefore always enforced.
   */
  lemma AcceptedContradictionNeedsNoAnswer(definitions: Registry, cs: seq<Contradiction>, facts: map<string, RawValue>,
                                           on: Date, i: nat)
    requires i < |cs| && Shaped(cs[i].condition) && Holds(cs[i], Prepare(definitions, cs, facts, on))
    ensures Eval(cs[i].condition, NOTHING, {}) == TRUE && ExistsKeys(cs[i].condition) != {}
  {
    var p := Prepare(definitions, cs, facts, on).facts;
    var source := PreparationMeaning(definitions, cs, facts, on);
    AcceptedBlamesNobody(definitions, cs, facts, on, i);
    DeclaredKeysAreSources(cs[i], definitions);
    PreparedIsAboutAnswers(p, DERIVED_KEYS, definitions, source, on, cs[i].condition);
    NoBlameMeansNoAnswersNeeded(cs[i].condition, p.values, p.submittedKeys);
    TrueOfNothingTestsExistence(cs[i].condition);
  }

  lemma DeclaredKeysAreSources(c: Contradiction, definitions: Registry)
    requires WellDeclared(c, definitions)
    ensures forall k | k in FactKeys(c.condition) :: k in definitions && !definitions[k].derived
  {
    assert forall k | k in FactKeys(c.condition) :: k in Elements(c.factKeys);
  }

  /** A TRUE condition is blamed on some answer in every case exactly when it is not TRUE of the empty form. */
  lemma EnforcedExactlyIfNotTrueOfNothing(rule: Predicate)
    requires Shaped(rule)
    ensures (forall values, submitted | AboutAnswers(rule, values, submitted)
                    && Eval(rule, values, submitted) == TRUE ::
               InfluentialKeys(TraceOf(rule, values, submitted)) != {})
            <==> Eval(rule, NOTHING, {}) != TRUE
  {
    if Eval(rule, NOTHING, {}) == TRUE {
      BlameIsSubmitted(rule, NOTHING, {});
      assert AboutAnswers(rule, NOTHING, {});
    } else {
      forall values, submitted | AboutAnswers(rule, values, submitted) && Eval(rule, values, submitted) == TRUE
        ensures InfluentialKeys(TraceOf(rule, values, submitted)) != {}
      {
        if InfluentialKeys(TraceOf(rule, values, submitted)) == {} {
          NoBlameMeansNoAnswersNeeded(rule, values, submitted);
        }
      }
    }
  }

  // ----- contradictions that preparation lets through

  /** The registry and the contradictions can be prepared against at all. */
  predicate WellConfigured(definitions: Registry, cs: seq<Contradiction>) {
    DerivedAreCompatible(definitions) && PinnedNamesAreDerived(definitions) && AllDeclared(cs, definitions)
  }

  lemma {:induction false} EmptyFormDerivesNothing(keys: seq<string>, definitions: Registry, on: Date)
    requires forall k | k in keys && k in definitions :: Compatible(definitions[k])
    ensures DeriveAll(keys, definitions, NOTHING, on).Derived?
            && DeriveAll(keys, definitions, NOTHING, on).values == NOTHING
  {
    if keys != [] {
      var init, last := keys[..|keys| - 1], keys[|keys| - 1];
      EmptyFormDerivesNothing(init, definitions, on);
      assert DerivedSources(last) != {};
    }
  }

  lemma {:induction false} EmptyFormBlamesNobody(cs: seq<Contradiction>, p: PreparedFacts)
    requires p.submittedKeys == {}
    ensures BlamedByAll(cs, p) == {}
  {
    if cs != [] {
      EmptyFormBlamesNobody(cs[..|cs| - 1], p);
      BlameIsSubmitted(cs[|cs| - 1].condition, p.values, p.submittedKeys);
    }
  }

  /** The empty form is an accepted case, whatever the contradictions say of it. */
  lemma EmptyFormIsPrepared(definitions: Registry, cs: seq<Contradiction>, on: Date)
    requires WellConfigured(definitions, cs)
    ensures var p := Prepare(definitions, cs, map[], on);
            p.Prepared? && p.facts.values == NOTHING && p.facts.submittedKeys == {}
  {
    NoDiagnosticsMeansNoDefect(map[], definitions);
    AcceptanceCopiesAll(map[], definitions);
    var source := SubmittedFacts(map[], definitions).facts;
    assert source == NOTHING;
    EmptyFormDerivesNothing(DERIVED_KEYS, definitions, on);
    var d := DeriveAll(DERIVED_KEYS, definitions, source, on);
    EmptyFormBlamesNobody(cs, PreparedFacts(d.values, source.Keys, d.missing));
  }

  lemma PreparedIsWellConfigured(definitions: Registry, cs: seq<Contradiction>, facts: map<string, RawValue>, on: Date)
    requires Prepare(definitions, cs, facts, on).Prepared?
    ensures WellConfigured(definitions, cs)
  {
    var source := PreparationMeaning(definitions, cs, facts, on);
    forall k | k in DERIVED_KEYS && k in definitions
      ensures definitions[k].derived
    {
      CompatibleIsDerived(definitions[k]);
    }
  }

  /**
    Preparation accepts some case in which the contradiction holds exactly when the condition is already
    TRUE of the empty form (where anything is accepted at all).
   */
  lemma SlipsThroughExactlyIf(definitions: Registry, cs: seq<Contradiction>, on: Date, i: nat)
    requires i < |cs| && Shaped(cs[i].condition)
    ensures (exists facts :: Holds(cs[i], Prepare(definitions, cs, facts, on)))
            <==> WellConfigured(definitions, cs) && Eval(cs[i].condition, NOTHING, {}) == TRUE
  {
    if facts :| Holds(cs[i], Prepare(definitions, cs, facts, on)) {
      PreparedIsWellConfigured(definitions, cs, facts, on);
      AcceptedContradictionNeedsNoAnswer(definitions, cs, facts, on, i);
    }
    if WellConfigured(definitions, cs) && Eval(cs[i].condition, NOTHING, {}) == TRUE {
      EmptyFormIsPrepared(definitions, cs, on);
      assert Holds(cs[i], Prepare(definitions, cs, map[], on));
    }
  }

  /** "Neither answer was given". */
  function NeitherAnswered(a: string, b: string): Predicate {
    Predicate(All, None, NoOperand, [NotAnswered(a), NotAnswered(b)])
  }

  function NotAnswered(k: string): Predicate {
    Predicate(Not, None, NoOperand, [Predicate(Exists, Some(k), NoOperand, [])])
  }

  lemma NotAnsweredMeaning(k: string, values: map<string, FactValue>, submitted: set<string>)
    ensures FactKeys(NotAnswered(k)) == {k}
    ensures Eval(NotAnswered(k), values, submitted) == if k in submitted then FALSE else TRUE
  {
    var e := Predicate(Exists, Some(k), NoOperand, []);
    assert KeysOfAll([e]) == KeysOfAll([]) + FactKeys(e);
    assert Eval(e, values, submitted) == if k in submitted then TRUE else FALSE;
  }

  lemma NeitherAnsweredMeaning(a: string, b: string)
    ensures Eval(NeitherAnswered(a, b), NOTHING, {}) == TRUE
  {
    var rule := NeitherAnswered(a, b);
    NotAnsweredMeaning(a, NOTHING, {});
    NotAnsweredMeaning(b, NOTHING, {});
    var ts := seq(2, i requires 0 <= i < 2 => TraceOf(rule.children[i], NOTHING, {}));
    assert ts[0].result == TRUE && ts[1].result == TRUE;
  }

  lemma NeitherAnsweredKeys(a: string, b: string)
    ensures FactKeys(NeitherAnswered(a, b)) == {a, b}
  {
    NotAnsweredMeaning(a, NOTHING, {});
    NotAnsweredMeaning(b, NOTHING, {});
    assert KeysOfAll([NotAnswered(a)]) == KeysOfAll([]) + FactKeys(NotAnswered(a));
    assert [NotAnswered(a), NotAnswered(b)][..1] == [NotAnswered(a)];
  }

  /** A well declared contradiction that holds in the empty form, which preparation accepts. */
  lemma UnblamedContradictionExample(definitions: Registry, a: string, b: string, on: Date)
    requires a != b && a in definitions && !definitions[a].derived && b in definitions && !definitions[b].derived
    requires DerivedAreCompatible(definitions) && PinnedNamesAreDerived(definitions)
    ensures var c := Contradiction("c", NeitherAnswered(a, b), [a, b]);
            WellDeclared(c, definitions) && Holds(c, Prepare(definitions, [c], map[], on))
  {
    var c := Contradiction("c", NeitherAnswered(a, b), [a, b]);
    NeitherAnsweredMeaning(a, b);
    NeitherAnsweredKeys(a, b);
    assert Elements([a, b]) == {a, b};
    assert WellDeclared(c, definitions);
    AllDeclaredMeans([c], definitions);
    EmptyFormIsPrepared(definitions, [c], on);
  }
}
