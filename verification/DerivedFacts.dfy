/** What each derived Fact is worth, and every way preparation can end (planning/case_preparation.py). */
module DerivedFacts {
  import opened Wrappers
  import opened Ordering
  import opened Calendar
  import opened Facts
  import opened Evaluator
  import opened EvaluatorLaws
  import opened CasePreparation
  import opened CaseProperties
  import opened Contradictions

  // ----- the five values of an accepted case

  /** The n-th anniversary of the birth date is not after the day. */
  predicate AgedAtLeast(birth: Date, n: int, on: Date) {
    || birth.year + n < on.year
    || (birth.year + n == on.year && birth.month < on.month)
    || (birth.year + n == on.year && birth.month == on.month && birth.day <= on.day)
  }

  /** The day three calendar months after the expiry, or the last day of that month when it is shorter. */
  predicate IsDeadline(d: Date, expiry: Date) {
    && d.year * 12 + d.month == expiry.year * 12 + expiry.month + 3
    && d.day == if expiry.day <= DaysInMonth(d.year, d.month) then expiry.day else DaysInMonth(d.year, d.month)
  }

  predicate HasDeadline(expiry: Date) {
    expiry.year < 9999 || expiry.month <= 9
  }

  /** A pinned Fact is prepared exactly when it is registered and its source Facts were answered. */
  lemma PreparedExactlyIf(definitions: Registry, cs: seq<Contradiction>, facts: map<string, RawValue>, on: Date,
                          p: PreparedFacts)
    requires Prepare(definitions, cs, facts, on) == Prepared(p)
    ensures AGE in p.values <==> AGE in definitions && BIRTH in facts
    ensures ONLY_SON in p.values <==> ONLY_SON in definitions && FATHER_ALIVE in facts && OTHER_SONS in facts
    ensures CARD_EXPIRED in p.values <==> CARD_EXPIRED in definitions && EXPIRY in facts
    ensures DEADLINE in p.values <==> DEADLINE in definitions && EXPIRY in facts
    ensures DEADLINE_PASSED in p.values <==> DEADLINE_PASSED in definitions && EXPIRY in facts
    ensures forall k | k in p.values && k !in DERIVED_KEYS :: k in facts && facts[k] == Typed(p.values[k])
  {
    var source := PreparationMeaning(definitions, cs, facts, on);
    AcceptedAsSubmitted(facts, definitions, source);
    PinnedAreAvailable(p, definitions, source, on);
    PinnedKeys(p, definitions, source, on);
  }

  lemma PinnedKeys(p: PreparedFacts, definitions: Registry, source: map<string, FactValue>, on: Date)
    requires forall k | k in DERIVED_KEYS :: k in p.values <==> Available(k, definitions, source)
    ensures AGE in p.values <==> AGE in definitions && BIRTH in source
    ensures ONLY_SON in p.values <==> ONLY_SON in definitions && FATHER_ALIVE in source && OTHER_SONS in source
    ensures CARD_EXPIRED in p.values <==> CARD_EXPIRED in definitions && EXPIRY in source
    ensures DEADLINE in p.values <==> DEADLINE in definitions && EXPIRY in source
    ensures DEADLINE_PASSED in p.values <==> DEADLINE_PASSED in definitions && EXPIRY in source
  {
    assert DERIVED_KEYS[0] == AGE && DERIVED_KEYS[1] == CARD_EXPIRED && DERIVED_KEYS[2] == ONLY_SON;
    assert DERIVED_KEYS[3] == DEADLINE && DERIVED_KEYS[4] == DEADLINE_PASSED;
  }

  lemma AcceptedAsSubmitted(facts: map<string, RawValue>, definitions: Registry, source: map<string, FactValue>)
    requires SubmittedFacts(facts, definitions) == ValidFacts(source)
    ensures source.Keys == facts.Keys && forall k | k in source :: facts[k] == Typed(source[k])
    ensures forall k | k in source ::
              k in definitions && !definitions[k].derived && ValueMatches(definitions[k], source[k])
  {
    AcceptanceCopiesAll(facts, definitions);
  }

  lemma PinnedAreAvailable(p: PreparedFacts, definitions: Registry, source: map<string, FactValue>, on: Date)
    requires PreparedFrom(p, DERIVED_KEYS, definitions, source, on)
    ensures forall k | k in DERIVED_KEYS :: k in p.values <==> Available(k, definitions, source)
    ensures forall k | k in source :: k !in DERIVED_KEYS && k in p.values && p.values[k] == source[k]
    ensures forall k | k in p.values && k !in DERIVED_KEYS :: k in source
  {
    forall k | k in source ensures k !in DERIVED_KEYS && k in p.values && p.values[k] == source[k] {
      SourceIsNotDerived(p, DERIVED_KEYS, definitions, source, on, k);
    }
  }

  /** The values of the prepared Facts behind and beyond derivation. */
  lemma DerivedFromPrepared(definitions: Registry, cs: seq<Contradiction>, facts: map<string, RawValue>, on: Date,
                            p: PreparedFacts, key: string)
    requires Prepare(definitions, cs, facts, on) == Prepared(p) && key in DERIVED_KEYS && key in p.values
    ensures DerivedSources(key) <= p.values.Keys && Derive(key, p.values, on) == Some(p.values[key])
  {
    var source := PreparationMeaning(definitions, cs, facts, on);
    DerivedFromValues(p, definitions, source, on, key);
  }

  lemma DerivedFromValues(p: PreparedFacts, definitions: Registry, source: map<string, FactValue>, on: Date,
                          key: string)
    requires PreparedFrom(p, DERIVED_KEYS, definitions, source, on) && key in DERIVED_KEYS && key in p.values
    ensures DerivedSources(key) <= p.values.Keys && Derive(key, p.values, on) == Some(p.values[key])
  {
    PinnedAreAvailable(p, definitions, source, on);
    assert Available(key, definitions, source);
    SameDerivation(key, definitions, source, p.values, on);
  }

  /** The age is at least n exactly when the n-th birthday has come, for every n. */
  lemma AgeMeans(definitions: Registry, cs: seq<Contradiction>, facts: map<string, RawValue>, on: Date,
                 p: PreparedFacts, n: int)
    requires Prepare(definitions, cs, facts, on) == Prepared(p) && AGE in p.values
    ensures p.values[AGE].IntV? && BIRTH in p.values && p.values[BIRTH].DateV?
    ensures p.values[AGE].i >= n <==> AgedAtLeast(p.values[BIRTH].d, n, on)
    ensures p.values[AGE].i >= 0
  {
    DerivedFromPrepared(definitions, cs, facts, on, p, AGE);
    CompletedYearsMeaning(p.values[BIRTH].d, on, n);
    CompletedYearsMeaning(p.values[BIRTH].d, on, 0);
  }

  /** An only son's candidate: the father is alive, and has no other living son. */
  lemma OnlySonMeans(definitions: Registry, cs: seq<Contradiction>, facts: map<string, RawValue>, on: Date,
                     p: PreparedFacts)
    requires Prepare(definitions, cs, facts, on) == Prepared(p) && ONLY_SON in p.values
    ensures FATHER_ALIVE in p.values && OTHER_SONS in p.values
    ensures p.values[ONLY_SON] == BoolV(true) || p.values[ONLY_SON] == BoolV(false)
    ensures p.values[ONLY_SON] == BoolV(true)
            <==> && p.values[FATHER_ALIVE] == BoolV(true)
                 && (p.values[OTHER_SONS] == IntV(0) || p.values[OTHER_SONS] == BoolV(false))
  {
    DerivedFromPrepared(definitions, cs, facts, on, p, ONLY_SON);
  }

  /** The card has expired before the day, not on it. */
  lemma CardExpiredMeans(definitions: Registry, cs: seq<Contradiction>, facts: map<string, RawValue>, on: Date,
                         p: PreparedFacts)
    requires Prepare(definitions, cs, facts, on) == Prepared(p) && CARD_EXPIRED in p.values
    ensures EXPIRY in p.values && p.values[EXPIRY].DateV?
    ensures p.values[CARD_EXPIRED] == BoolV(Before(p.values[EXPIRY].d, on))
  {
    DerivedFromPrepared(definitions, cs, facts, on, p, CARD_EXPIRED);
  }

  /** The renewal deadline, and whether the day is past it. */
  lemma DeadlineMeans(definitions: Registry, cs: seq<Contradiction>, facts: map<string, RawValue>, on: Date,
                      p: PreparedFacts)
    requires Prepare(definitions, cs, facts, on) == Prepared(p)
    ensures DEADLINE in p.values ==>
              && EXPIRY in p.values && p.values[EXPIRY].DateV? && p.values[DEADLINE].DateV?
              && IsDeadline(p.values[DEADLINE].d, p.values[EXPIRY].d)
    ensures DEADLINE_PASSED in p.values ==>
              && EXPIRY in p.values && p.values[EXPIRY].DateV? && p.values[DEADLINE_PASSED].BoolV?
              && exists d: Date ::
                   IsDeadline(d, p.values[EXPIRY].d) && p.values[DEADLINE_PASSED] == BoolV(Before(d, on))
  {
    if DEADLINE in p.values {
      DerivedFromPrepared(definitions, cs, facts, on, p, DEADLINE);
      DeadlineOf(p.values[EXPIRY].d);
    }
    if DEADLINE_PASSED in p.values {
      DerivedFromPrepared(definitions, cs, facts, on, p, DEADLINE_PASSED);
      DeadlineOf(p.values[EXPIRY].d);
    }
  }

  lemma DeadlineOf(expiry: Date)
    ensures AddCalendarMonths(expiry, 3).Some? <==> HasDeadline(expiry)
    ensures AddCalendarMonths(expiry, 3).Some? ==> IsDeadline(AddCalendarMonths(expiry, 3).value, expiry)
  {
    AddCalendarMonthsMeaning(expiry, 3);
  }

  lemma DeadlineIsUnique(expiry: Date, d: Date, e: Date)
    requires IsDeadline(d, expiry) && IsDeadline(e, expiry)
    ensures d == e
  {}

  /** A derived definition is sound exactly when it is one of the five pinned ones. */
  lemma CompatibleExactlyIf(d: FactDefinition)
    ensures Compatible(d)
            <==> || d == FactDefinition(AGE, IntegerKind, [], Some(0), true)
                 || d == FactDefinition(CARD_EXPIRED, BooleanKind, [], None, true)
                 || d == FactDefinition(ONLY_SON, BooleanKind, [], None, true)
                 || d == FactDefinition(DEADLINE, DateKind, [], None, true)
                 || d == FactDefinition(DEADLINE_PASSED, BooleanKind, [], None, true)
  {}

  // ----- every way preparation can end

  /** A birth date that is no date, or lies after the evaluation date, where the age is registered. */
  predicate BadBirth(definitions: Registry, source: map<string, FactValue>, on: Date) {
    AGE in definitions && BIRTH in source && (!source[BIRTH].DateV? || Before(on, source[BIRTH].d))
  }

  /** An expiry date that is no date, or whose deadline lies beyond the calendar, where such a Fact is registered. */
  predicate BadExpiry(definitions: Registry, source: map<string, FactValue>) {
    && EXPIRY in source
    && (|| (!source[EXPIRY].DateV?
            && (CARD_EXPIRED in definitions || DEADLINE in definitions || DEADLINE_PASSED in definitions))
        || (source[EXPIRY].DateV? && !HasDeadline(source[EXPIRY].d)
            && (DEADLINE in definitions || DEADLINE_PASSED in definitions)))
  }

  function Rejecting(key: string): Preparation {
    InvalidCase([Diagnostic(InvalidFactValue(key), [Field("facts"), Field(key)])])
  }

  /** Some registered pinned key whose sources are answered has no value. */
  predicate Fails(key: string, definitions: Registry, source: map<string, FactValue>, on: Date) {
    key in definitions && DerivedSources(key) <= source.Keys && Derive(key, source, on).None?
  }

  lemma {:induction false} RejectedExactlyIf(keys: seq<string>, definitions: Registry, source: map<string, FactValue>,
                                             on: Date)
    requires forall k | k in keys && k in definitions :: Compatible(definitions[k])
    ensures !DeriveAll(keys, definitions, source, on).Asserted?
    ensures DeriveAll(keys, definitions, source, on).Rejected?
            <==> exists k | k in keys :: Fails(k, definitions, source, on)
    ensures DeriveAll(keys, definitions, source, on).Rejected? ==>
              exists k | k in keys && Fails(k, definitions, source, on) ::
                DeriveAll(keys, definitions, source, on) == Rejected(if k == AGE then BIRTH else EXPIRY)
  {
    if keys != [] {
      var init, last := keys[..|keys| - 1], keys[|keys| - 1];
      assert keys == init + [last];
      RejectedExactlyIf(init, definitions, source, on);
    }
  }

  lemma FailsExactlyIf(key: string, definitions: Registry, source: map<string, FactValue>, on: Date)
    requires key in DERIVED_KEYS
    ensures Fails(key, definitions, source, on) <==>
              if key == AGE then BadBirth(definitions, source, on)
              else
                && key in definitions && key != ONLY_SON && EXPIRY in source
                && (!source[EXPIRY].DateV? || (key != CARD_EXPIRED && !HasDeadline(source[EXPIRY].d)))
  {
    if EXPIRY in source && source[EXPIRY].DateV? { DeadlineOf(source[EXPIRY].d); }
  }

  /** The age comes first, so its rejection hides any other. */
  lemma AgeIsFirst(definitions: Registry, source: map<string, FactValue>, on: Date)
    requires AGE in definitions && Compatible(definitions[AGE])
    requires Fails(AGE, definitions, source, on)
    ensures DeriveAll(DERIVED_KEYS, definitions, source, on) == Rejected(BIRTH)
  {
    assert DERIVED_KEYS[..1] == [AGE] && [AGE][..0] == [];
    assert DeriveAll([], definitions, source, on) == Derived(source, map[]);
    Stuck(DERIVED_KEYS, 1, definitions, source, on);
  }

  /** The answers that some contradiction, TRUE of the prepared case, is blamed on. */
  ghost predicate Refuted(cs: seq<Contradiction>, p: PreparedFacts, key: string) {
    exists c | c in cs ::
      Eval(c.condition, p.values, p.submittedKeys) == TRUE && key in Blame(c.condition, p.values, p.submittedKeys)
  }

  function Refusing(keys: seq<string>): Preparation {
    InvalidCase(seq(|keys|, i requires 0 <= i < |keys| =>
                              Diagnostic(ContradictoryFacts, [Field("facts"), Field(keys[i])])))
  }

  /**
    In a sound registry: first the submission is validated, then the birth date, then the expiry date; then the
    declarations of the contradictions are checked, and last the answers some TRUE condition is blamed on are refused.
   */
  lemma PreparationEndsAs(definitions: Registry, cs: seq<Contradiction>, facts: map<string, RawValue>, on: Date)
    returns (p: PreparedFacts, refuted: seq<string>)
    requires PinnedNamesAreDerived(definitions)
    ensures var r := Prepare(definitions, cs, facts, on);
            if exists k | k in definitions :: definitions[k].derived && !Compatible(definitions[k]) then
              r == ConfigurationDefect
            else
              match SubmittedFacts(facts, definitions)
              case RejectedFacts(diagnostics) => r == InvalidCase(diagnostics)
              case ValidFacts(source) =>
                if BadBirth(definitions, source, on) then r == Rejecting(BIRTH)
                else if BadExpiry(definitions, source) then r == Rejecting(EXPIRY)
                else if exists c | c in cs :: !WellDeclared(c, definitions) then r == ConfigurationDefect
                else
                  && PreparedFrom(p, DERIVED_KEYS, definitions, source, on)
                  && (forall key :: key in refuted <==> Refuted(cs, p, key)) && StrictlySorted(refuted)
                  && r == if refuted == [] then Prepared(p) else Refusing(refuted)
  {
    p, refuted := PreparedFacts(map[], {}, map[]), [];
    if DerivedAreCompatible(definitions) && SubmittedFacts(facts, definitions).ValidFacts? {
      var source := SubmittedFacts(facts, definitions).facts;
      AcceptedAsSubmitted(facts, definitions, source);
      DerivationEndsAs(definitions, source, on);
      AllDeclaredExactlyIf(cs, definitions);
      var d := DeriveAll(DERIVED_KEYS, definitions, source, on);
      if d.Derived? {
        p := PreparedFacts(d.values, source.Keys, d.missing);
        refuted := ConfrontationEndsAs(definitions, cs, source, on, p);
      }
    }
  }

  lemma AllDeclaredExactlyIf(cs: seq<Contradiction>, definitions: Registry)
    ensures AllDeclared(cs, definitions) <==> forall c | c in cs :: WellDeclared(c, definitions)
  {
    AllDeclaredMeans(cs, definitions);
    assert forall i | 0 <= i < |cs| :: cs[i] in cs;
  }

  lemma DerivationEndsAs(definitions: Registry, source: map<string, FactValue>, on: Date)
    requires PinnedNamesAreDerived(definitions) && DerivedAreCompatible(definitions)
    ensures var d := DeriveAll(DERIVED_KEYS, definitions, source, on);
            if BadBirth(definitions, source, on) then d == Rejected(BIRTH)
            else if BadExpiry(definitions, source) then d == Rejected(EXPIRY)
            else d.Derived?
  {
    RejectedExactlyIf(DERIVED_KEYS, definitions, source, on);
    forall k | k in DERIVED_KEYS { FailsExactlyIf(k, definitions, source, on); }
    if BadBirth(definitions, source, on) {
      AgeIsFirst(definitions, source, on);
    } else {
      assert CARD_EXPIRED in DERIVED_KEYS && DEADLINE in DERIVED_KEYS && DEADLINE_PASSED in DERIVED_KEYS;
    }
  }

  /** A contradiction is well declared when it names two or more different Facts, all of them source Facts, and exactly
      those its condition mentions. */
  lemma WellDeclaredExactlyIf(c: Contradiction, definitions: Registry)
    ensures WellDeclared(c, definitions)
            <==> && |c.factKeys| >= 2 && (forall i, j | 0 <= i < j < |c.factKeys| :: c.factKeys[i] != c.factKeys[j])
                 && (forall k :: k in c.factKeys <==> Mentions(c.condition, k))
                 && forall k | k in c.factKeys :: k in definitions && !definitions[k].derived
  {
    DistinctExactlyIf(c.factKeys);
    forall k { MentionedExactlyIf(c.condition, k); }
  }

  lemma {:induction false} DistinctExactlyIf(keys: seq<string>)
    ensures |Elements(keys)| <= |keys|
    ensures |Elements(keys)| == |keys| <==> forall i, j | 0 <= i < j < |keys| :: keys[i] != keys[j]
  {
    if keys != [] {
      var init, last := keys[..|keys| - 1], keys[|keys| - 1];
      DistinctExactlyIf(init);
      assert Elements(keys) == Elements(init) + {last};
      if last in init {
        assert Elements(keys) == Elements(init);
        var i :| 0 <= i < |init| && init[i] == last;
        assert keys[i] == keys[|keys| - 1];
      } else {
        assert last !in Elements(init);
      }
      assert forall i | 0 <= i < |init| :: init[i] == keys[i];
    }
  }

  lemma {:induction false} BlamedByAllMeans(cs: seq<Contradiction>, p: PreparedFacts, key: string)
    ensures key in BlamedByAll(cs, p) <==> Refuted(cs, p, key)
  {
    if cs != [] {
      var init, last := cs[..|cs| - 1], cs[|cs| - 1];
      assert cs == init + [last];
      BlamedByAllMeans(init, p, key);
    }
  }

  lemma ConfrontationEndsAs(definitions: Registry, cs: seq<Contradiction>, source: map<string, FactValue>, on: Date,
                            p: PreparedFacts) returns (refuted: seq<string>)
    requires var d := DeriveAll(DERIVED_KEYS, definitions, source, on);
             d.Derived? && p == PreparedFacts(d.values, source.Keys, d.missing)
    requires forall k | k in source ::
               k in definitions && !definitions[k].derived && ValueMatches(definitions[k], source[k])
    ensures PreparedFrom(p, DERIVED_KEYS, definitions, source, on)
    ensures (forall key :: key in refuted <==> Refuted(cs, p, key)) && StrictlySorted(refuted)
    ensures AllDeclared(cs, definitions) ==>
              Confront(definitions, cs, p) == if refuted == [] then Prepared(p) else Refusing(refuted)
  {
    DerivationMeaning(DERIVED_KEYS, definitions, source, on);
    refuted := SortedTexts(BlamedByAll(cs, p));
    forall key ensures key in refuted <==> Refuted(cs, p, key) { BlamedByAllMeans(cs, p, key); }
    if BlamedByAll(cs, p) == {} { assert |refuted| == 0; }
  }
}
