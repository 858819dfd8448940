/** Which question resolves the missing Facts (planning/questions.py). */
module Questions {
  import opened Ordering
  import opened Facts
  import opened Catalog

  datatype Profile = SelectionProfile | ConsequentialProfile

  datatype PickCode =
    | UnknownFact(key: string)
    | MissingSourceDependencies(key: string)
    | Uncovered(key: string)
    | NoSourceFact

  /** `EmptyMinimum` is the exception `min` raises on no questions. */
  datatype Pick = Picked(question: Question) | Diagnosed(codes: set<PickCode>) | EmptyMinimum

  datatype Expansion = Sources(keys: set<string>) | Bad(code: PickCode)

  /** The source Facts behind one missing Fact. */
  function Expand(key: string, definitions: Registry, facts: PreparedFacts, profile: Profile): (e: Expansion)
    ensures e.Sources? ==> e.keys != {}
  {
    if key !in definitions && profile == ConsequentialProfile then Bad(UnknownFact(key))
    else if key !in definitions || !definitions[key].derived then Sources({key})
    else
      var sources := if key in facts.missingSources then facts.missingSources[key] else {};
      if sources == {}
         || (exists s | s in sources ::
               if profile == SelectionProfile then s in definitions && definitions[s].derived
               else s !in definitions || definitions[s].derived)
      then Bad(MissingSourceDependencies(key))
      else Sources(sources)
  }

  function SourceFacts(missing: set<string>, definitions: Registry, facts: PreparedFacts,
                       profile: Profile): set<string> {
    set k, s | k in missing && Expand(k, definitions, facts, profile).Sources?
        && s in Expand(k, definitions, facts, profile).keys :: s
  }

  function ExpansionDefects(missing: set<string>, definitions: Registry, facts: PreparedFacts,
                            profile: Profile): set<PickCode> {
    set k | k in missing && Expand(k, definitions, facts, profile).Bad? :: Expand(k, definitions, facts, profile).code
  }

  predicate Covers(q: Question, sources: set<string>) {
    exists k | k in q.resolved :: k in sources
  }

  function Covered(questions: seq<Question>): set<string> {
    set i, k | 0 <= i < |questions| && k in questions[i].resolved :: k
  }

  function Covering(questions: seq<Question>, sources: set<string>): seq<Question> {
    if questions == [] then []
    else
      var init, last := Covering(questions[..|questions| - 1], sources), questions[|questions| - 1];
      if Covers(last, sources) then init + [last] else init
  }

  predicate Sooner(a: Question, b: Question) {
    a.priority < b.priority || (a.priority == b.priority && a.id != b.id && TextLe(a.id, b.id))
  }

  /** The first question with the least (priority, id). */
  function Soonest(questions: seq<Question>): (q: Question)
    requires questions != []
    ensures q in questions
  {
    var last := questions[|questions| - 1];
    if |questions| == 1 then last
    else
      var best := Soonest(questions[..|questions| - 1]);
      if Sooner(last, best) then last else best
  }

  lemma SoonerIsTransitive(a: Question, b: Question, c: Question)
    requires Sooner(a, b) && Sooner(b, c)
    ensures Sooner(a, c)
  {
    if a.priority == c.priority {
      TextLeTransitive(a.id, b.id, c.id);
      if a.id == c.id { TextLeAntisymmetric(a.id, b.id); }
    }
  }

  lemma SoonerIsStrict(a: Question)
    ensures !Sooner(a, a)
  {}

  /** No question comes before the soonest in (priority, id) order. */
  lemma {:induction false} SoonestIsLeast(questions: seq<Question>)
    requires questions != []
    ensures forall q | q in questions :: !Sooner(q, Soonest(questions))
  {
    var init, last := questions[..|questions| - 1], questions[|questions| - 1];
    SoonerIsStrict(last);
    if init != [] {
      SoonestIsLeast(init);
      var best := Soonest(init);
      forall q | q in init ensures Sooner(last, best) ==> !Sooner(q, last) {
        if Sooner(last, best) && Sooner(q, last) { SoonerIsTransitive(q, last, best); }
      }
      assert forall q | q in questions :: q in init || q == last;
    }
  }

  function UncoveredCodes(keys: set<string>): set<PickCode> {
    set k | k in keys :: Uncovered(k)
  }

  lemma UncoveredIsReported(key: string, keys: set<string>)
    requires key in keys
    ensures Uncovered(key) in UncoveredCodes(keys)
  {}

  /** `_pick_question` */
  function PickQuestion(definitions: Registry, questions: seq<Question>, facts: PreparedFacts, missing: set<string>,
                        profile: Profile): Pick
  {
    var defects := ExpansionDefects(missing, definitions, facts, profile);
    var sources := SourceFacts(missing, definitions, facts, profile);
    var uncovered := sources - Covered(questions);
    var covering := Covering(questions, sources);
    if defects != {} then Diagnosed(defects)
    else if uncovered != {} then Diagnosed(UncoveredCodes(uncovered))
    else if covering == [] then
      if profile == ConsequentialProfile then Diagnosed({NoSourceFact}) else EmptyMinimum
    else Picked(Soonest(covering))
  }

  /** The expansion loop over the missing keys, in whatever order the set yields them. */
  method ExpandMissing(missing: set<string>, definitions: Registry, facts: PreparedFacts, profile: Profile)
    returns (sources: set<string>, defects: set<PickCode>)
    ensures sources == SourceFacts(missing, definitions, facts, profile)
    ensures defects == ExpansionDefects(missing, definitions, facts, profile)
  {
    sources, defects := {}, {};
    var todo := missing;
    while todo != {}
      invariant todo <= missing
      invariant sources == SourceFacts(missing - todo, definitions, facts, profile)
      invariant defects == ExpansionDefects(missing - todo, definitions, facts, profile)
      decreases todo
    {
      var key :| key in todo;
      ExpandNext(missing - todo, key, definitions, facts, profile);
      assert missing - (todo - {key}) == missing - todo + {key};
      todo := todo - {key};
      if key !in definitions && profile == ConsequentialProfile {
        defects := defects + {UnknownFact(key)};
        continue;
      }
      if key !in definitions || !definitions[key].derived {
        sources := sources + {key};
        continue;
      }
      var expansion := Expand(key, definitions, facts, profile);
      match expansion {
        case Bad(code) => defects := defects + {code};
        case Sources(keys) => sources := sources + keys;
      }
    }
    assert missing - todo == missing;
  }

  lemma ExpandNext(done: set<string>, key: string, definitions: Registry, facts: PreparedFacts, profile: Profile)
    ensures var e := Expand(key, definitions, facts, profile);
            && SourceFacts(done + {key}, definitions, facts, profile)
               == SourceFacts(done, definitions, facts, profile) + (if e.Sources? then e.keys else {})
            && ExpansionDefects(done + {key}, definitions, facts, profile)
               == ExpansionDefects(done, definitions, facts, profile) + (if e.Bad? then {e.code} else {})
  {}

  // ----- what a picked question is

  lemma {:induction false} CoveringMembers(questions: seq<Question>, sources: set<string>)
    ensures forall q :: q in Covering(questions, sources) <==> q in questions && Covers(q, sources)
  {
    if questions != [] {
      CoveringMembers(questions[..|questions| - 1], sources);
      assert forall q :: q in questions <==> q in questions[..|questions| - 1] || q == questions[|questions| - 1];
    }
  }

  /** The pick is the first, in (priority, id) order, of the service's questions that resolve a source Fact sought. */
  lemma PickedCovers(definitions: Registry, questions: seq<Question>, facts: PreparedFacts, missing: set<string>,
                     profile: Profile)
    ensures var pick := PickQuestion(definitions, questions, facts, missing, profile);
            pick.Picked? ==>
              && pick.question in questions && Covers(pick.question, SourceFacts(missing, definitions, facts, profile))
              && forall q | q in questions && Covers(q, SourceFacts(missing, definitions, facts, profile)) ::
                   !Sooner(q, pick.question)
  {
    var sources := SourceFacts(missing, definitions, facts, profile);
    CoveringMembers(questions, sources);
    if Covering(questions, sources) != [] { SoonestIsLeast(Covering(questions, sources)); }
  }

  lemma DefectIsReported(key: string, missing: set<string>, definitions: Registry, facts: PreparedFacts,
                         profile: Profile)
    requires key in missing && Expand(key, definitions, facts, profile).Bad?
    ensures Expand(key, definitions, facts, profile).code in ExpansionDefects(missing, definitions, facts, profile)
  {}

  /** Asked about a non-empty missing set, neither profile ever runs out of candidate questions. */
  lemma AlwaysACandidate(definitions: Registry, questions: seq<Question>, facts: PreparedFacts, missing: set<string>,
                         profile: Profile)
    requires missing != {}
    ensures var pick := PickQuestion(definitions, questions, facts, missing, profile);
            !pick.EmptyMinimum? && pick != Diagnosed({NoSourceFact})
  {
    var sources := SourceFacts(missing, definitions, facts, profile);
    var defects := ExpansionDefects(missing, definitions, facts, profile);
    if defects == {} {
      var k :| k in missing;
      var e := Expand(k, definitions, facts, profile);
      if e.Bad? {
        DefectIsReported(k, missing, definitions, facts, profile);
        assert false;
      }
      var s :| s in e.keys;
      assert s in sources;
      if sources <= Covered(questions) {
        var i :| 0 <= i < |questions| && s in questions[i].resolved;
        CoveringMembers(questions, sources);
        assert Covers(questions[i], sources);
        assert questions[i] in Covering(questions, sources);
      } else {
        var u :| u in sources && u !in Covered(questions);
        UncoveredIsReported(u, sources - Covered(questions));
      }
    } else {
      assert NoSourceFact !in defects;
    }
  }

  /** What is behind one key, when its expansion succeeds. */
  ghost predicate Resolvable(key: string, definitions: Registry, questions: seq<Question>, facts: PreparedFacts,
                             profile: Profile) {
    var e := Expand(key, definitions, facts, profile);
    e.Sources? && e.keys <= Covered(questions)
  }

  /** A question is found exactly when each missing Fact expands to source Facts that questions resolve. */
  lemma PickedExactlyIf(definitions: Registry, questions: seq<Question>, facts: PreparedFacts, missing: set<string>,
                        profile: Profile)
    requires missing != {}
    ensures PickQuestion(definitions, questions, facts, missing, profile).Picked?
            <==> forall k | k in missing :: Resolvable(k, definitions, questions, facts, profile)
  {
    AlwaysACandidate(definitions, questions, facts, missing, profile);
    PickedUnlessDefective(definitions, questions, facts, missing, profile);
    SoughtIsResolvable(definitions, questions, facts, missing, profile);
  }

  lemma PickedUnlessDefective(definitions: Registry, questions: seq<Question>, facts: PreparedFacts,
                              missing: set<string>, profile: Profile)
    ensures var pick := PickQuestion(definitions, questions, facts, missing, profile);
            pick.Picked? || pick.EmptyMinimum? || pick == Diagnosed({NoSourceFact})
            <==> ExpansionDefects(missing, definitions, facts, profile) == {}
                 && SourceFacts(missing, definitions, facts, profile) <= Covered(questions)
  {
    var sources := SourceFacts(missing, definitions, facts, profile);
    NothingLeft(sources, Covered(questions));
    if u :| u in sources - Covered(questions) { UncoveredIsReported(u, sources - Covered(questions)); }
    assert NoSourceFact !in ExpansionDefects(missing, definitions, facts, profile);
  }

  lemma NothingLeft<T>(a: set<T>, b: set<T>)
    ensures a - b == {} <==> a <= b
  {
    if a - b == {} {
      forall x | x in a ensures x in b { assert x !in a - b; }
    }
  }

  lemma SoughtIsResolvable(definitions: Registry, questions: seq<Question>, facts: PreparedFacts, missing: set<string>,
                           profile: Profile)
    ensures (forall k | k in missing :: Resolvable(k, definitions, questions, facts, profile))
            <==> ExpansionDefects(missing, definitions, facts, profile) == {}
                 && SourceFacts(missing, definitions, facts, profile) <= Covered(questions)
  {
    forall k | k in missing
      ensures Expand(k, definitions, facts, profile).Bad? ==>
                ExpansionDefects(missing, definitions, facts, profile) != {}
      ensures Expand(k, definitions, facts, profile).Sources? ==>
                Expand(k, definitions, facts, profile).keys <= SourceFacts(missing, definitions, facts, profile)
    {
      if Expand(k, definitions, facts, profile).Bad? { DefectIsReported(k, missing, definitions, facts, profile); }
      ExpandedIsSought(k, missing, definitions, facts, profile);
    }
  }

  lemma ExpandedIsSought(key: string, missing: set<string>, definitions: Registry, facts: PreparedFacts,
                         profile: Profile)
    requires key in missing
    ensures var e := Expand(key, definitions, facts, profile);
            e.Sources? ==> e.keys <= SourceFacts(missing, definitions, facts, profile)
  {}
}
