/** Every way the choice of a Procedure can end, and what a question asks (planning/selection.py, questions.py). */
module ChoiceLaws {
  import opened Ordering
  import opened Facts
  import opened Evaluator
  import opened Catalog
  import opened Versions
  import opened Questions
  import opened Planner

  /** How a candidate's selection rule evaluates. */
  predicate Votes(c: Candidate, facts: PreparedFacts, v: Truth) {
    Eval(c.selection, facts.values, facts.submittedKeys) == v
  }

  /** Two candidates, at different places, are selected. */
  ghost predicate SeveralMatch(service: Service, facts: PreparedFacts) {
    exists i, j | 0 <= i < j < |service.candidates| ::
      Votes(service.candidates[i], facts, TRUE) && Votes(service.candidates[j], facts, TRUE)
  }

  /** This candidate is selected, and every other one is ruled out. */
  ghost predicate OnlyMatch(service: Service, facts: PreparedFacts, c: Candidate) {
    exists i | 0 <= i < |service.candidates| ::
      && service.candidates[i] == c && Votes(c, facts, TRUE)
      && forall j | 0 <= j < |service.candidates| && j != i :: Votes(service.candidates[j], facts, FALSE)
  }

  ghost predicate NoneMatches(service: Service, facts: PreparedFacts) {
    forall c | c in service.candidates :: Votes(c, facts, FALSE)
  }

  /** What the undecided candidates miss. */
  function UndecidedMisses(service: Service, facts: PreparedFacts): set<string> {
    set c, k | c in service.candidates && Votes(c, facts, UNKNOWN)
               && k in MissingFacts(c.selection, facts.values, facts.submittedKeys) :: k
  }

  // ----- lists of candidates

  lemma {:induction false} WithValueMembers(rows: seq<Candidate>, facts: PreparedFacts, v: Truth)
    ensures forall c :: c in WithValue(rows, facts, v) <==> c in rows && Votes(c, facts, v)
  {
    if rows != [] {
      WithValueMembers(rows[..|rows| - 1], facts, v);
      assert forall c :: c in rows <==> c in rows[..|rows| - 1] || c == rows[|rows| - 1];
    }
  }

  lemma {:induction false} WithValueConcat(a: seq<Candidate>, b: seq<Candidate>, facts: PreparedFacts, v: Truth)
    ensures WithValue(a + b, facts, v) == WithValue(a, facts, v) + WithValue(b, facts, v)
  {
    if b == [] {
      assert a + b == a;
    } else {
      WithValueConcat(a, b[..|b| - 1], facts, v);
      assert (a + b)[..|a + b| - 1] == a + b[..|b| - 1];
    }
  }

  lemma {:induction false} InsertedCount(x: Candidate, rows: seq<Candidate>, facts: PreparedFacts, v: Truth)
    ensures |WithValue(Insert(x, rows, CandidateLe), facts, v)|
            == |WithValue([x], facts, v)| + |WithValue(rows, facts, v)|
  {
    if rows != [] {
      WithValueConcat([x], rows, facts, v);
      assert rows == [rows[0]] + rows[1..];
      WithValueConcat([rows[0]], rows[1..], facts, v);
      if !CandidateLe(x, rows[0]) {
        InsertedCount(x, rows[1..], facts, v);
        WithValueConcat([rows[0]], Insert(x, rows[1..], CandidateLe), facts, v);
      }
    }
  }

  /** Sorting does not change how many candidates vote one way. */
  lemma {:induction false} SortedCount(rows: seq<Candidate>, facts: PreparedFacts, v: Truth)
    ensures |WithValue(SortBy(rows, CandidateLe), facts, v)| == |WithValue(rows, facts, v)|
  {
    if rows != [] {
      SortedCount(rows[1..], facts, v);
      InsertedCount(rows[0], SortBy(rows[1..], CandidateLe), facts, v);
      assert rows == [rows[0]] + rows[1..];
      WithValueConcat([rows[0]], rows[1..], facts, v);
    }
  }

  lemma {:induction false} NoneCounted(rows: seq<Candidate>, facts: PreparedFacts, v: Truth)
    ensures WithValue(rows, facts, v) == [] <==> forall i | 0 <= i < |rows| :: !Votes(rows[i], facts, v)
  {
    if rows != [] {
      NoneCounted(rows[..|rows| - 1], facts, v);
      assert forall i | 0 <= i < |rows| - 1 :: rows[..|rows| - 1][i] == rows[i];
    }
  }

  ghost predicate TwoOf<T>(rows: seq<T>, p: T -> bool) {
    exists i, j | 0 <= i < j < |rows| :: p(rows[i]) && p(rows[j])
  }

  lemma OneMoreOf<T>(rows: seq<T>, p: T -> bool)
    requires rows != []
    ensures var init := rows[..|rows| - 1];
            TwoOf(rows, p) <==> TwoOf(init, p) || (p(rows[|rows| - 1]) && exists i | 0 <= i < |init| :: p(init[i]))
  {
    var init, n := rows[..|rows| - 1], |rows| - 1;
    if TwoOf(rows, p) {
      var i, j :| 0 <= i < j <= n && p(rows[i]) && p(rows[j]);
      assert p(init[i]) && (j < n ==> p(init[j]));
    }
    if TwoOf(init, p) {
      var i, j :| 0 <= i < j < n && p(init[i]) && p(init[j]);
      assert p(rows[i]) && p(rows[j]);
    }
    if i :| 0 <= i < n && p(init[i]) { assert p(rows[i]); }
  }

  function Voting(facts: PreparedFacts, v: Truth): Candidate -> bool {
    (c: Candidate) => Votes(c, facts, v)
  }

  lemma {:induction false} SeveralCounted(rows: seq<Candidate>, facts: PreparedFacts, v: Truth)
    ensures |WithValue(rows, facts, v)| >= 2 <==> TwoOf(rows, Voting(facts, v))
  {
    if rows != [] {
      SeveralCounted(rows[..|rows| - 1], facts, v);
      NoneCounted(rows[..|rows| - 1], facts, v);
      OneMoreOf(rows, Voting(facts, v));
    }
  }

  lemma CountMeans(rows: seq<Candidate>, facts: PreparedFacts, v: Truth)
    ensures |WithValue(rows, facts, v)| == 0 <==> forall i | 0 <= i < |rows| :: !Votes(rows[i], facts, v)
    ensures |WithValue(rows, facts, v)| >= 2
            <==> exists i, j | 0 <= i < j < |rows| :: Votes(rows[i], facts, v) && Votes(rows[j], facts, v)
  {
    NoneCounted(rows, facts, v);
    SeveralCounted(rows, facts, v);
  }

  lemma {:induction false} MissingForAllMeans(rows: seq<Candidate>, facts: PreparedFacts, k: string)
    ensures k in MissingForAll(rows, facts)
            <==> exists c | c in rows :: k in MissingFacts(c.selection, facts.values, facts.submittedKeys)
  {
    if rows != [] {
      MissingForAllMeans(rows[..|rows| - 1], facts, k);
      assert forall c :: c in rows <==> c in rows[..|rows| - 1] || c == rows[|rows| - 1];
    }
  }

  lemma SoughtMeans(service: Service, facts: PreparedFacts)
    ensures MissingForAll(WithValue(SortBy(service.candidates, CandidateLe), facts, UNKNOWN), facts)
            == UndecidedMisses(service, facts)
  {
    var unknown := WithValue(SortBy(service.candidates, CandidateLe), facts, UNKNOWN);
    SortKeeps(service.candidates, CandidateLe);
    WithValueMembers(SortBy(service.candidates, CandidateLe), facts, UNKNOWN);
    forall k
      ensures k in MissingForAll(unknown, facts)
              <==> exists c | c in unknown :: k in MissingFacts(c.selection, facts.values, facts.submittedKeys)
    {
      MissingForAllMeans(unknown, facts, k);
    }
  }

  /** How many candidates vote TRUE and UNKNOWN, in terms of the service. */
  lemma VotesCounted(service: Service, facts: PreparedFacts)
    ensures var rows := SortBy(service.candidates, CandidateLe);
            var matching, unknown := WithValue(rows, facts, TRUE), WithValue(rows, facts, UNKNOWN);
            && (|matching| > 1 <==> SeveralMatch(service, facts))
            && (matching == [] <==> forall c | c in service.candidates :: !Votes(c, facts, TRUE))
            && (unknown == [] <==> forall c | c in service.candidates :: !Votes(c, facts, UNKNOWN))
            && (forall c :: c in matching <==> c in service.candidates && Votes(c, facts, TRUE))
  {
    SortKeeps(service.candidates, CandidateLe);
    SortedCount(service.candidates, facts, TRUE);
    CountMeans(service.candidates, facts, TRUE);
    WithValueMembers(SortBy(service.candidates, CandidateLe), facts, TRUE);
    WithValueMembers(SortBy(service.candidates, CandidateLe), facts, UNKNOWN);
    var rows := SortBy(service.candidates, CandidateLe);
    var matching, unknown := WithValue(rows, facts, TRUE), WithValue(rows, facts, UNKNOWN);
    if matching != [] { assert matching[0] in matching; }
    if unknown != [] { assert unknown[0] in unknown; }
  }

  // ----- the four ways

  /** Two matches are too many, an only match is chosen, no match is unsupported, and otherwise a question decides. */
  lemma ChoiceEndsAs(definitions: Registry, service: Service, facts: PreparedFacts)
    ensures var r := Choose(definitions, service, facts);
            if SeveralMatch(service, facts) then r == NoChoice(MultipleMatchingProcedures)
            else if exists c :: OnlyMatch(service, facts, c) then
              exists c | OnlyMatch(service, facts, c) :: r == Selected(c.procedure)
            else if NoneMatches(service, facts) then r == NoChoice(NoMatchingResearchedProcedure)
            else
              match PickQuestion(definitions, service.questions, facts, UndecidedMisses(service, facts),
                                 SelectionProfile)
              case Picked(q) => r == AskFirst(q)
              case Diagnosed(_) => r == ChoiceDefect
              case EmptyMinimum => r == ChoiceRaised
  {
    VotesCounted(service, facts);
    SoughtMeans(service, facts);
    var rows := SortBy(service.candidates, CandidateLe);
    var matching, unknown := WithValue(rows, facts, TRUE), WithValue(rows, facts, UNKNOWN);
    if |matching| == 1 && unknown == [] {
      assert matching[0] in matching;
      LoneMatchIsOnly(service, facts, matching[0]);
      forall c | OnlyMatch(service, facts, c) ensures c == matching[0] { assert c in matching; }
    }
    if c :| OnlyMatch(service, facts, c) { OnlyMatchIsLone(service, facts, c); }
  }

  lemma LoneMatchIsOnly(service: Service, facts: PreparedFacts, c: Candidate)
    requires c in service.candidates && Votes(c, facts, TRUE) && !SeveralMatch(service, facts)
    requires forall d | d in service.candidates :: !Votes(d, facts, UNKNOWN)
    ensures OnlyMatch(service, facts, c)
  {
    var i :| 0 <= i < |service.candidates| && service.candidates[i] == c;
    forall j | 0 <= j < |service.candidates| && j != i ensures Votes(service.candidates[j], facts, FALSE) {
      var d := service.candidates[j];
      assert d in service.candidates;
    }
  }

  lemma OnlyMatchIsLone(service: Service, facts: PreparedFacts, c: Candidate)
    requires OnlyMatch(service, facts, c)
    ensures c in service.candidates && Votes(c, facts, TRUE) && !SeveralMatch(service, facts)
    ensures forall d | d in service.candidates :: !Votes(d, facts, UNKNOWN)
  {
    var i :| 0 <= i < |service.candidates| && service.candidates[i] == c && Votes(c, facts, TRUE)
             && forall j | 0 <= j < |service.candidates| && j != i :: Votes(service.candidates[j], facts, FALSE);
    forall d | d in service.candidates ensures !Votes(d, facts, UNKNOWN) {
      var j :| 0 <= j < |service.candidates| && service.candidates[j] == d;
    }
  }

  // ----- questions

  /** The source Facts behind a missing Fact: itself, or the answers its derivation still lacks. */
  predicate Behind(source: string, key: string, definitions: Registry, facts: PreparedFacts) {
    if key in definitions && definitions[key].derived then
      key in facts.missingSources && source in facts.missingSources[key]
    else source == key
  }

  /** The source Facts sought are those behind the missing ones, where each missing one has sound sources. */
  lemma SoughtExactlyIf(missing: set<string>, definitions: Registry, facts: PreparedFacts, profile: Profile, k: string)
    requires ExpansionDefects(missing, definitions, facts, profile) == {}
    ensures k in SourceFacts(missing, definitions, facts, profile)
            <==> exists key | key in missing :: Behind(k, key, definitions, facts)
  {
    forall key | key in missing ensures Expand(key, definitions, facts, profile).Sources? {
      if Expand(key, definitions, facts, profile).Bad? { DefectIsReported(key, missing, definitions, facts, profile); }
    }
  }

  /** Later phases want registered source Facts; choosing only refuses what is registered as derived. */
  predicate Unsound(k: string, definitions: Registry, profile: Profile) {
    if k in definitions then definitions[k].derived else profile == ConsequentialProfile
  }

  /** A missing Fact cannot be sought when nothing is behind it, or something unsound. */
  lemma UnsoughtExactlyIf(key: string, definitions: Registry, facts: PreparedFacts, profile: Profile)
    ensures Expand(key, definitions, facts, profile).Bad? <==>
              || (forall k :: !Behind(k, key, definitions, facts))
              || exists k :: Behind(k, key, definitions, facts) && Unsound(k, definitions, profile)
  {
    if key in definitions && definitions[key].derived {
      var sources := if key in facts.missingSources then facts.missingSources[key] else {};
      assert forall k :: Behind(k, key, definitions, facts) <==> k in sources;
    } else {
      assert Behind(key, key, definitions, facts);
    }
  }

  lemma NotSoonerIsTransitive(a: Question, b: Question, c: Question)
    requires Sooner(a, b) && !Sooner(c, b)
    ensures Sooner(a, c)
  {
    if a.priority == c.priority {
      TextLeTotal(b.id, c.id);
      TextLeTransitive(a.id, b.id, c.id);
      if a.id == c.id { TextLeAntisymmetric(a.id, b.id); }
    }
  }

  /** The pick by (priority, id), the first listed among equals. */
  lemma {:induction false} FirstPick(questions: seq<Question>, sources: set<string>) returns (i: nat)
    requires Covering(questions, sources) != []
    ensures i < |questions| && questions[i] == Soonest(Covering(questions, sources)) && Covers(questions[i], sources)
    ensures forall j | 0 <= j < |questions| && Covers(questions[j], sources) ::
              && !Sooner(questions[j], questions[i])
              && (j < i ==> Sooner(questions[i], questions[j]))
  {
    var init, last := questions[..|questions| - 1], questions[|questions| - 1];
    var before := Covering(init, sources);
    SoonerIsStrict(last);
    i := |init|;
    if before != [] {
      var first := FirstPick(init, sources);
      if Covers(last, sources) { assert (before + [last])[..|before|] == before; }
      if !Covers(last, sources) || !Sooner(last, init[first]) { i := first; }
      forall j | 0 <= j < |init| && Covers(init[j], sources) && i == |init|
        ensures !Sooner(questions[j], last) && Sooner(last, questions[j])
      {
        NotSoonerIsTransitive(last, init[first], init[j]);
        if Sooner(init[j], last) { SoonerIsTransitive(last, init[j], last); }
      }
    } else if |questions| > 1 {
      CoveringMembers(init, sources);
      forall j | 0 <= j < |init| ensures !Covers(questions[j], sources) { assert init[j] in init; }
    }
  }

  /** The lower priority number, or the same and the lower id; a question listed earlier must not tie. */
  predicate ComesFirst(q: Question, x: Question, listedEarlier: bool) {
    || q.priority < x.priority
    || (q.priority == x.priority && TextLe(q.id, x.id) && (listedEarlier ==> q.id != x.id))
  }

  lemma FirstExactlyIf(q: Question, x: Question)
    ensures !Sooner(x, q) <==> ComesFirst(q, x, false)
    ensures !Sooner(x, q) && Sooner(q, x) <==> ComesFirst(q, x, true)
  {
    TextLeTotal(q.id, x.id);
    TextLeReflexive(q.id);
    if TextLe(q.id, x.id) && TextLe(x.id, q.id) { TextLeAntisymmetric(q.id, x.id); }
  }

  /** What the public question shows of the one picked. */
  predicate ShowsQuestion(definitions: Registry, service: string, q: Question, r: Result) {
    if exists k | k in q.resolved :: k !in definitions || definitions[k].derived then r == CONFIGURATION_INVALID
    else
      && r.NextQuestion? && r.service == service && r.question.id == q.id && r.question.text == q.text
      && |r.question.answers| == |q.resolved|
      && forall i | 0 <= i < |q.resolved| ::
           && q.resolved[i] in q.resolved
           && r.question.answers[i] == Answer(q.resolved[i], definitions[q.resolved[i]].kind,
                                              definitions[q.resolved[i]].enumValues, definitions[q.resolved[i]].minimum)
  }

  predicate ResolvesOne(q: Question, sources: set<string>) {
    exists k | k in q.resolved :: k in sources
  }

  /** The result shows the question that comes first among those that resolve one of the Facts. */
  ghost predicate AsksFirst(definitions: Registry, service: Service, sources: set<string>, r: Result) {
    exists i | 0 <= i < |service.questions| ::
      && ResolvesOne(service.questions[i], sources) && ShowsQuestion(definitions, service.id, service.questions[i], r)
      && forall j | 0 <= j < |service.questions| && ResolvesOne(service.questions[j], sources) ::
           ComesFirst(service.questions[i], service.questions[j], j < i)
  }

  /**
    Asked for missing Facts, a later phase shows the first question in (priority, id) order that resolves a source
    Fact sought, and a configuration result when some Fact missing has no sound source or no question.
   */
  lemma AskForShows(definitions: Registry, service: Service, facts: PreparedFacts, missing: set<string>)
    requires missing != {}
    ensures var r := AskFor(definitions, service, facts, missing);
            if exists k | k in missing :: !Resolvable(k, definitions, service.questions, facts, ConsequentialProfile)
            then r == CONFIGURATION_INVALID
            else AsksFirst(definitions, service, SourceFacts(missing, definitions, facts, ConsequentialProfile), r)
  {
    PickedExactlyIf(definitions, service.questions, facts, missing, ConsequentialProfile);
    AlwaysACandidate(definitions, service.questions, facts, missing, ConsequentialProfile);
    var pick := PickQuestion(definitions, service.questions, facts, missing, ConsequentialProfile);
    if pick.Picked? {
      var i := FirstPick(service.questions, SourceFacts(missing, definitions, facts, ConsequentialProfile));
      forall q, x { FirstExactlyIf(q, x); }
      forall q, sources ensures Covers(q, sources) <==> ResolvesOne(q, sources) {}
      QuestionShows(definitions, service.id, pick.question);
    }
  }

  lemma QuestionShows(definitions: Registry, service: string, q: Question)
    ensures ShowsQuestion(definitions, service, q, QuestionResult(definitions, service, q))
  {
    if !Answerable(definitions, q.resolved) {
      var i :| 0 <= i < |q.resolved| && !(q.resolved[i] in definitions && !definitions[q.resolved[i]].derived);
      assert q.resolved[i] in q.resolved;
    }
  }
}
