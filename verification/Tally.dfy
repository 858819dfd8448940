/**
  The accumulators every selection loop of the planner fills, and what one row adds to them. A
  selection is the total of its rows' effects.
 */
module Tally {
  import opened Wrappers

  /** What one authored row contributes. */
  datatype Effect<+P> =
    Effect(shown: Option<P>, asks: set<string>, trusted: set<string>, inconclusive: set<string>,
           trustGap: bool, needsBasis: bool, undecided: bool, invalid: bool)

  function Nothing<P>(): Effect<P> {
    Effect(None, {}, {}, {}, false, false, false, false)
  }

  function Shows<P>(p: P): Effect<P> {
    Nothing<P>().(shown := Some(p))
  }

  function Asks<P>(missing: set<string>): Effect<P> {
    Nothing<P>().(asks := missing)
  }

  function Invalid<P>(): Effect<P> {
    Nothing<P>().(invalid := true)
  }

  datatype Selection<+P> =
    Selection(items: seq<P>, missing: set<string>, trusted: set<string>, inconclusive: set<string>,
              trustInconclusive: bool, basisRequired: bool, undecided: bool, configurationInvalid: bool)

  function Empty<P>(): Selection<P> {
    Selection([], {}, {}, {}, false, false, false, false)
  }

  function Plus<P>(s: Selection<P>, e: Effect<P>): Selection<P> {
    Selection(if e.shown.Some? then s.items + [e.shown.value] else s.items,
              s.missing + e.asks, s.trusted + e.trusted, s.inconclusive + e.inconclusive,
              s.trustInconclusive || e.trustGap, s.basisRequired || e.needsBasis,
              s.undecided || e.undecided, s.configurationInvalid || e.invalid)
  }

  function Total<R, P>(rows: seq<R>, effect: R -> Effect<P>): Selection<P> {
    if rows == [] then Empty() else Plus(Total(rows[..|rows| - 1], effect), effect(rows[|rows| - 1]))
  }

  lemma TotalNext<R, P>(rows: seq<R>, n: nat, effect: R -> Effect<P>)
    requires n < |rows|
    ensures Total(rows[..n + 1], effect) == Plus(Total(rows[..n], effect), effect(rows[n]))
  {
    assert rows[..n + 1][..n] == rows[..n];
  }

  lemma TotalAll<R, P>(rows: seq<R>, effect: R -> Effect<P>)
    ensures Total(rows[..|rows|], effect) == Total(rows, effect)
  {
    assert rows[..|rows|] == rows;
  }

  /** A Fact is missing exactly when some row asks for it. */
  lemma {:induction false} TotalAsks<R, P>(rows: seq<R>, effect: R -> Effect<P>)
    ensures forall k :: k in Total(rows, effect).missing <==> exists i | 0 <= i < |rows| :: k in effect(rows[i]).asks
  {
    if rows != [] {
      var init := rows[..|rows| - 1];
      TotalAsks(init, effect);
      assert forall i | 0 <= i < |init| :: init[i] == rows[i];
    }
  }

  /** A basis unlocks guidance exactly when some row is trusted for it. */
  lemma {:induction false} TotalTrusted<R, P>(rows: seq<R>, effect: R -> Effect<P>)
    ensures forall k :: k in Total(rows, effect).trusted <==> exists i | 0 <= i < |rows| :: k in effect(rows[i]).trusted
  {
    if rows != [] {
      var init := rows[..|rows| - 1];
      TotalTrusted(init, effect);
      assert forall i | 0 <= i < |init| :: init[i] == rows[i];
    }
  }

  /** A basis is inconclusive exactly when some row finds it so. */
  lemma {:induction false} TotalInconclusive<R, P>(rows: seq<R>, effect: R -> Effect<P>)
    ensures forall k ::
              k in Total(rows, effect).inconclusive <==> exists i | 0 <= i < |rows| :: k in effect(rows[i]).inconclusive
  {
    if rows != [] {
      var init := rows[..|rows| - 1];
      TotalInconclusive(init, effect);
      assert forall i | 0 <= i < |init| :: init[i] == rows[i];
    }
  }

  /** An item is shown exactly when some row shows it. */
  lemma {:induction false} TotalShows<R, P>(rows: seq<R>, effect: R -> Effect<P>)
    ensures forall p ::
              p in Total(rows, effect).items <==> exists i | 0 <= i < |rows| :: effect(rows[i]).shown == Some(p)
  {
    if rows != [] {
      var init := rows[..|rows| - 1];
      TotalShows(init, effect);
      assert forall i | 0 <= i < |init| :: init[i] == rows[i];
    }
  }

  /** A flag is raised exactly when some row raises it. */
  lemma {:induction false} TotalFlags<R, P>(rows: seq<R>, effect: R -> Effect<P>)
    ensures Total(rows, effect).configurationInvalid <==> exists i | 0 <= i < |rows| :: effect(rows[i]).invalid
    ensures Total(rows, effect).basisRequired <==> exists i | 0 <= i < |rows| :: effect(rows[i]).needsBasis
    ensures Total(rows, effect).undecided <==> exists i | 0 <= i < |rows| :: effect(rows[i]).undecided
    ensures Total(rows, effect).trustInconclusive <==> exists i | 0 <= i < |rows| :: effect(rows[i]).trustGap
  {
    if rows != [] {
      var init := rows[..|rows| - 1];
      TotalFlags(init, effect);
      assert forall i | 0 <= i < |init| :: init[i] == rows[i];
    }
  }

  /** Two effects that agree on the rows have the same total. */
  lemma {:induction false} TotalCongruent<R, P>(rows: seq<R>, f: R -> Effect<P>, g: R -> Effect<P>)
    requires forall r | r in rows :: f(r) == g(r)
    ensures Total(rows, f) == Total(rows, g)
  {
    if rows != [] {
      assert rows[|rows| - 1] in rows;
      TotalCongruent(rows[..|rows| - 1], f, g);
    }
  }

  /** The accumulators after one more row. */
  method Accumulate<P>(s: Selection<P>, e: Effect<P>) returns (r: Selection<P>)
    ensures r == Plus(s, e)
  {
    var items := s.items;
    if e.shown.Some? {
      items := items + [e.shown.value];
    }
    r := Selection(items, s.missing + e.asks, s.trusted + e.trusted, s.inconclusive + e.inconclusive,
                   s.trustInconclusive || e.trustGap, s.basisRequired || e.needsBasis,
                   s.undecided || e.undecided, s.configurationInvalid || e.invalid);
  }
}
