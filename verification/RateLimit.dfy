/** The fixed-window limiter (api/rate_limit.py): process-local buckets, pruned when the window changes. */
module RateLimit {
  import opened Wrappers

  /** A bucket: the client's ephemeral identifier, the scope of the path, the window. */
  datatype Key = Key(client: string, scope: string, window: int)

  datatype State = State(buckets: map<Key, nat>, lastPrune: Option<int>)

  type Positive = n: int | n > 0 witness 60

  const FRESH := State(map[], None)

  // ----- windows and waiting

  function WindowOf(now: real, windowSeconds: Positive): int
  {
    (now / windowSeconds as real).Floor
  }

  function Elapsed(now: real, windowSeconds: Positive): real
  {
    now - WindowOf(now, windowSeconds) as real * windowSeconds as real
  }

  function Ceiling(x: real): int {
    -(-x).Floor
  }

  function RetryAfter(now: real, windowSeconds: Positive): int
  {
    var wait := Ceiling(windowSeconds as real - Elapsed(now, windowSeconds));
    if wait < 1 then 1 else wait
  }

  lemma ScaleKeepsOrder(a: real, b: real, w: real)
    requires a <= b && w > 0.0
    ensures a * w <= b * w
    ensures a < b ==> a * w < b * w
  {}

  lemma BetweenScaled(low: real, q: real, high: real, w: real, x: real)
    requires w > 0.0 && q * w == x && low * w <= x < high * w
    ensures low <= q < high
  {
    if q < low { ScaleKeepsOrder(q, low, w); }
    if high <= q { ScaleKeepsOrder(high, q, w); }
  }

  lemma QuotientTimes(x: real, w: real)
    requires w > 0.0
    ensures x / w * w == x
  {}

  lemma Distributes(x: real, w: real)
    ensures (x + 1.0) * w == x * w + w
  {}

  lemma ElapsedWithinWindow(now: real, windowSeconds: Positive)
    ensures 0.0 <= Elapsed(now, windowSeconds) < windowSeconds as real
  {
    var w := windowSeconds as real;
    var q := now / w;
    QuotientTimes(now, w);
    assert q.Floor as real <= q < q.Floor as real + 1.0;
    ScaleKeepsOrder(q.Floor as real, q, w);
    ScaleKeepsOrder(q, q.Floor as real + 1.0, w);
    Distributes(q.Floor as real, w);
    assert q * w < (q.Floor as real + 1.0) * w;
    assert now < q.Floor as real * w + w;
  }

  lemma WindowIsUnique(now: real, windowSeconds: Positive, n: int)
    requires n as real * windowSeconds as real <= now < (n + 1) as real * windowSeconds as real
    ensures WindowOf(now, windowSeconds) == n
  {
    var w, low, high := windowSeconds as real, n as real, (n + 1) as real;
    var q := now / w;
    QuotientTimes(now, w);
    BetweenScaled(low, q, high, w, now);
    assert high == low + 1.0;
    assert q.Floor == n;
  }

  /** Waiting the advertised time always lands in the next window, never later. */
  lemma WaitingReachesNextWindow(now: real, windowSeconds: Positive)
    ensures 1 <= RetryAfter(now, windowSeconds) <= windowSeconds
    ensures WindowOf(now + RetryAfter(now, windowSeconds) as real, windowSeconds) == WindowOf(now, windowSeconds) + 1
  {
    var w, n := windowSeconds as real, WindowOf(now, windowSeconds);
    ElapsedWithinWindow(now, windowSeconds);
    var rest := w - Elapsed(now, windowSeconds);
    assert rest <= RetryAfter(now, windowSeconds) as real < rest + 1.0;
    assert (-rest).Floor + windowSeconds >= 0;
    assert (n + 1) as real * w == n as real * w + w;
    assert (n + 2) as real * w == n as real * w + w + w;
    WindowIsUnique(now + RetryAfter(now, windowSeconds) as real, windowSeconds, n + 1);
  }

  /** And waiting a second less never does. */
  lemma WaitingLessStays(now: real, windowSeconds: Positive)
    ensures WindowOf(now + (RetryAfter(now, windowSeconds) - 1) as real, windowSeconds) == WindowOf(now, windowSeconds)
  {
    var w, n := windowSeconds as real, WindowOf(now, windowSeconds);
    ElapsedWithinWindow(now, windowSeconds);
    var rest := w - Elapsed(now, windowSeconds);
    assert 0.0 <= (RetryAfter(now, windowSeconds) - 1) as real < rest;
    assert (n + 1) as real * w == n as real * w + w;
    WindowIsUnique(now + (RetryAfter(now, windowSeconds) - 1) as real, windowSeconds, n);
  }

  // ----- one call

  function Pruned(buckets: map<Key, nat>, staleBefore: int): map<Key, nat> {
    map k | k in buckets && k.window >= staleBefore :: buckets[k]
  }

  function CountIn(buckets: map<Key, nat>, key: Key): nat {
    if key in buckets then buckets[key] else 0
  }

  /** The state after a call, with the call's own count in its bucket. */
  function Step(s: State, key: Key): State {
    var kept := if s.lastPrune == Some(key.window) then s.buckets else Pruned(s.buckets, key.window - 1);
    State(kept[key := CountIn(kept, key) + 1], Some(key.window))
  }

  class Limiter {
    const enabled: bool
    const limit: Positive
    const windowSeconds: Positive
    var buckets: map<Key, nat>
    var lastPrune: Option<int>

    function Contents(): State
      reads this
    {
      State(buckets, lastPrune)
    }

    /** Settings that are not positive fall back to 60 requests in 60 seconds. */
    constructor (enabled: bool, limit: int, windowSeconds: int)
      ensures Contents() == FRESH && this.enabled == enabled
      ensures this.limit == (if limit > 0 then limit else 60)
              && this.windowSeconds == if windowSeconds > 0 then windowSeconds else 60
    {
      this.enabled := enabled;
      this.limit := if limit > 0 then limit else 60;
      this.windowSeconds := if windowSeconds > 0 then windowSeconds else 60;
      buckets, lastPrune := map[], None;
    }

    /** `evaluate_rate_limit` */
    method Evaluate(client: string, scope: string, now: real) returns (limited: bool, retryAfter: int)
      modifies this
      ensures !enabled ==> !limited && retryAfter == 0 && Contents() == old(Contents())
      ensures enabled ==>
                var key := Key(client, scope, WindowOf(now, windowSeconds));
                && Contents() == Step(old(Contents()), key)
                && limited == (Contents().buckets[key] > limit)
                && retryAfter == RetryAfter(now, windowSeconds)
    {
      if !enabled { return false, 0; }
      var windowId := WindowOf(now, windowSeconds);
      retryAfter := RetryAfter(now, windowSeconds);
      var key := Key(client, scope, windowId);
      if lastPrune != Some(windowId) {
        var staleBefore := windowId - 1;
        ghost var before := buckets;
        var todo := buckets.Keys;
        while todo != {}
          invariant todo <= buckets.Keys <= before.Keys && unchanged(`lastPrune)
          invariant forall k | k in before :: k in buckets <==> k in todo || k.window >= staleBefore
          invariant forall k | k in buckets :: buckets[k] == before[k]
          decreases todo
        {
          var existing :| existing in todo;
          todo := todo - {existing};
          if existing.window < staleBefore { buckets := buckets - {existing}; }
        }
        assert buckets == Pruned(before, staleBefore);
        lastPrune := Some(windowId);
      }
      var count := (if key in buckets then buckets[key] else 0) + 1;
      buckets := buckets[key := count];
      limited := count > limit;
    }

    /** `reset_rate_limit_state` */
    method Reset()
      modifies this
      ensures Contents() == FRESH
    {
      buckets, lastPrune := map[], None;
    }
  }

  // ----- runs

  function Run(calls: seq<Key>): State {
    if calls == [] then FRESH else Step(Run(calls[..|calls| - 1]), calls[|calls| - 1])
  }

  /** How many of the calls were made for this client, scope and window. */
  function Count(calls: seq<Key>, key: Key): nat {
    if calls == [] then 0 else Count(calls[..|calls| - 1], key) + (if calls[|calls| - 1] == key then 1 else 0)
  }

  /** No call lags more than one window behind any call before it. */
  ghost predicate NearlyInOrder(calls: seq<Key>) {
    forall i, j | 0 <= i < j < |calls| :: calls[j].window >= calls[i].window - 1
  }

  function Newest(calls: seq<Key>): (n: int)
    requires calls != []
    ensures forall i | 0 <= i < |calls| :: calls[i].window <= n
  {
    var last := calls[|calls| - 1].window;
    if |calls| == 1 then last
    else
      var before := Newest(calls[..|calls| - 1]);
      if before < last then last else before
  }

  lemma {:induction false} NewestWasCalled(calls: seq<Key>) returns (i: nat)
    requires calls != []
    ensures i < |calls| && calls[i].window == Newest(calls)
  {
    i := |calls| - 1;
    if calls[i].window != Newest(calls) { i := NewestWasCalled(calls[..|calls| - 1]); }
  }

  /** The bucket holds exactly the calls made for it. */
  predicate Exact(s: State, calls: seq<Key>, k: Key) {
    CountIn(s.buckets, k) == Count(calls, k)
  }

  /** The last pruning was for the last call's window. */
  predicate Remembers(s: State, calls: seq<Key>) {
    calls != [] ==> s.lastPrune == Some(calls[|calls| - 1].window)
  }

  /** A call two windows newer came after a call for the bucket. */
  ghost predicate Overtaken(calls: seq<Key>, k: Key) {
    exists i, j | 0 <= i < j < |calls| :: calls[i] == k && calls[j].window > k.window + 1
  }

  /** The bucket was called once more after it was overtaken. */
  ghost predicate Resumed(calls: seq<Key>, k: Key) {
    exists m | 0 <= m < |calls| :: calls[m] == k && Overtaken(calls[..m], k)
  }

  /** The calls for the bucket since it was last overtaken. */
  function CountSince(calls: seq<Key>, k: Key): nat {
    if calls == [] then 0
    else
      var last := calls[|calls| - 1];
      if last.window > k.window + 1 then 0
      else CountSince(calls[..|calls| - 1], k) + (if last == k then 1 else 0)
  }

  /** After every run, whatever the order of its calls, a bucket holds the calls since it was last overtaken. */
  lemma {:induction false} BucketsCountSince(calls: seq<Key>, k: Key)
    ensures Remembers(Run(calls), calls)
    ensures CountIn(Run(calls).buckets, k) == CountSince(calls, k)
    ensures k in Run(calls).buckets <==> CountSince(calls, k) > 0
  {
    if calls != [] { BucketsCountSince(calls[..|calls| - 1], k); }
  }

  /** A key is overtaken by the last call, or was before it. */
  lemma OvertakenNext(calls: seq<Key>, key: Key, k: Key)
    ensures Overtaken(calls + [key], k) <==> Overtaken(calls, k) || (k in calls && key.window > k.window + 1)
  {
    var next := calls + [key];
    assert forall i | 0 <= i < |calls| :: next[i] == calls[i];
    if k in calls && key.window > k.window + 1 {
      var i :| 0 <= i < |calls| && calls[i] == k;
      assert next[i] == k && next[|calls|] == key;
    }
    if Overtaken(calls, k) {
      var i, j :| 0 <= i < j < |calls| && calls[i] == k && calls[j].window > k.window + 1;
      assert next[i] == k && next[j].window > k.window + 1;
    }
  }

  lemma ResumedNext(calls: seq<Key>, key: Key, k: Key)
    ensures Resumed(calls + [key], k) <==> Resumed(calls, k) || (key == k && Overtaken(calls, k))
  {
    var next := calls + [key];
    assert forall m | 0 <= m <= |calls| :: next[..m] == calls[..m];
    assert calls[..|calls|] == calls && next[|calls|] == key;
  }

  lemma {:induction false} CalledIsCounted(calls: seq<Key>, k: Key)
    ensures k in calls <==> Count(calls, k) > 0
  {
    if calls != [] {
      CalledIsCounted(calls[..|calls| - 1], k);
      assert calls == calls[..|calls| - 1] + [calls[|calls| - 1]];
    }
  }

  /** Calls are lost exactly when the bucket was overtaken. */
  lemma {:induction false} LostExactlyIfOvertaken(calls: seq<Key>, k: Key)
    ensures CountSince(calls, k) <= Count(calls, k)
    ensures Overtaken(calls, k) <==> CountSince(calls, k) < Count(calls, k)
  {
    if calls != [] {
      var init, last := calls[..|calls| - 1], calls[|calls| - 1];
      LostExactlyIfOvertaken(init, k);
      CalledIsCounted(init, k);
      OvertakenNext(init, last, k);
      assert calls == init + [last];
    }
  }

  /** In every run, a bucket equals the number of calls made for it exactly when it was not overtaken. */
  lemma ExactExactlyIfNotOvertaken(calls: seq<Key>, k: Key)
    ensures Exact(Run(calls), calls, k) <==>
            !exists i, j | 0 <= i < j < |calls| :: calls[i] == k && calls[j].window > k.window + 1
  {
    BucketsCountSince(calls, k);
    LostExactlyIfOvertaken(calls, k);
  }

  /** Calls that were let through for one key. */
  function Passed(calls: seq<Key>, key: Key, limit: nat): nat {
    if calls == [] then 0
    else
      var last := calls[|calls| - 1];
      Passed(calls[..|calls| - 1], key, limit)
      + (if last == key && CountIn(Run(calls).buckets, last) <= limit then 1 else 0)
  }

  lemma PassedNext(calls: seq<Key>, key: Key, k: Key, limit: nat)
    ensures Passed(calls + [key], k, limit)
            == Passed(calls, k, limit) + if key == k && CountSince(calls, k) < limit then 1 else 0
    ensures Count(calls + [key], k) == Count(calls, k) + if key == k then 1 else 0
  {
    var next := calls + [key];
    assert next[..|calls|] == calls;
    BucketsCountSince(next, k);
  }

  /** Exactly the first `limit` calls for a key pass, unless it was called after it was overtaken. */
  lemma {:induction false} PassedIsCapped(calls: seq<Key>, key: Key, limit: nat)
    requires !Resumed(calls, key)
    ensures Passed(calls, key, limit) == if Count(calls, key) <= limit then Count(calls, key) else limit
  {
    if calls != [] {
      var init, last := calls[..|calls| - 1], calls[|calls| - 1];
      assert calls == init + [last];
      ResumedNext(init, last, key);
      PassedNext(init, last, key, limit);
      PassedIsCapped(init, key, limit);
      LostExactlyIfOvertaken(init, key);
    }
  }

  /** Once overtaken and not called since, the bucket is gone. */
  lemma {:induction false} OvertakenIsGone(calls: seq<Key>, k: Key)
    requires Overtaken(calls, k) && !Resumed(calls, k)
    ensures CountSince(calls, k) == 0
  {
    var init, last := calls[..|calls| - 1], calls[|calls| - 1];
    assert calls == init + [last];
    ResumedNext(init, last, k);
    OvertakenNext(init, last, k);
    if last.window <= k.window + 1 { OvertakenIsGone(init, k); }
  }

  /** A resumed bucket lets all its calls pass, or more than the limit. */
  lemma {:induction false} ResumedSlipsThrough(calls: seq<Key>, k: Key, limit: Positive)
    requires Resumed(calls, k)
    ensures Overtaken(calls, k)
    ensures Passed(calls, k, limit) > limit || Passed(calls, k, limit) == Count(calls, k)
  {
    var init, last := calls[..|calls| - 1], calls[|calls| - 1];
    assert calls == init + [last];
    ResumedNext(init, last, k);
    PassedNext(init, last, k, limit);
    OvertakenNext(init, last, k);
    LostExactlyIfOvertaken(init, k);
    if Resumed(init, k) {
      ResumedSlipsThrough(init, k, limit);
    } else {
      OvertakenIsGone(init, k);
      PassedIsCapped(init, k, limit);
    }
  }

  /** The limit holds exactly when the key was not resumed, or was not called more often than the limit allows. */
  lemma CappedExactlyIf(calls: seq<Key>, k: Key, limit: Positive)
    ensures Passed(calls, k, limit) == (if Count(calls, k) <= limit then Count(calls, k) else limit)
            <==> !Resumed(calls, k) || Count(calls, k) <= limit
  {
    if Resumed(calls, k) {
      ResumedSlipsThrough(calls, k, limit);
      PassedIsAtMostCount(calls, k, limit);
    } else {
      PassedIsCapped(calls, k, limit);
    }
  }

  lemma {:induction false} PassedIsAtMostCount(calls: seq<Key>, k: Key, limit: nat)
    ensures Passed(calls, k, limit) <= Count(calls, k)
  {
    if calls != [] { PassedIsAtMostCount(calls[..|calls| - 1], k, limit); }
  }

  // ----- calls nearly in order

  /** A stored bucket was called, and not overtaken since. */
  lemma {:induction false} StoredSince(calls: seq<Key>, k: Key) returns (i: nat)
    requires CountSince(calls, k) > 0
    ensures i < |calls| && calls[i] == k && forall j | i <= j < |calls| :: calls[j].window <= k.window + 1
  {
    i := |calls| - 1;
    if calls[i] != k {
      var last := i;
      i := StoredSince(calls[..last], k);
      assert forall j | i <= j < last :: calls[j] == calls[..last][j];
    }
  }

  /** Only the newest two windows are stored, and each bucket there is exact. */
  ghost predicate Faithful(s: State, calls: seq<Key>) {
    if calls == [] then s == FRESH
    else
      && (forall k: Key | k in s.buckets :: Newest(calls) - 1 <= k.window <= Newest(calls))
      && (forall k: Key | k.window >= Newest(calls) - 1 :: Exact(s, calls, k))
  }

  /** When no call lags more than one window, the buckets are those of the newest two windows. */
  lemma RunsAreFaithful(calls: seq<Key>)
    requires NearlyInOrder(calls)
    ensures Faithful(Run(calls), calls)
  {
    if calls != [] {
      var n := NewestWasCalled(calls);
      forall k: Key | k in Run(calls).buckets ensures Newest(calls) - 1 <= k.window <= Newest(calls) {
        BucketsCountSince(calls, k);
        var i := StoredSince(calls, k);
        assert n < i ==> calls[i].window >= calls[n].window - 1;
      }
      forall k: Key | k.window >= Newest(calls) - 1 ensures Exact(Run(calls), calls, k) {
        ExactExactlyIfNotOvertaken(calls, k);
      }
    }
  }

  /** Then no key is resumed, so the limit holds for each. */
  lemma OrderedCallsAreCapped(calls: seq<Key>, key: Key, limit: nat)
    requires NearlyInOrder(calls)
    ensures !Resumed(calls, key)
    ensures Passed(calls, key, limit) == if Count(calls, key) <= limit then Count(calls, key) else limit
  {
    PassedIsCapped(calls, key, limit);
  }

  /** Two windows late, a call for an exhausted key finds its bucket gone and passes. */
  lemma LateCallSlipsThrough(client: string, scope: string)
    ensures var early, later := Key(client, scope, 0), Key(client, scope, 2);
            var calls := [early, later, early];
            Resumed(calls, early) && Count(calls, early) == 2 && Passed(calls, early, 1) == 2
  {
    var early, later := Key(client, scope, 0), Key(client, scope, 2);
    var calls := [early, later, early];
    assert calls[..2][0] == early && calls[..2][1] == later;
    assert calls[2] == early && Overtaken(calls[..2], early);
    assert calls[..2] == [early, later] && [early, later][..1] == [early] && [early][..0] == [];
    assert Count([], early) == 0;
    assert Count([early], early) == 1 && Count([early, later], early) == 1;
    CappedExactlyIf(calls, early, 1);
    PassedIsAtMostCount(calls, early, 1);
    ResumedSlipsThrough(calls, early, 1);
  }
}
