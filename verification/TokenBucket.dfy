/**
 The arithmetic of one token bucket, as `RateLimiter.allow` performs it, and
 what it means: which requests a single bucket admits, stated without buckets.

 Tokens and instants are `real`; the rate is in tokens per second.
 */
module TokenBucket {

  datatype Limits = Limits(rate: real, capacity: real)

  datatype Bucket = Bucket(tokens: real, lastSeen: real)

  function Min(a: real, b: real): real {
    if a <= b then a else b
  }

  /** The tokens that accrue between two instants. */
  function Gain(l: Limits, from: real, to: real): real {
    (to - from) * l.rate
  }

  /** The tokens a bucket holds at `now`, before the request is charged. */
  function Refilled(l: Limits, b: Bucket, now: real): real {
    Min(l.capacity, b.tokens + Gain(l, b.lastSeen, now))
  }

  predicate Admits(l: Limits, b: Bucket, now: real) {
    Refilled(l, b, now) >= 1.0
  }

  function Served(l: Limits, b: Bucket, now: real): Bucket {
    Bucket(Refilled(l, b, now) - (if Admits(l, b, now) then 1.0 else 0.0), now)
  }

  function Fresh(l: Limits, now: real): Bucket {
    Bucket(l.capacity, now)
  }

  /** The bucket after requests at the instants `ts`, starting from `b`. */
  function After(l: Limits, b: Bucket, ts: seq<real>): Bucket {
    if ts == [] then b else Served(l, After(l, b, ts[..|ts| - 1]), ts[|ts| - 1])
  }

  /** The decision each of those requests received. */
  function Decisions(l: Limits, b: Bucket, ts: seq<real>): (r: seq<bool>)
    ensures |r| == |ts|
  {
    if ts == [] then []
    else Decisions(l, b, ts[..|ts| - 1]) + [Admits(l, After(l, b, ts[..|ts| - 1]), ts[|ts| - 1])]
  }

  /** What a bucket that is created by its first request and never evicted decides. */
  function LoneDecisions(l: Limits, ts: seq<real>): (r: seq<bool>)
    ensures |r| == |ts|
  {
    if ts == [] then [] else Decisions(l, Fresh(l, ts[0]), ts)
  }

  ghost predicate Ordered(ts: seq<real>) {
    forall i, j | 0 <= i <= j < |ts| :: ts[i] <= ts[j]
  }

  // ---- Runs of one bucket ----

  lemma Snoc(l: Limits, b: Bucket, ts: seq<real>, t: real)
    ensures After(l, b, ts + [t]) == Served(l, After(l, b, ts), t)
    ensures Decisions(l, b, ts + [t]) == Decisions(l, b, ts) + [Admits(l, After(l, b, ts), t)]
  {
    assert (ts + [t])[..|ts + [t]| - 1] == ts;
  }

  lemma {:induction false} Concat(l: Limits, b: Bucket, s: seq<real>, t: seq<real>)
    ensures After(l, b, s + t) == After(l, After(l, b, s), t)
    ensures Decisions(l, b, s + t) == Decisions(l, b, s) + Decisions(l, After(l, b, s), t)
  {
    if t == [] {
      assert s + t == s;
    } else {
      var u, x := t[..|t| - 1], t[|t| - 1];
      Concat(l, b, s, u);
      assert s + t == (s + u) + [x];
      Snoc(l, b, s + u, x);
    }
  }

  /** A bucket acts only through what it holds when the next request arrives. */
  lemma {:induction false} SameStart(l: Limits, b: Bucket, c: Bucket, ts: seq<real>)
    requires ts != [] && Refilled(l, b, ts[0]) == Refilled(l, c, ts[0])
    ensures After(l, b, ts) == After(l, c, ts)
    ensures Decisions(l, b, ts) == Decisions(l, c, ts)
  {
    if |ts| == 1 {
      assert ts[..0] == [];
    } else {
      SameStart(l, b, c, ts[..|ts| - 1]);
    }
  }

  lemma GainIs(l: Limits, from: real, to: real)
    ensures Gain(l, from, to) == (to - from) * l.rate
  {
  }

  lemma GainAdds(l: Limits, a: real, b: real, c: real)
    ensures Gain(l, a, c) == Gain(l, a, b) + Gain(l, b, c)
  {
  }

  lemma GainGrows(l: Limits, a: real, b: real)
    requires l.rate >= 0.0 && a <= b
    ensures Gain(l, a, b) >= 0.0
  {
  }

  /** A refill may be split at any instant in between. */
  lemma RefillTwice(l: Limits, b: Bucket, now: real, later: real)
    requires l.rate >= 0.0 && now <= later
    ensures Refilled(l, Bucket(Refilled(l, b, now), now), later) == Refilled(l, b, later)
  {
    GainGrows(l, now, later);
    GainAdds(l, b.lastSeen, now, later);
  }

  lemma InRange(l: Limits, b: Bucket, now: real)
    requires l.rate >= 0.0 && 0.0 <= b.tokens && 0.0 <= l.capacity && b.lastSeen <= now
    ensures 0.0 <= Served(l, b, now).tokens <= l.capacity
  {
    GainGrows(l, b.lastSeen, now);
  }

  // ---- Selections: any way of admitting some of the requests ----

  /** How many of the requests `i`, ..., `j - 1` the selection admits. */
  function Count(sel: seq<bool>, i: nat, j: nat): nat
    requires i <= j <= |sel|
  {
    if i == j then 0 else Count(sel, i, j - 1) + (if sel[j - 1] then 1 else 0)
  }

  /** The most that may be admitted from request `i` up to and including request `j`. */
  function Allowance(l: Limits, ts: seq<real>, i: nat, j: nat): real
    requires i < |ts| && j < |ts|
  {
    l.capacity + Gain(l, ts[i], ts[j])
  }

  /** The tokens request `n` would find if the earlier requests were admitted as in `sel`. */
  function Level(l: Limits, ts: seq<real>, sel: seq<bool>, n: nat): real
    requires n < |ts| && n <= |sel|
  {
    if n == 0 then l.capacity
    else Min(l.capacity,
             Level(l, ts, sel, n - 1) - (if sel[n - 1] then 1.0 else 0.0) + Gain(l, ts[n - 1], ts[n]))
  }

  /** Request `n` fits into every window that ends with it. */
  ghost predicate Fits(l: Limits, ts: seq<real>, sel: seq<bool>, n: nat)
    requires n < |ts| && n <= |sel|
  {
    forall i: nat | i <= n :: (Count(sel, i, n) + 1) as real <= Allowance(l, ts, i, n)
  }

  /** A selection that never admits a request that does not fit. */
  ghost predicate Conforms(l: Limits, ts: seq<real>, sel: seq<bool>) {
    |sel| == |ts| && forall n: nat | n < |ts| && sel[n] :: Fits(l, ts, sel, n)
  }

  /** The level is the least slack over all windows that end at request `n`. */
  lemma {:induction false} LevelIsLeastSlack(l: Limits, ts: seq<real>, sel: seq<bool>, n: nat)
    requires n < |ts| && n <= |sel|
    ensures forall i: nat | i <= n :: Level(l, ts, sel, n) <= Allowance(l, ts, i, n) - Count(sel, i, n) as real
    ensures exists i: nat :: i <= n && Level(l, ts, sel, n) == Allowance(l, ts, i, n) - Count(sel, i, n) as real
  {
    if n == 0 {
      assert Level(l, ts, sel, n) == Allowance(l, ts, 0, n) - Count(sel, 0, n) as real;
    } else {
      LevelIsLeastSlack(l, ts, sel, n - 1);
      forall i: nat | i < n
        ensures Allowance(l, ts, i, n) == Allowance(l, ts, i, n - 1) + Gain(l, ts[n - 1], ts[n])
      {
        GainAdds(l, ts[i], ts[n - 1], ts[n]);
      }
      var k: nat :| k <= n - 1 && Level(l, ts, sel, n - 1) == Allowance(l, ts, k, n - 1) - Count(sel, k, n - 1) as real;
      assert Allowance(l, ts, n, n) - Count(sel, n, n) as real == l.capacity;
      if Level(l, ts, sel, n) < l.capacity {
        assert Level(l, ts, sel, n) == Allowance(l, ts, k, n) - Count(sel, k, n) as real;
      }
    }
  }

  lemma LevelDecidesFit(l: Limits, ts: seq<real>, sel: seq<bool>, n: nat)
    requires n < |ts| && n <= |sel|
    ensures Level(l, ts, sel, n) >= 1.0 <==> Fits(l, ts, sel, n)
  {
    LevelIsLeastSlack(l, ts, sel, n);
    var k: nat :| k <= n && Level(l, ts, sel, n) == Allowance(l, ts, k, n) - Count(sel, k, n) as real;
    assert Fits(l, ts, sel, n) ==> (Count(sel, k, n) + 1) as real <= Allowance(l, ts, k, n);
  }

  lemma {:induction false} LevelOfPrefix(l: Limits, ts: seq<real>, sel: seq<bool>, us: seq<real>, tel: seq<bool>,
                                           n: nat)
    requires n < |ts| <= |us| && n <= |sel| <= |tel|
    requires us[..|ts|] == ts && tel[..|sel|] == sel
    ensures Level(l, ts, sel, n) == Level(l, us, tel, n)
  {
    assert us[n] == us[..|ts|][n];
    if n == 0 {
    } else {
      LevelOfPrefix(l, ts, sel, us, tel, n - 1);
      assert us[n - 1] == us[..|ts|][n - 1] && tel[n - 1] == tel[..|sel|][n - 1];
    }
  }

  /** The lazily updated `tokens` of the bucket is the level of its own decisions. */
  lemma {:induction false} TokensAreLevel(l: Limits, ts: seq<real>)
    requires ts != []
    ensures var n := |ts| - 1;
            Refilled(l, After(l, Fresh(l, ts[0]), ts[..n]), ts[n]) == Level(l, ts, LoneDecisions(l, ts), n)
  {
    var n := |ts| - 1;
    var d := LoneDecisions(l, ts);
    if n == 0 {
      assert ts[..n] == [];
    } else {
      var us := ts[..n];
      TokensAreLevel(l, us);
      LevelOfPrefix(l, us, LoneDecisions(l, us), ts, d, n - 1);
      assert us[..n - 1] == ts[..n - 1];
    }
  }

  /**
   The exact admission rule: a bucket admits its n-th request if and only if the
   request fits into every window that ends with it.  No assumption is made on
   the rate, the capacity or the clock.
   */
  lemma {:induction false} ExactAdmissionRule(l: Limits, ts: seq<real>, n: nat)
    requires n < |ts|
    ensures LoneDecisions(l, ts)[n] <==> Fits(l, ts, LoneDecisions(l, ts), n)
  {
    var us := ts[..n + 1];
    TokensAreLevel(l, us);
    DecisionsOfPrefix(l, ts, n + 1);
    LevelOfPrefix(l, us, LoneDecisions(l, us), ts, LoneDecisions(l, ts), n);
    LevelDecidesFit(l, ts, LoneDecisions(l, ts), n);
    assert us[..n] == ts[..n] && LoneDecisions(l, us)[n] == LoneDecisions(l, ts)[n];
  }

  lemma DecisionsOfPrefix(l: Limits, ts: seq<real>, k: nat)
    requires 0 < k <= |ts|
    ensures LoneDecisions(l, ts)[..k] == LoneDecisions(l, ts[..k])
  {
    assert ts == ts[..k] + ts[k..];
    Concat(l, Fresh(l, ts[0]), ts[..k], ts[k..]);
  }

  /**
   The greedy bucket is optimal: after every prefix it has admitted at least as
   many requests as any other selection that conforms to the window rule.
   */
  lemma {:induction false} GreedyIsOptimal(l: Limits, ts: seq<real>, sel: seq<bool>, n: nat)
    requires Conforms(l, ts, sel) && n <= |ts|
    ensures Count(sel, 0, n) <= Count(LoneDecisions(l, ts), 0, n)
  {
    if n > 0 {
      GreedyStaysAhead(l, ts, sel, n - 1);
      AheadAfterOne(l, ts, sel, n - 1);
    }
  }

  /** A lead in admitted requests pays for whatever the other selection has saved up. */
  lemma {:induction false} GreedyStaysAhead(l: Limits, ts: seq<real>, sel: seq<bool>, n: nat)
    requires Conforms(l, ts, sel) && n < |ts|
    ensures var d := LoneDecisions(l, ts);
            var lead := Count(d, 0, n) - Count(sel, 0, n);
            0 <= lead && Level(l, ts, sel, n) - Level(l, ts, d, n) <= lead as real
  {
    if n == 0 {
    } else {
      GreedyStaysAhead(l, ts, sel, n - 1);
      AheadAfterOne(l, ts, sel, n - 1);
    }
  }

  lemma AheadAfterOne(l: Limits, ts: seq<real>, sel: seq<bool>, n: nat)
    requires Conforms(l, ts, sel) && n < |ts|
    requires 0 <= Count(LoneDecisions(l, ts), 0, n) - Count(sel, 0, n)
    requires Level(l, ts, sel, n) - Level(l, ts, LoneDecisions(l, ts), n)
             <= (Count(LoneDecisions(l, ts), 0, n) - Count(sel, 0, n)) as real
    ensures Count(sel, 0, n + 1) <= Count(LoneDecisions(l, ts), 0, n + 1)
  {
    ExactAdmissionRule(l, ts, n);
    LevelDecidesFit(l, ts, LoneDecisions(l, ts), n);
    LevelDecidesFit(l, ts, sel, n);
  }

  /** The sliding-window bound for one bucket. */
  lemma {:induction false} WindowBound(l: Limits, ts: seq<real>, i: nat, j: nat)
    requires l.rate >= 0.0 && l.capacity >= 0.0 && Ordered(ts)
    requires i <= j < |ts|
    ensures Count(LoneDecisions(l, ts), i, j + 1) as real <= Allowance(l, ts, i, j)
  {
    var d := LoneDecisions(l, ts);
    ExactAdmissionRule(l, ts, j);
    assert Count(d, i, j + 1) == Count(d, i, j) + (if d[j] then 1 else 0);
    if !d[j] && i < j {
      WindowBound(l, ts, i, j - 1);
      assert ts[j - 1] <= ts[j];
      GainGrows(l, ts[j - 1], ts[j]);
      GainAdds(l, ts[i], ts[j - 1], ts[j]);
    }
  }
}
