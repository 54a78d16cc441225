/**
 When deleting idle buckets cannot be noticed: exactly when ten idle minutes
 refill a whole bucket.
 */
module Eviction {
  import opened TokenBucket
  import opened LimiterRuns

  /** Ten minutes refill a whole bucket, so that deleting an idle one loses nothing. */
  ghost predicate RefillsWhileIdle(l: Limits) {
    l.rate >= 0.0 && l.capacity >= 0.0 && 600.0 * l.rate >= l.capacity
  }

  /** The latest request of `ip` fits into every window that ends with it. */
  ghost predicate FitsLast(l: Limits, es: seq<Event>, ip: string) {
    Times(es, ip) != [] && Fits(l, Times(es, ip), Verdicts(l, es, ip), |Times(es, ip)| - 1)
  }

  /** No run can tell the limiter from one that never deletes a bucket. */
  ghost predicate EvictionIsInvisible(l: Limits) {
    forall es, ip | InOrder(es) :: Verdicts(l, es, ip) == Verdicts(l, Unswept(es), ip)
  }

  /** In every run, every IP stays within its allowance in every window. */
  ghost predicate WindowsAreBounded(l: Limits) {
    forall es, ip, i: nat, j: nat | InOrder(es) && i <= j < |Times(es, ip)| ::
      Count(Verdicts(l, es, ip), i, j + 1) as real <= Allowance(l, Times(es, ip), i, j)
  }

  // ---- Ten minutes refill a bucket: eviction is invisible ----

  /** An IP has its lone bucket, or none because its lone bucket would be full by now. */
  ghost predicate Tracks(l: Limits, es: seq<Event>, ip: string) {
    var ts := Times(es, ip);
    if ts == [] then ip !in Run(l, es)
    else
      var b := After(l, Fresh(l, ts[0]), ts);
      && 0.0 <= b.tokens
      && b.lastSeen == ts[|ts| - 1] <= es[|es| - 1].now
      && if ip in Run(l, es) then Run(l, es)[ip] == b else Idle(b, es[|es| - 1].now)
  }

  lemma IdleIsFull(l: Limits, b: Bucket, now: real)
    requires l.rate >= 0.0 && 600.0 * l.rate >= l.capacity
    requires 0.0 <= b.tokens && Idle(b, now)
    ensures Refilled(l, b, now) == l.capacity
  {
    GainAdds(l, b.lastSeen, b.lastSeen + IDLE_LIMIT, now);
    GainGrows(l, b.lastSeen + IDLE_LIMIT, now);
    assert Gain(l, b.lastSeen, b.lastSeen + IDLE_LIMIT) == IDLE_LIMIT * l.rate;
  }

  lemma FreshStaysFull(l: Limits, now: real, later: real)
    requires l.rate >= 0.0 && now <= later
    ensures Refilled(l, Fresh(l, now), later) == l.capacity
  {
    GainGrows(l, now, later);
  }

  lemma {:induction false} SweptRunIsLone(l: Limits, es: seq<Event>, ip: string)
    requires InOrder(es)
    requires RefillsWhileIdle(l)
    ensures Verdicts(l, es, ip) == LoneDecisions(l, Times(es, ip))
    ensures Tracks(l, es, ip)
  {
    if es == [] {
    } else {
      var init, e := es[..|es| - 1], es[|es| - 1];
      SweptRunIsLone(l, init, ip);
      assert init != [] ==> init[|init| - 1] == es[|init| - 1];
      LoneEvent(l, init, ip, e);
      assert init + [e] == es;
    }
  }

  lemma LoneEvent(l: Limits, es: seq<Event>, ip: string, e: Event)
    requires RefillsWhileIdle(l)
    requires Tracks(l, es, ip) && (es != [] ==> es[|es| - 1].now <= e.now)
    requires Verdicts(l, es, ip) == LoneDecisions(l, Times(es, ip))
    ensures Verdicts(l, es + [e], ip) == LoneDecisions(l, Times(es + [e], ip))
    ensures Tracks(l, es + [e], ip)
  {
    if e.Request? && e.ip == ip {
      LoneRequest(l, es, ip, e.now);
    } else {
      LoneOther(l, es, ip, e);
    }
  }

  lemma LoneOther(l: Limits, es: seq<Event>, ip: string, e: Event)
    requires Tracks(l, es, ip) && (es != [] ==> es[|es| - 1].now <= e.now)
    requires e.Request? ==> e.ip != ip
    ensures Verdicts(l, es + [e], ip) == Verdicts(l, es, ip) && Times(es + [e], ip) == Times(es, ip)
    ensures Tracks(l, es + [e], ip)
  {
    RunStep(l, es, e, ip);
    if es != [] && Times(es, ip) != [] {
      assert (es + [e])[|es|].now == e.now;
    }
  }

  /** The bucket that would have served `ip` at `now` had nothing been swept. */
  function Lone(l: Limits, es: seq<Event>, ip: string, now: real): Bucket {
    var ts := Times(es, ip);
    if ts == [] then Fresh(l, now) else After(l, Fresh(l, ts[0]), ts)
  }

  lemma FoundServesAsLone(l: Limits, es: seq<Event>, ip: string, now: real)
    requires RefillsWhileIdle(l)
    requires Tracks(l, es, ip) && (es != [] ==> es[|es| - 1].now <= now)
    ensures var found, lone := Found(l, Run(l, es), ip, now), Lone(l, es, ip, now);
            && Served(l, found, now) == Served(l, lone, now)
            && Admits(l, found, now) == Admits(l, lone, now)
            && 0.0 <= Served(l, lone, now).tokens
  {
    var lone := Lone(l, es, ip, now);
    if Times(es, ip) != [] && ip !in Run(l, es) {
      IdleIsFull(l, lone, now);
      FreshStaysFull(l, now, now);
    }
    InRange(l, lone, now);
  }

  lemma LoneRequest(l: Limits, es: seq<Event>, ip: string, now: real)
    requires RefillsWhileIdle(l)
    requires Tracks(l, es, ip) && (es != [] ==> es[|es| - 1].now <= now)
    requires Verdicts(l, es, ip) == LoneDecisions(l, Times(es, ip))
    ensures Verdicts(l, es + [Request(ip, now)], ip) == LoneDecisions(l, Times(es + [Request(ip, now)], ip))
    ensures Tracks(l, es + [Request(ip, now)], ip)
  {
    FoundServesAsLone(l, es, ip, now);
    RunStep(l, es, Request(ip, now), ip);
    LoneStep(l, Times(es, ip), now);
  }

  /** The exact admission rule holds for every IP of every run, whatever is swept. */
  lemma RuleHoldsInEveryRun(l: Limits, es: seq<Event>, ip: string, n: nat)
    requires InOrder(es) && n < |Times(es, ip)|
    requires RefillsWhileIdle(l)
    ensures Verdicts(l, es, ip)[n] <==> Fits(l, Times(es, ip), Verdicts(l, es, ip), n)
  {
    SweptRunIsLone(l, es, ip);
    ExactAdmissionRule(l, Times(es, ip), n);
  }

  /** As long as the clock does not go back, the decision is the one the exact rule prescribes. */
  ghost predicate FollowsRule(l: Limits, es: seq<Event>, ip: string, allowed: bool) {
    InOrder(es) && RefillsWhileIdle(l) ==> (allowed <==> FitsLast(l, es, ip))
  }

  lemma RequestStep(l: Limits, es: seq<Event>, ip: string, now: real, all: seq<Event>)
    requires all == es + [Request(ip, now)]
    ensures var found := Found(l, Run(l, es), ip, now);
            && Run(l, all) == Apply(l, Run(l, es), Request(ip, now))
            && Verdicts(l, all, ip) == Verdicts(l, es, ip) + [Admits(l, found, now)]
            && FollowsRule(l, all, ip, Admits(l, found, now))
  {
    RunStep(l, es, Request(ip, now), ip);
    if InOrder(all) && RefillsWhileIdle(l) {
      RuleHoldsInEveryRun(l, all, ip, |Times(es, ip)|);
    }
  }

  lemma {:induction false} TimesInOrder(es: seq<Event>, ip: string)
    requires InOrder(es)
    ensures Ordered(Times(es, ip))
    ensures Times(es, ip) != [] ==> Times(es, ip)[|Times(es, ip)| - 1] <= es[|es| - 1].now
  {
    if es == [] {
    } else {
      var init := es[..|es| - 1];
      TimesInOrder(init, ip);
      if init != [] {
        assert es[|init| - 1].now <= es[|init|].now;
      }
    }
  }

  /** No run notices the sweeps, and no window of any run exceeds its allowance. */
  lemma EveryRunIsBounded(l: Limits, es: seq<Event>, ip: string, i: nat, j: nat)
    requires InOrder(es) && i <= j < |Times(es, ip)|
    requires RefillsWhileIdle(l)
    ensures Verdicts(l, es, ip) == Verdicts(l, Unswept(es), ip)
    ensures Count(Verdicts(l, es, ip), i, j + 1) as real <= Allowance(l, Times(es, ip), i, j)
  {
    SweptRunIsLone(l, es, ip);
    UnsweptIsLone(l, es, ip);
    TimesInOrder(es, ip);
    WindowBound(l, Times(es, ip), i, j);
  }

  // ---- Ten minutes do not refill a bucket: eviction can be noticed ----

  /** Requests at one instant use up every whole token. */
  lemma {:induction false} Burst(l: Limits, b: Bucket) returns (ts: seq<real>)
    requires 0.0 <= b.tokens <= l.capacity
    ensures forall t | t in ts :: t == b.lastSeen
    ensures 0.0 <= After(l, b, ts).tokens < 1.0
    ensures After(l, b, ts).lastSeen == b.lastSeen
    decreases b.tokens.Floor
  {
    if b.tokens < 1.0 {
      ts := [];
    } else {
      var now := b.lastSeen;
      assert Served(l, b, now) == Bucket(b.tokens - 1.0, now);
      var rest := Burst(l, Served(l, b, now));
      ts := [now] + rest;
      Concat(l, b, [now], rest);
      assert [now][..0] == [];
    }
  }

  /** A run of requests that leaves a bucket empty, or, with no refill at all, without a whole token. */
  lemma Drain(l: Limits) returns (ts: seq<real>)
    requires l.rate >= 0.0 && l.capacity >= 1.0
    ensures ts != [] && Ordered(ts)
    ensures var b := After(l, Fresh(l, ts[0]), ts);
            && b.lastSeen == ts[|ts| - 1]
            && b.tokens < 1.0
            && (l.rate > 0.0 ==> b.tokens == 0.0)
  {
    var full := Fresh(l, 0.0);
    ts := Burst(l, full);
    assert ts != [];
    assert forall i | 0 <= i < |ts| :: ts[i] in ts;
    if l.rate > 0.0 {
      var b := After(l, full, ts);
      var wait := (1.0 - b.tokens) / l.rate;
      assert wait * l.rate == 1.0 - b.tokens;
      assert wait >= 0.0;
      assert Gain(l, 0.0, wait) == wait * l.rate;
      Snoc(l, full, ts, wait);
      ts := ts + [wait];
    }
  }

  /** A bucket with more tokens is told from one with fewer, by a request that only it admits. */
  lemma {:induction false} Distinguish(l: Limits, x: Bucket, y: Bucket) returns (ts: seq<real>)
    requires l.rate >= 0.0 && l.capacity >= 1.0
    requires x.lastSeen == y.lastSeen && x.tokens < y.tokens <= l.capacity
    requires l.rate > 0.0 || x.tokens < 1.0 <= y.tokens
    ensures ts != [] && Ordered(ts) && ts[0] >= y.lastSeen
    ensures var n := |ts| - 1;
            && Decisions(l, x, ts)[..n] == Decisions(l, y, ts)[..n]
            && !Decisions(l, x, ts)[n] && Decisions(l, y, ts)[n]
    decreases if y.tokens >= 1.0 then y.tokens.Floor else 0
  {
    var now := y.lastSeen;
    if y.tokens < 1.0 {
      var wait := (1.0 - y.tokens) / l.rate;
      assert wait * l.rate == 1.0 - y.tokens;
      assert wait >= 0.0;
      assert Gain(l, now, now + wait) == wait * l.rate;
      ts := [now + wait];
      assert ts[..0] == [];
    } else if x.tokens < 1.0 {
      ts := [now];
      assert ts[..0] == [];
    } else {
      var x', y' := Served(l, x, now), Served(l, y, now);
      assert x' == Bucket(x.tokens - 1.0, now) && y' == Bucket(y.tokens - 1.0, now);
      var rest := Distinguish(l, x', y');
      ts := [now] + rest;
      Concat(l, x, [now], rest);
      Concat(l, y, [now], rest);
      assert [now][..0] == [];
    }
  }

  /** An idle time over ten minutes that does not fill an empty bucket. */
  lemma IdleTime(l: Limits) returns (gap: real)
    requires l.rate >= 0.0 && 600.0 * l.rate < l.capacity
    ensures gap > 600.0 && gap * l.rate < l.capacity
  {
    if l.rate == 0.0 {
      gap := IDLE_LIMIT + 1.0;
    } else {
      var spare := (l.capacity - IDLE_LIMIT * l.rate) / (2.0 * l.rate);
      gap := IDLE_LIMIT + spare;
      assert spare * l.rate == (l.capacity - IDLE_LIMIT * l.rate) / 2.0;
      assert spare > 0.0;
      assert gap * l.rate == IDLE_LIMIT * l.rate + spare * l.rate;
    }
  }

  lemma IdleInstant(l: Limits, b: Bucket) returns (now: real)
    requires l.rate >= 0.0 && l.capacity >= 1.0 && 600.0 * l.rate < l.capacity
    requires b.tokens < 1.0 && (l.rate > 0.0 ==> b.tokens == 0.0)
    ensures Idle(b, now) && b.lastSeen <= now
    ensures Refilled(l, b, now) < l.capacity
    ensures l.rate == 0.0 ==> Refilled(l, b, now) < 1.0
  {
    var gap := IdleTime(l);
    now := b.lastSeen + gap;
    assert Gain(l, b.lastSeen, now) == gap * l.rate;
  }

  function Requests(ip: string, ts: seq<real>): (es: seq<Event>)
    ensures |es| == |ts| && forall i | 0 <= i < |ts| :: es[i] == Request(ip, ts[i])
  {
    seq(|ts|, i requires 0 <= i < |ts| => Request(ip, ts[i]))
  }

  /** `more` continues `es` with requests of `ip` at `ts`, served from the bucket `b`. */
  ghost predicate Continues(l: Limits, es: seq<Event>, more: seq<Event>, ip: string, b: Bucket, ts: seq<real>) {
    && Times(more, ip) == Times(es, ip) + ts
    && Verdicts(l, more, ip) == Verdicts(l, es, ip) + Decisions(l, b, ts)
    && ip in Run(l, more) && Run(l, more)[ip] == After(l, b, ts)
  }

  lemma ContinuesOn(l: Limits, es: seq<Event>, more: seq<Event>, ip: string, b: Bucket, ts: seq<real>, t: real)
    requires Continues(l, es, more, ip, b, ts)
    ensures Continues(l, es, more + [Request(ip, t)], ip, b, ts + [t])
  {
    RunStep(l, more, Request(ip, t), ip);
    Snoc(l, b, ts, t);
    Associative(Times(es, ip), ts, [t]);
    Associative(Verdicts(l, es, ip), Decisions(l, b, ts), [Admits(l, After(l, b, ts), t)]);
  }

  lemma Associative<T>(a: seq<T>, b: seq<T>, c: seq<T>)
    ensures (a + b) + c == a + (b + c)
  {
  }

  lemma ContinuesOnce(l: Limits, es: seq<Event>, ip: string, t: real)
    ensures Continues(l, es, es + [Request(ip, t)], ip, Found(l, Run(l, es), ip, t), [t])
  {
    var b := Found(l, Run(l, es), ip, t);
    RunStep(l, es, Request(ip, t), ip);
    Snoc(l, b, [], t);
    assert [] + [t] == [t];
    assert Decisions(l, b, [t]) == [Admits(l, b, t)];
  }

  /** More requests of one IP after any run. */
  lemma {:induction false} MoreRequests(l: Limits, es: seq<Event>, ip: string, ts: seq<real>)
    requires ts != []
    ensures Continues(l, es, es + Requests(ip, ts), ip, Found(l, Run(l, es), ip, ts[0]), ts)
  {
    var us, t := ts[..|ts| - 1], ts[|ts| - 1];
    var b := Found(l, Run(l, es), ip, ts[0]);
    if us == [] {
      assert es + Requests(ip, ts) == es + [Request(ip, t)];
      assert ts == [t];
      ContinuesOnce(l, es, ip, t);
    } else {
      MoreRequests(l, es, ip, us);
      assert es + Requests(ip, ts) == (es + Requests(ip, us)) + [Request(ip, t)];
      assert ts == us + [t];
      ContinuesOn(l, es, es + Requests(ip, us), ip, b, us, t);
    }
  }

  /** Requests, a sweep after ten idle minutes, and requests again. */
  function Interrupted(ip: string, ts: seq<real>, now: real, us: seq<real>): seq<Event> {
    Requests(ip, ts) + [Sweep(now)] + Requests(ip, us)
  }

  lemma InterruptedInOrder(ip: string, ts: seq<real>, now: real, us: seq<real>)
    requires Ordered(ts) && Ordered(us)
    requires ts != [] ==> ts[|ts| - 1] <= now
    requires us != [] ==> now <= us[0]
    ensures InOrder(Interrupted(ip, ts, now, us))
  {
    var es := Interrupted(ip, ts, now, us);
    forall i, j | 0 <= i <= j < |es|
      ensures es[i].now <= es[j].now
    {
      assert i < |ts| ==> es[i].now == ts[i] <= ts[|ts| - 1];
      assert j > |ts| ==> es[j].now == us[j - |ts| - 1] >= us[0];
    }
  }

  /** After the sweep the IP starts again with a full bucket. */
  lemma InterruptedVerdicts(l: Limits, ip: string, ts: seq<real>, now: real, us: seq<real>)
    requires ts != [] && us != [] && Idle(After(l, Fresh(l, ts[0]), ts), now)
    ensures Times(Interrupted(ip, ts, now, us), ip) == ts + us
    ensures Verdicts(l, Interrupted(ip, ts, now, us), ip)
            == Decisions(l, Fresh(l, ts[0]), ts) + Decisions(l, Fresh(l, us[0]), us)
  {
    var first := Requests(ip, ts);
    var swept := first + [Sweep(now)];
    MoreRequests(l, [], ip, ts);
    assert [] + first == first;
    assert Run(l, first)[ip] == After(l, Fresh(l, ts[0]), ts);
    var d := Decisions(l, Fresh(l, ts[0]), ts);
    assert [] + d == d;
    assert Verdicts(l, first, ip) == d;
    RunStep(l, first, Sweep(now), ip);
    assert ip !in Run(l, swept);
    assert Times(swept, ip) == ts;
    MoreRequests(l, swept, ip, us);
  }

  /**
   A run in which a sweep makes the limiter admit a request that it would
   otherwise refuse, after deciding every earlier request alike.
   */
  lemma SweepAdmitsMore(l: Limits) returns (es: seq<Event>, ip: string)
    requires l.rate >= 0.0 && l.capacity >= 1.0 && 600.0 * l.rate < l.capacity
    ensures InOrder(es) && Times(es, ip) != []
    ensures var n := |Times(es, ip)| - 1;
            && Verdicts(l, es, ip)[..n] == LoneDecisions(l, Times(es, ip))[..n]
            && Verdicts(l, es, ip)[n] && !LoneDecisions(l, Times(es, ip))[n]
  {
    ip := "";
    var ts := Drain(l);
    var b := After(l, Fresh(l, ts[0]), ts);
    var now, us := IdleThenMore(l, b);
    es := Interrupted(ip, ts, now, us);
    InterruptedInOrder(ip, ts, now, us);
    InterruptedVerdicts(l, ip, ts, now, us);
    Concat(l, Fresh(l, ts[0]), ts, us);
  }

  lemma IdleThenMore(l: Limits, b: Bucket) returns (now: real, ts: seq<real>)
    requires l.rate >= 0.0 && l.capacity >= 1.0 && 600.0 * l.rate < l.capacity
    requires b.tokens < 1.0 && (l.rate > 0.0 ==> b.tokens == 0.0)
    ensures Idle(b, now) && b.lastSeen <= now
    ensures ts != [] && Ordered(ts) && now <= ts[0]
    ensures var n := |ts| - 1;
            && Decisions(l, b, ts)[..n] == Decisions(l, Fresh(l, ts[0]), ts)[..n]
            && !Decisions(l, b, ts)[n] && Decisions(l, Fresh(l, ts[0]), ts)[n]
  {
    now := IdleInstant(l, b);
    var level := Refilled(l, b, now);
    ts := Distinguish(l, Bucket(level, now), Fresh(l, now));
    RefillTwice(l, b, now, ts[0]);
    SameStart(l, b, Bucket(level, now), ts);
    FreshStaysFull(l, now, ts[0]);
    FreshStaysFull(l, ts[0], ts[0]);
    SameStart(l, Fresh(l, ts[0]), Fresh(l, now), ts);
  }

  // ---- The exact conditions ----

  /** A bucket that cannot hold one token admits nothing. */
  lemma {:induction false} NothingAdmitted(l: Limits, es: seq<Event>, ip: string)
    requires l.capacity < 1.0
    ensures forall n | 0 <= n < |Verdicts(l, es, ip)| :: !Verdicts(l, es, ip)[n]
  {
    if es == [] {
    } else {
      NothingAdmitted(l, es[..|es| - 1], ip);
    }
  }

  /**
   Eviction is invisible in every run if and only if ten minutes refill a
   whole bucket (or no request is ever admitted at all).
   */
  lemma EvictionIsInvisibleIff(l: Limits)
    requires l.rate >= 0.0
    ensures EvictionIsInvisible(l) <==> l.capacity < 1.0 || 600.0 * l.rate >= l.capacity
  {
    if l.capacity < 1.0 || IDLE_LIMIT * l.rate >= l.capacity {
      forall es, ip | InOrder(es)
        ensures Verdicts(l, es, ip) == Verdicts(l, Unswept(es), ip)
      {
        UnsweptIsLone(l, es, ip);
        if l.capacity < 1.0 {
          NothingAdmitted(l, es, ip);
          NothingAdmitted(l, Unswept(es), ip);
        } else {
          SweptRunIsLone(l, es, ip);
        }
      }
    } else {
      var es, ip := SweepAdmitsMore(l);
      UnsweptIsLone(l, es, ip);
      assert Verdicts(l, es, ip) != Verdicts(l, Unswept(es), ip);
    }
  }

  /** The sliding-window bound holds in every run under exactly the same condition. */
  lemma WindowsAreBoundedIff(l: Limits)
    requires l.rate >= 0.0 && l.capacity >= 0.0
    ensures WindowsAreBounded(l) <==> l.capacity < 1.0 || 600.0 * l.rate >= l.capacity
  {
    if l.capacity < 1.0 || IDLE_LIMIT * l.rate >= l.capacity {
      forall es, ip, i: nat, j: nat | InOrder(es) && i <= j < |Times(es, ip)|
        ensures Count(Verdicts(l, es, ip), i, j + 1) as real <= Allowance(l, Times(es, ip), i, j)
      {
        if l.capacity < 1.0 {
          NothingAdmitted(l, es, ip);
          NoneCounted(Verdicts(l, es, ip), i, j + 1);
          TimesInOrder(es, ip);
          GainGrows(l, Times(es, ip)[i], Times(es, ip)[j]);
        } else {
          EveryRunIsBounded(l, es, ip, i, j);
        }
      }
    } else {
      var es, ip := SweepAdmitsMore(l);
      ExcessBreaksWindow(l, Times(es, ip), Verdicts(l, es, ip));
    }
  }

  /** Admitting one request more than the exact rule does exceeds some window's allowance. */
  lemma ExcessBreaksWindow(l: Limits, ts: seq<real>, v: seq<bool>)
    requires ts != [] && |v| == |ts|
    requires v[..|ts| - 1] == LoneDecisions(l, ts)[..|ts| - 1]
    requires v[|ts| - 1] && !LoneDecisions(l, ts)[|ts| - 1]
    ensures exists i: nat :: i < |ts| && Count(v, i, |ts|) as real > Allowance(l, ts, i, |ts| - 1)
  {
    var d, n := LoneDecisions(l, ts), |ts| - 1;
    ExactAdmissionRule(l, ts, n);
    var i: nat :| i <= n && (Count(d, i, n) + 1) as real > Allowance(l, ts, i, n);
    CountOfPrefix(v, d, i, n);
    assert Count(v, i, |ts|) == Count(d, i, n) + 1;
  }

  lemma {:induction false} NoneCounted(v: seq<bool>, i: nat, j: nat)
    requires i <= j <= |v| && forall n | 0 <= n < |v| :: !v[n]
    ensures Count(v, i, j) == 0
  {
    if i == j {
    } else {
      NoneCounted(v, i, j - 1);
    }
  }

  lemma {:induction false} CountOfPrefix(v: seq<bool>, d: seq<bool>, i: nat, n: nat)
    requires i <= n <= |v| && n <= |d| && v[..n] == d[..n]
    ensures Count(v, i, n) == Count(d, i, n)
  {
    if i == n {
    } else {
      assert v[n - 1] == v[..n][n - 1] == d[..n][n - 1] == d[n - 1];
      assert v[..n - 1] == v[..n][..n - 1] == d[..n][..n - 1] == d[..n - 1];
      CountOfPrefix(v, d, i, n - 1);
    }
  }

  /**
   In every run the limiter admits, up to any point, at least as many requests
   of an IP as any selection of them that respects every window.  No assumption is
   made on the rate, the capacity, the clock or the sweeps.
   */
  lemma LimiterIsOptimal(l: Limits, es: seq<Event>, ip: string, sel: seq<bool>, n: nat)
    requires n <= |Times(es, ip)| && Conforms(l, Times(es, ip), sel)
    ensures Count(sel, 0, n) <= Count(Verdicts(l, es, ip), 0, n)
  {
    var start := UpTo(l, es, ip, n);
    LeadIsKept(l, start, ip, Times(es, ip), sel);
    CountOfPrefix(Verdicts(l, es, ip), Verdicts(l, start, ip), 0, n);
  }

  /** The part of a run that ends with the n-th request of an IP. */
  lemma {:induction false} UpTo(l: Limits, es: seq<Event>, ip: string, n: nat) returns (start: seq<Event>)
    requires n <= |Times(es, ip)|
    ensures Times(start, ip) == Times(es, ip)[..n]
    ensures Verdicts(l, start, ip) == Verdicts(l, es, ip)[..n]
  {
    if n == |Times(es, ip)| {
      start := es;
    } else {
      start := UpTo(l, es[..|es| - 1], ip, n);
    }
  }

  /**
   The lead that the limiter has in admitted requests pays for whatever the
   selection has saved up; a deleted bucket comes back full, and saves more than
   any selection can.
   */
  ghost predicate LeadsBy(m: Buckets, ip: string, v: seq<bool>, sel: seq<bool>, last: real, saved: real)
    requires |v| <= |sel|
  {
    var lead := Count(v, 0, |v|) - Count(sel, 0, |v|);
    && 0 <= lead
    && (ip in m ==> 0 < |v| && m[ip].lastSeen == last && saved - m[ip].tokens <= lead as real)
  }

  ghost predicate Leads(l: Limits, es: seq<Event>, ip: string, ts: seq<real>, sel: seq<bool>)
    requires |Times(es, ip)| <= |ts| == |sel|
  {
    var n := |Times(es, ip)|;
    LeadsBy(Run(l, es), ip, Verdicts(l, es, ip), sel,
            if n == 0 then 0.0 else ts[n - 1], if n == 0 then 0.0 else Saved(l, ts, sel, n - 1))
  }

  /** What the selection is left with after request `n`. */
  function Saved(l: Limits, ts: seq<real>, sel: seq<bool>, n: nat): real
    requires n < |ts| == |sel|
  {
    Level(l, ts, sel, n) - (if sel[n] then 1.0 else 0.0)
  }

  lemma {:induction false} LeadIsKept(l: Limits, es: seq<Event>, ip: string, ts: seq<real>, sel: seq<bool>)
    requires Times(es, ip) <= ts && Conforms(l, ts, sel)
    ensures Leads(l, es, ip, ts, sel)
  {
    if es == [] {
    } else {
      var init, e := es[..|es| - 1], es[|es| - 1];
      LeadIsKept(l, init, ip, ts, sel);
      if e.Request? && e.ip == ip {
        LeadAfterRequest(l, init, ip, e.now, ts, sel);
        assert es == init + [e];
      }
    }
  }

  /** What the n-th request finds in its bucket is, up to the lead, what it would find for the selection. */
  lemma LeadWhenFound(l: Limits, es: seq<Event>, ip: string, now: real, ts: seq<real>, sel: seq<bool>)
    requires |Times(es, ip)| < |ts| == |sel| && ts[|Times(es, ip)|] == now && Leads(l, es, ip, ts, sel)
    ensures var n := |Times(es, ip)|;
            Level(l, ts, sel, n) - Refilled(l, Found(l, Run(l, es), ip, now), now)
            <= (Count(Verdicts(l, es, ip), 0, n) - Count(sel, 0, n)) as real
  {
    assert Gain(l, now, now) == 0.0;
  }

  /** A request that only the selection admits costs a lead that there is, because it alone found a token. */
  lemma LeadArithmetic(lead: int, level: real, refilled: real, chosen: bool, next: int)
    requires 0 <= lead && level - refilled <= lead as real && (chosen ==> level >= 1.0)
    requires next == lead + (if refilled >= 1.0 then 1 else 0) - (if chosen then 1 else 0)
    ensures 0 <= next
    ensures (level - if chosen then 1.0 else 0.0) - (refilled - if refilled >= 1.0 then 1.0 else 0.0) <= next as real
  {
  }

  lemma CountOneMore(v: seq<bool>, x: bool)
    ensures Count(v + [x], 0, |v| + 1) == Count(v, 0, |v|) + (if x then 1 else 0)
  {
    CountOfPrefix(v + [x], v, 0, |v|);
  }

  lemma LeadStep(m: Buckets, ip: string, v: seq<bool>, sel: seq<bool>, now: real, refilled: real, level: real)
    requires |v| < |sel| && (sel[|v|] ==> level >= 1.0)
    requires 0 <= Count(v, 0, |v|) - Count(sel, 0, |v|)
    requires level - refilled <= (Count(v, 0, |v|) - Count(sel, 0, |v|)) as real
    ensures LeadsBy(m[ip := Bucket(refilled - (if refilled >= 1.0 then 1.0 else 0.0), now)], ip,
                    v + [refilled >= 1.0], sel, now, level - (if sel[|v|] then 1.0 else 0.0))
  {
    var lead := Count(v, 0, |v|) - Count(sel, 0, |v|);
    var next := Count(v + [refilled >= 1.0], 0, |v| + 1) - Count(sel, 0, |v| + 1);
    CountOneMore(v, refilled >= 1.0);
    LeadArithmetic(lead, level, refilled, sel[|v|], next);
  }

  lemma ServedIs(l: Limits, b: Bucket, now: real)
    ensures Served(l, b, now)
            == Bucket(Refilled(l, b, now) - (if Refilled(l, b, now) >= 1.0 then 1.0 else 0.0), now)
    ensures Admits(l, b, now) == (Refilled(l, b, now) >= 1.0)
  {
  }

  lemma LeadAfterRequest(l: Limits, es: seq<Event>, ip: string, now: real, ts: seq<real>, sel: seq<bool>)
    requires Times(es, ip) + [now] <= ts && Conforms(l, ts, sel) && Leads(l, es, ip, ts, sel)
    ensures |Times(es + [Request(ip, now)], ip)| <= |ts| && Leads(l, es + [Request(ip, now)], ip, ts, sel)
  {
    var n, found := |Times(es, ip)|, Found(l, Run(l, es), ip, now);
    assert (Times(es, ip) + [now])[n] == now;
    RunStep(l, es, Request(ip, now), ip);
    LeadWhenFound(l, es, ip, now, ts, sel);
    LevelDecidesFit(l, ts, sel, n);
    LeadStep(Run(l, es), ip, Verdicts(l, es, ip), sel, now, Refilled(l, found, now), Level(l, ts, sel, n));
    ServedIs(l, found, now);
  }

  /** The deployed limiter: one token a second, bursts of thirty. */
  lemma DeployedLimiter(l: Limits, es: seq<Event>, ip: string, i: nat, j: nat)
    requires l == Limits(1.0, 30.0)
    requires InOrder(es) && i <= j < |Times(es, ip)|
    ensures Verdicts(l, es, ip) == Verdicts(l, Unswept(es), ip)
    ensures Count(Verdicts(l, es, ip), i, j + 1) as real <= 30.0 + (Times(es, ip)[j] - Times(es, ip)[i])
  {
    EveryRunIsBounded(l, es, ip, i, j);
  }
}
