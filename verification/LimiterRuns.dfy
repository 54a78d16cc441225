/**
 Runs of the per-IP limiter: requests of any IPs interleaved with clean-up
 sweeps.  Events carry the instant the limiter reads from its clock while it
 holds the mutex.
 */
module LimiterRuns {
  import opened TokenBucket

  type Buckets = map<string, Bucket>

  datatype Event = Request(ip: string, now: real) | Sweep(now: real)

  /** Ten minutes, in seconds; the statements about sweeps write the number out. */
  const IDLE_LIMIT := 600.0

  function Found(l: Limits, m: Buckets, ip: string, now: real): Bucket {
    if ip in m then m[ip] else Fresh(l, now)
  }

  predicate Idle(b: Bucket, now: real) {
    b.lastSeen < now - IDLE_LIMIT
  }

  function Swept(m: Buckets, now: real): Buckets {
    map ip | ip in m && !Idle(m[ip], now) :: m[ip]
  }

  function Apply(l: Limits, m: Buckets, e: Event): Buckets {
    match e
    case Request(ip, now) => m[ip := Served(l, Found(l, m, ip, now), now)]
    case Sweep(now) => Swept(m, now)
  }

  /** The buckets after a whole run. */
  function Run(l: Limits, es: seq<Event>): Buckets {
    if es == [] then map[] else Apply(l, Run(l, es[..|es| - 1]), es[|es| - 1])
  }

  /** The instants at which `ip` made its requests. */
  function Times(es: seq<Event>, ip: string): seq<real> {
    if es == [] then []
    else
      var before := Times(es[..|es| - 1], ip);
      var e := es[|es| - 1];
      if e.Request? && e.ip == ip then before + [e.now] else before
  }

  /** The decisions those requests received in the run. */
  function Verdicts(l: Limits, es: seq<Event>, ip: string): (r: seq<bool>)
    ensures |r| == |Times(es, ip)|
  {
    if es == [] then []
    else
      var before := Verdicts(l, es[..|es| - 1], ip);
      var e := es[|es| - 1];
      if e.Request? && e.ip == ip
      then before + [Admits(l, Found(l, Run(l, es[..|es| - 1]), ip, e.now), e.now)]
      else before
  }

  /** Clock readings never go back. */
  ghost predicate InOrder(es: seq<Event>) {
    forall i, j | 0 <= i <= j < |es| :: es[i].now <= es[j].now
  }

  /** The run without its sweeps. */
  function Unswept(es: seq<Event>): seq<Event> {
    if es == [] then []
    else
      var before, e := Unswept(es[..|es| - 1]), es[|es| - 1];
      if e.Sweep? then before else before + [e]
  }

  /** The run as `ip` sees it: its own requests and all sweeps. */
  function Projected(es: seq<Event>, ip: string): seq<Event> {
    if es == [] then []
    else
      var before, e := Projected(es[..|es| - 1], ip), es[|es| - 1];
      if e.Request? && e.ip != ip then before else before + [e]
  }

  // ---- One more event ----

  lemma RunStep(l: Limits, es: seq<Event>, e: Event, ip: string)
    ensures Run(l, es + [e]) == Apply(l, Run(l, es), e)
    ensures Times(es + [e], ip) == if e.Request? && e.ip == ip then Times(es, ip) + [e.now] else Times(es, ip)
    ensures Verdicts(l, es + [e], ip)
            == if e.Request? && e.ip == ip
               then Verdicts(l, es, ip) + [Admits(l, Found(l, Run(l, es), ip, e.now), e.now)]
               else Verdicts(l, es, ip)
  {
    assert (es + [e])[..|es + [e]| - 1] == es;
  }

  lemma LoneStep(l: Limits, ts: seq<real>, now: real)
    ensures LoneDecisions(l, ts + [now]) == LoneDecisions(l, ts)
            + [if ts == [] then Admits(l, Fresh(l, now), now) else Admits(l, After(l, Fresh(l, ts[0]), ts), now)]
    ensures ts != [] ==> After(l, Fresh(l, ts[0]), ts + [now]) == Served(l, After(l, Fresh(l, ts[0]), ts), now)
    ensures ts == [] ==> After(l, Fresh(l, now), ts + [now]) == Served(l, Fresh(l, now), now)
  {
    assert (ts + [now])[..|ts + [now]| - 1] == ts;
  }

  // ---- Independence of the IPs ----

  /**
   The decisions for one IP depend on nothing but that IP's requests and the
   sweeps, whatever the other IPs do in between and whatever the clock does.
   */
  lemma {:induction false} IpsAreIndependent(l: Limits, es: seq<Event>, ip: string)
    ensures Verdicts(l, es, ip) == Verdicts(l, Projected(es, ip), ip)
    ensures Times(es, ip) == Times(Projected(es, ip), ip)
    ensures ip in Run(l, es) <==> ip in Run(l, Projected(es, ip))
    ensures ip in Run(l, es) ==> Run(l, es)[ip] == Run(l, Projected(es, ip))[ip]
    ensures forall e | e in Projected(es, ip) :: e.Sweep? || e.ip == ip
  {
    if es == [] {
    } else {
      var init, e := es[..|es| - 1], es[|es| - 1];
      IpsAreIndependent(l, init, ip);
      assert es == init + [e];
      RunStep(l, init, e, ip);
      if !(e.Request? && e.ip != ip) {
        RunStep(l, Projected(init, ip), e, ip);
      }
    }
  }

  /** Without sweeps an IP is decided by one bucket that lives for ever. */
  lemma {:induction false} UnsweptIsLone(l: Limits, es: seq<Event>, ip: string)
    ensures var ts := Times(es, ip);
            Times(Unswept(es), ip) == ts && Verdicts(l, Unswept(es), ip) == LoneDecisions(l, ts)
            && (ip in Run(l, Unswept(es)) <==> ts != [])
            && (ts != [] ==> Run(l, Unswept(es))[ip] == After(l, Fresh(l, ts[0]), ts))
  {
    if es == [] {
    } else {
      var init, e := es[..|es| - 1], es[|es| - 1];
      UnsweptIsLone(l, init, ip);
      assert es == init + [e];
      RunStep(l, init, e, ip);
      if e.Request? {
        RunStep(l, Unswept(init), e, ip);
        LoneStep(l, Times(init, ip), e.now);
      }
    }
  }

  // ---- What the map holds ----

  ghost predicate Called(es: seq<Event>, ip: string, since: real) {
    exists k :: 0 <= k < |es| && es[k].Request? && es[k].ip == ip && es[k].now >= since
  }

  /** Every bucket is within range and remembers its IP's latest call. */
  lemma {:induction false} BucketsInRange(l: Limits, es: seq<Event>, ip: string)
    requires l.rate >= 0.0 && l.capacity >= 0.0 && InOrder(es)
    ensures ip in Run(l, es) ==>
            var b := Run(l, es)[ip];
            0.0 <= b.tokens <= l.capacity && b.lastSeen <= es[|es| - 1].now
  {
    if es == [] {
    } else {
      var init, e := es[..|es| - 1], es[|es| - 1];
      BucketsInRange(l, init, ip);
      if init != [] {
        assert init[|init| - 1].now <= e.now;
      }
      if e.Request? && e.ip == ip {
        InRange(l, Found(l, Run(l, init), ip, e.now), e.now);
      }
    }
  }

  lemma {:induction false} Remembered(l: Limits, es: seq<Event>, ip: string)
    requires InOrder(es)
    ensures ip in Run(l, es) ==> Called(es, ip, Run(l, es)[ip].lastSeen)
    ensures ip in Run(l, es) ==>
            forall k | 0 <= k < |es| && es[k].Request? && es[k].ip == ip :: es[k].now <= Run(l, es)[ip].lastSeen
    ensures es != [] && ip !in Run(l, es) ==> !Called(es, ip, es[|es| - 1].now - 600.0)
  {
    if es == [] {
    } else {
      var init, e := es[..|es| - 1], es[|es| - 1];
      Remembered(l, init, ip);
      assert forall k | 0 <= k < |init| :: es[k] == init[k];
      if e.Request? && e.ip == ip {
        assert es[|es| - 1].now >= Run(l, es)[ip].lastSeen;
      } else if ip in Run(l, init) {
        var k :| 0 <= k < |init| && init[k].Request? && init[k].ip == ip && init[k].now >= Run(l, init)[ip].lastSeen;
        assert es[k].Request?;
      } else if init != [] {
        assert es[|init| - 1].now <= e.now;
      }
    }
  }

  /**
   Right after a sweep the map holds exactly the IPs that called, admitted or
   refused, within the last ten minutes.
   */
  lemma SweepKeepsRecentCallers(l: Limits, es: seq<Event>, now: real)
    requires InOrder(es + [Sweep(now)])
    ensures forall ip :: ip in Run(l, es + [Sweep(now)]) <==> Called(es, ip, now - 600.0)
  {
    var all := es + [Sweep(now)];
    RunStep(l, es, Sweep(now), "");
    assert forall k | 0 <= k < |es| :: all[k] == es[k];
    forall ip
      ensures ip in Run(l, all) <==> Called(es, ip, now - 600.0)
    {
      assert InOrder(es) by {
        assert forall i, j | 0 <= i <= j < |es| :: all[i].now <= all[j].now;
      }
      Remembered(l, es, ip);
      if ip !in Run(l, es) && es != [] {
        assert all[|es| - 1].now <= all[|es|].now;
      }
    }
  }
}
