/**
 The limiter as the service runs it: a map from IP to a bucket object that
 `Allow` updates in place and `Sweep` removes from.
 */
module Limiter {
  import opened TokenBucket
  import opened LimiterRuns
  import opened Eviction

  class IpBucket {
    var tokens: real
    var lastSeen: real

    constructor (tokens: real, lastSeen: real)
      ensures this.tokens == tokens && this.lastSeen == lastSeen
    {
      this.tokens := tokens;
      this.lastSeen := lastSeen;
    }

    function Value(): Bucket
      reads this
    {
      Bucket(tokens, lastSeen)
    }

    /** Refill from the elapsed time and spend one token if there is one. */
    method Take(l: Limits, now: real) returns (allowed: bool)
      modifies this
      ensures Value() == Served(l, old(Value()), now)
      ensures allowed == Admits(l, old(Value()), now)
      ensures var accrued := old(tokens) + (now - old(lastSeen)) * l.rate;
              var found := if accrued > l.capacity then l.capacity else accrued;
              && (allowed <==> found >= 1.0)
              && tokens == (if allowed then found - 1.0 else found)
              && lastSeen == now
    {
      GainIs(l, lastSeen, now);
      tokens := Min(l.capacity, tokens + Gain(l, lastSeen, now));
      lastSeen := now;
      if tokens < 1.0 {
        return false;
      }
      tokens := tokens - 1.0;
      return true;
    }
  }

  class RateLimiter {
    const limits: Limits
    var buckets: map<string, IpBucket>

    /** Everything that has happened to this limiter. */
    ghost var events: seq<Event>

    ghost function Contents(): Buckets
      reads this`buckets, buckets.Values
    {
      map ip | ip in buckets :: buckets[ip].Value()
    }

    /** No two IPs share a bucket, and the buckets are those of the run so far. */
    ghost predicate Valid()
      reads this, buckets.Values
    {
      && Separate()
      && Contents() == Run(limits, events)
    }

    constructor (rate: real, capacity: real)
      ensures Valid() && fresh(buckets.Values)
      ensures limits == Limits(rate, capacity) && events == []
    {
      limits := Limits(rate, capacity);
      buckets := map[];
      events := [];
    }

    ghost predicate Separate()
      reads this`buckets
    {
      forall a, b | a in buckets && b in buckets && a != b :: buckets[a] != buckets[b]
    }

    /** The bucket of `ip`; an IP without one gets a full bucket. */
    method BucketFor(ip: string, now: real) returns (b: IpBucket)
      requires Separate()
      modifies this`buckets
      ensures Separate() && fresh(buckets.Values - old(buckets.Values))
      ensures ip in buckets && buckets[ip] == b
      ensures b.Value() == Found(limits, old(Contents()), ip, now)
      ensures Contents() == old(Contents())[ip := Found(limits, old(Contents()), ip, now)]
    {
      if ip in buckets {
        b := buckets[ip];
      } else {
        b := new IpBucket(limits.capacity, now);
        buckets := buckets[ip := b];
      }
    }

    /** Charge one request to the bucket of `ip`. */
    method Charge(ip: string, now: real) returns (allowed: bool)
      requires Separate()
      modifies this`buckets, buckets.Values
      ensures Separate() && fresh(buckets.Values - old(buckets.Values))
      ensures Contents() == Apply(limits, old(Contents()), Request(ip, now))
      ensures allowed == Admits(limits, Found(limits, old(Contents()), ip, now), now)
    {
      var b := BucketFor(ip, now);
      ghost var found := Contents();
      allowed := b.Take(limits, now);
      forall other | other in buckets
        ensures Contents()[other] == found[ip := b.Value()][other]
      {
        if other != ip {
          assert buckets[other] != b;
        }
      }
      assert Contents() == found[ip := b.Value()];
    }

    /** Delete the buckets that have been idle for more than ten minutes. */
    method Evict(now: real)
      modifies this`buckets
      ensures forall ip :: ip in buckets <==> ip in old(buckets) && old(buckets)[ip].lastSeen >= now - 600.0
      ensures forall ip | ip in buckets :: buckets[ip] == old(buckets)[ip]
    {
      var cutoff := now - IDLE_LIMIT;
      var pending := buckets.Keys;
      while pending != {}
        invariant pending <= buckets.Keys <= old(buckets).Keys
        invariant forall ip | ip in buckets :: buckets[ip] == old(buckets)[ip]
        invariant forall ip | ip in old(buckets).Keys - pending ::
                    ip in buckets <==> !(old(buckets)[ip].lastSeen < cutoff)
        decreases pending
      {
        var ip :| ip in pending;
        pending := pending - {ip};
        if buckets[ip].lastSeen < cutoff {
          buckets := buckets - {ip};
        }
      }
    }

    method Allow(ip: string, now: real) returns (allowed: bool)
      requires Valid()
      modifies this, buckets.Values
      ensures Valid() && fresh(buckets.Values - old(buckets.Values))
      ensures events == old(events) + [Request(ip, now)]
      ensures Verdicts(limits, events, ip) == Verdicts(limits, old(events), ip) + [allowed]
      ensures FollowsRule(limits, events, ip, allowed)
    {
      ghost var es := events + [Request(ip, now)];
      RequestStep(limits, events, ip, now, es);
      allowed := Charge(ip, now);
      assert Contents() == Run(limits, es);
      events := es;
    }

    method Sweep(now: real)
      requires Valid()
      modifies this
      ensures Valid() && buckets.Values <= old(buckets.Values)
      ensures events == old(events) + [LimiterRuns.Sweep(now)]
      ensures forall ip :: ip in buckets <==> ip in old(buckets) && old(buckets)[ip].lastSeen >= now - 600.0
      ensures forall ip | ip in buckets :: buckets[ip] == old(buckets)[ip] && unchanged(buckets[ip])
    {
      RunStep(limits, events, LimiterRuns.Sweep(now), "");
      Evict(now);
      assert Contents() == Swept(old(Contents()), now);
      events := events + [LimiterRuns.Sweep(now)];
    }
  }
}
