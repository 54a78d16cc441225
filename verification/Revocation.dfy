/**
 Revoked token identifiers, pruned once the token has expired anyway, and the
 authentication decision that consults them.
 */
module Revocation {
  import opened Wrappers

  /** A token whose signature has been verified; `jti` is "" when the claim is absent or not a string. */
  datatype Token = Token(exp: Option<real>, jti: string)

  datatype Credential = NoBearer | Unverifiable | Verified(token: Token)

  datatype Decision = Unauthorised | InvalidToken | TokenExpired | TokenRevoked | Accepted

  /**
   What happens to the store, in the order of its lock.  A check carries the
   instant at which the token was parsed, which is read before the lookup.
   */
  datatype Event =
    | Revoke(jti: string, expiry: real)
    | Prune(now: real)
    | Check(token: Token, parsedAt: real)

  type Items = map<string, real>

  /** Section 4.1.4 of RFC 7519: a token must not be accepted on or after its `exp`. */
  predicate Expired(t: Token, now: real) {
    t.exp.Some? && t.exp.value <= now
  }

  function DecideToken(items: Items, t: Token, parsedAt: real): Decision {
    if Expired(t, parsedAt) then TokenExpired
    else if t.jti != "" && t.jti in items then TokenRevoked
    else Accepted
  }

  /** The decision for one request; `items` is None when no store is configured. */
  function Decide(items: Option<Items>, c: Credential, parsedAt: real): Decision {
    match c
    case NoBearer => Unauthorised
    case Unverifiable => InvalidToken
    case Verified(t) => DecideToken(if items.Some? then items.value else map[], t, parsedAt)
  }

  function Unexpired(items: Items, now: real): Items {
    map jti | jti in items && !(now > items[jti]) :: items[jti]
  }

  /** The store after a run. */
  function Pruned(es: seq<Event>): Items {
    if es == [] then map[]
    else
      var before := Pruned(es[..|es| - 1]);
      match es[|es| - 1]
      case Revoke(jti, expiry) => before[jti := expiry]
      case Prune(now) => Unexpired(before, now)
      case Check(_, _) => before
  }

  /** The store of a service that never prunes. */
  function Kept(es: seq<Event>): Items {
    if es == [] then map[]
    else
      var before := Kept(es[..|es| - 1]);
      match es[|es| - 1]
      case Revoke(jti, expiry) => before[jti := expiry]
      case Prune(_) => before
      case Check(_, _) => before
  }

  predicate Revokes(e: Event, jti: string) {
    e.Revoke? && e.jti == jti
  }

  ghost predicate LastRevoke(es: seq<Event>, jti: string, r: nat) {
    r < |es| && Revokes(es[r], jti) && forall k | r < k < |es| :: !Revokes(es[k], jti)
  }

  /** A clean-up has run past the expiry given in the latest revocation of `jti`. */
  ghost predicate Lost(es: seq<Event>, jti: string) {
    exists r: nat, s: nat :: LastRevoke(es, jti, r) && r < s < |es| && es[s].Prune? && es[s].now > es[r].expiry
  }

  /** What each store holds, told from the run alone. */
  lemma {:induction false} StoresHold(es: seq<Event>, jti: string)
    ensures jti in Kept(es) <==> exists r: nat :: LastRevoke(es, jti, r)
    ensures forall r: nat | LastRevoke(es, jti, r) :: jti in Kept(es) && Kept(es)[jti] == es[r].expiry
    ensures jti in Pruned(es) <==> jti in Kept(es) && !Lost(es, jti)
    ensures jti in Pruned(es) ==> Pruned(es)[jti] == Kept(es)[jti]
  {
    if es == [] {
    } else {
      var init, e := es[..|es| - 1], es[|es| - 1];
      StoresHold(init, jti);
      LostStep(init, e, jti);
      assert es == init + [e];
      if Revokes(e, jti) {
        assert LastRevoke(es, jti, |init|);
      } else if jti in Kept(init) {
        var r: nat :| LastRevoke(init, jti, r);
        assert LastRevoke(es, jti, r);
      }
    }
  }

  lemma LostStep(es: seq<Event>, e: Event, jti: string)
    ensures forall r: nat :: (LastRevoke(es + [e], jti, r) <==>
                              if Revokes(e, jti) then r == |es| else LastRevoke(es, jti, r))
    ensures Lost(es + [e], jti)
            <==> !Revokes(e, jti) &&
                 (Lost(es, jti) || (e.Prune? && exists r: nat :: LastRevoke(es, jti, r) && e.now > es[r].expiry))
  {
    var all := es + [e];
    assert all[|es|] == e;
    assert forall k | 0 <= k < |es| :: all[k] == es[k];
    forall r: nat
      ensures LastRevoke(all, jti, r) <==> if Revokes(e, jti) then r == |es| else LastRevoke(es, jti, r)
    {
      if LastRevoke(all, jti, r) && r < |es| {
        assert !Revokes(all[|es|], jti);
        assert forall k | r < k < |es| :: all[k] == es[k];
      }
    }
    if !Revokes(e, jti) {
      if Lost(es, jti) {
        var r: nat, s: nat :| LastRevoke(es, jti, r) && r < s < |es| && es[s].Prune? && es[s].now > es[r].expiry;
        assert LastRevoke(all, jti, r) && all[s].Prune? && all[s].now > all[r].expiry;
      }
      if e.Prune? && exists r: nat :: LastRevoke(es, jti, r) && e.now > es[r].expiry {
        var r: nat :| LastRevoke(es, jti, r) && e.now > es[r].expiry;
        assert LastRevoke(all, jti, r) && all[|es|].Prune? && all[|es|].now > all[r].expiry;
      }
    }
  }

  /**
   Exactly when pruning shows: the token was unexpired when it was parsed, yet
   a clean-up has already run past the expiry its revocation was filed under.
   */
  lemma {:induction false} PruningShowsIff(es: seq<Event>, t: Token, parsedAt: real)
    ensures DecideToken(Pruned(es), t, parsedAt) != DecideToken(Kept(es), t, parsedAt)
            <==> !Expired(t, parsedAt) && t.jti != "" && Lost(es, t.jti)
    ensures DecideToken(Pruned(es), t, parsedAt) != DecideToken(Kept(es), t, parsedAt)
            ==> DecideToken(Pruned(es), t, parsedAt) == Accepted && DecideToken(Kept(es), t, parsedAt) == TokenRevoked
  {
    StoresHold(es, t.jti);
  }

  /** Every token that has an identifier is revoked under its own expiry. */
  ghost predicate OwnExpiry(es: seq<Event>) {
    forall i, j | 0 <= i < |es| && 0 <= j < |es| && es[i].Revoke? && es[j].Check?
                  && es[j].token.jti == es[i].jti != "" ::
      es[j].token.exp == Some(es[i].expiry)
  }

  /** No check parsed its token before a clean-up that preceded its lookup read the clock. */
  ghost predicate Timely(es: seq<Event>) {
    forall i, j | 0 <= i < j < |es| && es[i].Prune? && es[j].Check? :: es[i].now <= es[j].parsedAt
  }

  /** The decisions of the checks of a run, under either store. */
  function Outcomes(es: seq<Event>, pruning: bool): seq<Decision> {
    if es == [] then []
    else
      var init, e := es[..|es| - 1], es[|es| - 1];
      if e.Check?
      then Outcomes(init, pruning)
           + [DecideToken(if pruning then Pruned(init) else Kept(init), e.token, e.parsedAt)]
      else Outcomes(init, pruning)
  }

  /** No clean-up before check `j` has removed a revocation that the check would still have to find. */
  ghost predicate Unharmed(es: seq<Event>, j: nat)
    requires j < |es| && es[j].Check?
  {
    var t := es[j].token;
    Expired(t, es[j].parsedAt) || t.jti == "" || !Lost(es[..j], t.jti)
  }

  /** Pruning cannot be noticed in a whole run exactly when no check of it is harmed. */
  lemma {:induction false} PruningIsInvisibleIff(es: seq<Event>)
    ensures Outcomes(es, true) == Outcomes(es, false)
            <==> forall j: nat | j < |es| && es[j].Check? :: Unharmed(es, j)
  {
    if es == [] {
    } else {
      var n := |es| - 1;
      var init, e := es[..n], es[n];
      PruningIsInvisibleIff(init);
      assert forall j: nat | j < n :: init[j] == es[j] && init[..j] == es[..j];
      assert forall j: nat | j < n && es[j].Check? :: Unharmed(init, j) <==> Unharmed(es, j);
      SameLength(init);
      if e.Check? {
        PruningShowsIff(init, e.token, e.parsedAt);
        var kept, pruned := Outcomes(init, false), Outcomes(init, true);
        var d, d' := DecideToken(Kept(init), e.token, e.parsedAt), DecideToken(Pruned(init), e.token, e.parsedAt);
        assert (pruned + [d'] == kept + [d]) <==> pruned == kept && d' == d by {
          assert (pruned + [d'])[..|pruned|] == pruned && (kept + [d])[..|kept|] == kept;
          assert (pruned + [d'])[|pruned|] == d' && (kept + [d])[|kept|] == d;
        }
      }
    }
  }

  lemma {:induction false} SameLength(es: seq<Event>)
    ensures |Outcomes(es, true)| == |Outcomes(es, false)|
  {
    if es == [] {
    } else {
      SameLength(es[..|es| - 1]);
    }
  }

  /** So it is when tokens are revoked under their own expiry and no clean-up overtakes a check. */
  lemma PruningIsInvisible(es: seq<Event>)
    requires OwnExpiry(es) && Timely(es)
    ensures Outcomes(es, true) == Outcomes(es, false)
  {
    PruningIsInvisibleIff(es);
    forall j: nat | j < |es| && es[j].Check?
      ensures Unharmed(es, j)
    {
      var before, t := es[..j], es[j].token;
      if t.jti != "" && Lost(before, t.jti) {
        var r: nat, s: nat :| LastRevoke(before, t.jti, r) && r < s < j
                              && before[s].Prune? && before[s].now > before[r].expiry;
        assert es[r] == before[r] && es[s] == before[s];
        assert t.exp == Some(es[r].expiry);
      }
    }
  }

  /**
   A token that expires between its parsing and its lookup, with a clean-up in
   between, is accepted although it was revoked.
   */
  lemma ExpiryDuringCheckShows()
    ensures var es := [Revoke("a", 10.0), Prune(11.0), Check(Token(Some(10.0), "a"), 9.0)];
            && OwnExpiry(es) && !Timely(es)
            && Outcomes(es, true) == [Accepted] && Outcomes(es, false) == [TokenRevoked]
  {
    var e0, e1, e2 := Revoke("a", 10.0), Prune(11.0), Check(Token(Some(10.0), "a"), 9.0);
    var es := [e0, e1, e2];
    assert es[..2] == [e0, e1] && [e0, e1][..1] == [e0] && [e0][..0] == [];
    assert es[1].Prune? && es[2].Check?;
    assert Kept([e0]) == map["a" := 10.0] == Pruned([e0]);
    assert Kept([e0, e1]) == map["a" := 10.0];
    assert Pruned([e0, e1]) == map[];
    assert Outcomes([e0], true) == Outcomes([e0], false) == [];
  }

  /**
   Right after a clean-up the store holds exactly the revocations that have not
   expired: it stays bounded by them.
   */
  lemma {:induction false} PruneKeepsUnexpired(es: seq<Event>, now: real, jti: string)
    requires forall i | 0 <= i < |es| && es[i].Prune? :: es[i].now <= now
    ensures jti in Pruned(es + [Prune(now)]) <==> jti in Kept(es) && Kept(es)[jti] >= now
  {
    assert (es + [Prune(now)])[..|es + [Prune(now)]| - 1] == es;
    StoresHold(es, jti);
  }

  class RevocationStore {
    var items: Items

    /** Everything that has been done to this store. */
    ghost var events: seq<Event>

    ghost predicate Valid()
      reads this
    {
      items == Pruned(events)
    }

    constructor ()
      ensures Valid() && events == []
    {
      items := map[];
      events := [];
    }

    ghost method Record(e: Event)
      modifies this`events
      ensures events == old(events) + [e]
      ensures Pruned(events) == match e
                                case Revoke(jti, expiry) => Pruned(old(events))[jti := expiry]
                                case Prune(now) => Unexpired(Pruned(old(events)), now)
                                case Check(_, _) => Pruned(old(events))
    {
      assert (events + [e])[..|events + [e]| - 1] == events;
      events := events + [e];
    }

    method Revoke(jti: string, expiry: real)
      requires Valid()
      modifies this
      ensures Valid() && events == old(events) + [Event.Revoke(jti, expiry)]
      ensures items == old(items)[jti := expiry]
    {
      items := items[jti := expiry];
      Record(Event.Revoke(jti, expiry));
    }

    method IsRevoked(jti: string) returns (revoked: bool)
      requires Valid()
      ensures revoked <==> jti in Kept(events) && !Lost(events, jti)
    {
      StoresHold(events, jti);
      revoked := jti in items;
    }

    /** The body of one clean-up tick. */
    method Cleanup(now: real)
      requires Valid()
      modifies this
      ensures Valid() && events == old(events) + [Prune(now)]
      ensures forall jti :: jti in items <==> jti in old(items) && old(items)[jti] >= now
      ensures forall jti | jti in items :: items[jti] == old(items)[jti]
    {
      var pending := items.Keys;
      while pending != {}
        invariant pending <= items.Keys <= old(items).Keys
        invariant forall jti | jti in items :: items[jti] == old(items)[jti]
        invariant forall jti | jti in old(items).Keys - pending :: jti in items <==> !(now > old(items)[jti])
        invariant events == old(events)
        decreases pending
      {
        var jti :| jti in pending;
        pending := pending - {jti};
        if now > items[jti] {
          items := items - {jti};
        }
      }
      assert items == Unexpired(old(items), now);
      Record(Prune(now));
    }
  }

  /** The accept or reject decision, gate by gate. */
  method Authenticate(store: RevocationStore?, c: Credential, parsedAt: real) returns (d: Decision)
    requires store != null ==> store.Valid()
    ensures d == Decide(if store == null then None else Some(Pruned(store.events)), c, parsedAt)
    ensures d == Unauthorised <==> c.NoBearer?
    ensures d == InvalidToken <==> c.Unverifiable?
    ensures d == TokenExpired <==> c.Verified? && c.token.exp.Some? && c.token.exp.value <= parsedAt
    ensures d == TokenRevoked <==>
            && c.Verified? && (c.token.exp.Some? ==> parsedAt < c.token.exp.value)
            && store != null && c.token.jti != ""
            && c.token.jti in Kept(store.events) && !Lost(store.events, c.token.jti)
    ensures d == Accepted <==>
            && c.Verified? && (c.token.exp.Some? ==> parsedAt < c.token.exp.value)
            && !(store != null && c.token.jti != ""
                 && c.token.jti in Kept(store.events) && !Lost(store.events, c.token.jti))
  {
    if c.NoBearer? {
      return Unauthorised;
    }
    if c.Unverifiable? {
      return InvalidToken;
    }
    var t := c.token;
    if Expired(t, parsedAt) {
      return TokenExpired;
    }
    if store != null {
      StoresHold(store.events, t.jti);
      var revoked := store.IsRevoked(t.jti);
      if t.jti != "" && revoked {
        return TokenRevoked;
      }
    }
    return Accepted;
  }
}
