/**
 The submission store as a function of the `Create` calls made so far, and
 what every reachable store satisfies.
 */
module StoreHistory {
  import opened Wrappers
  import opened Records
  import opened Sorting

  /** The primary map, and for every run the ids of its submissions. */
  datatype State = State(submissions: map<string, SubmissionRecord>, runs: map<string, seq<string>>)

  /** One call, with the clock reading it made before it took the lock. */
  datatype Call = Call(p: CreateParams, at: real)

  function RunIds(s: State, run: string): seq<string> {
    if run in s.runs then s.runs[run] else []
  }

  /** The critical section: insert if absent. */
  function Stored(s: State, c: Call): State {
    if c.p.submissionId in s.submissions then s
    else State(
        s.submissions[c.p.submissionId := NewRecord(c.p, c.at)],
        s.runs[c.p.runReference := RunIds(s, c.p.runReference) + [c.p.submissionId]])
  }

  function Response(s: State, c: Call): CreateResult {
    if c.p.submissionId in s.submissions then ResultOf(s.submissions[c.p.submissionId])
    else NewResult(c.p, c.at)
  }

  function After(h: seq<Call>): State {
    if h == [] then State(map[], map[]) else Stored(After(h[..|h| - 1]), h[|h| - 1])
  }

  /** The response to call `i` of a history. */
  function ResponseAt(h: seq<Call>, i: nat): CreateResult
    requires i < |h|
  {
    Response(After(h[..i]), h[i])
  }

  predicate Seen(h: seq<Call>, id: string) {
    exists i | 0 <= i < |h| :: h[i].p.submissionId == id
  }

  predicate IsFirst(h: seq<Call>, i: nat) {
    i < |h| && forall k | 0 <= k < i :: h[k].p.submissionId != h[i].p.submissionId
  }

  /** The history with every repeat of an id removed. */
  function Firsts(h: seq<Call>): seq<Call> {
    if h == [] then []
    else
      var before, c := Firsts(h[..|h| - 1]), h[|h| - 1];
      if Seen(h[..|h| - 1], c.p.submissionId) then before else before + [c]
  }

  /** The ids of the calls that name `run`, in call order. */
  function IdsOf(h: seq<Call>, run: string): seq<string> {
    if h == [] then []
    else
      var before, c := IdsOf(h[..|h| - 1], run), h[|h| - 1];
      if c.p.runReference == run then before + [c.p.submissionId] else before
  }

  lemma AfterStep(h: seq<Call>, c: Call)
    ensures After(h + [c]) == Stored(After(h), c)
  {
    assert (h + [c])[..|h + [c]| - 1] == h;
  }

  // ---- Stored records ----

  lemma SeenStep(h: seq<Call>, c: Call, id: string)
    ensures Seen(h + [c], id) <==> Seen(h, id) || c.p.submissionId == id
  {
    var all := h + [c];
    assert all[|h|] == c;
    if Seen(h, id) {
      var i :| 0 <= i < |h| && h[i].p.submissionId == id;
      assert all[i].p.submissionId == id;
    }
  }

  lemma {:induction false} StoredIffSeen(h: seq<Call>, id: string)
    ensures id in After(h).submissions <==> Seen(h, id)
  {
    if h == [] {
    } else {
      var init, c := h[..|h| - 1], h[|h| - 1];
      StoredIffSeen(init, id);
      SeenStep(init, c, id);
      assert h == init + [c];
    }
  }

  /** The first call with an id decides the record for ever. */
  lemma {:induction false} FirstCallWins(h: seq<Call>, i: nat)
    requires IsFirst(h, i)
    ensures h[i].p.submissionId in After(h).submissions
    ensures After(h).submissions[h[i].p.submissionId] == NewRecord(h[i].p, h[i].at)
  {
    var init := h[..|h| - 1];
    if i < |h| - 1 {
      assert init[i] == h[i];
      FirstCallWins(init, i);
    } else {
      StoredIffSeen(init, h[i].p.submissionId);
    }
  }

  lemma {:induction false} HasFirst(h: seq<Call>, id: string) returns (i: nat)
    requires Seen(h, id)
    ensures IsFirst(h, i) && h[i].p.submissionId == id
  {
    var init := h[..|h| - 1];
    if Seen(init, id) {
      i := HasFirst(init, id);
    } else {
      i := |h| - 1;
      assert forall k | 0 <= k < |init| :: h[k] == init[k];
    }
  }

  /** Later calls never change a stored record. */
  lemma {:induction false} RecordsPersist(h: seq<Call>, n: nat, id: string)
    requires n <= |h| && id in After(h[..n]).submissions
    ensures id in After(h).submissions && After(h).submissions[id] == After(h[..n]).submissions[id]
  {
    if n == |h| {
      assert h[..n] == h;
    } else {
      assert h[..|h| - 1][..n] == h[..n];
      RecordsPersist(h[..|h| - 1], n, id);
    }
  }

  // ---- Replay ----

  /** Every call is answered with the record that is in the store for ever after. */
  lemma {:induction false} ResponseDescribesRecord(h: seq<Call>, i: nat)
    requires i < |h|
    ensures h[i].p.submissionId in After(h).submissions
    ensures ResponseAt(h, i) == ResultOf(After(h).submissions[h[i].p.submissionId])
  {
    assert h[..i + 1] == h[..i] + [h[i]];
    AfterStep(h[..i], h[i]);
    RecordsPersist(h, i + 1, h[i].p.submissionId);
  }

  /**
   Repeating an id, with whatever other contents, returns what the first call
   with that id returned.
   */
  lemma {:induction false} RepeatReturnsFirst(h: seq<Call>, i: nat, j: nat)
    requires IsFirst(h, i) && j < |h| && h[j].p.submissionId == h[i].p.submissionId
    ensures ResponseAt(h, j) == NewResult(h[i].p, h[i].at) == ResponseAt(h, i)
    ensures ResponseAt(h, j)
            == CreateResult(h[i].p.submissionId, h[i].p.runReference, "RECEIVED", h[i].at, h[i].p.itemCount,
                            h[i].p.warnings)
  {
    ResponseDescribesRecord(h, i);
    ResponseDescribesRecord(h, j);
    FirstCallWins(h, i);
  }

  /** The store after a history is the store after its first calls. */
  lemma {:induction false} ReplayIsIdempotent(h: seq<Call>)
    ensures After(h) == After(Firsts(h))
  {
    if h == [] {
    } else {
      var init, c := h[..|h| - 1], h[|h| - 1];
      ReplayIsIdempotent(init);
      StoredIffSeen(init, c.p.submissionId);
      if !Seen(init, c.p.submissionId) {
        AfterStep(Firsts(init), c);
      }
    }
  }

  // ---- The index ----

  /** The index lists exactly the stored ids, each in the list of its run. */
  ghost predicate Indexed(s: State) {
    && (forall id | id in s.submissions ::
          && s.submissions[id].submissionId == id
          && id in RunIds(s, s.submissions[id].runReference))
    && (forall run | run in s.runs ::
          && s.runs[run] != [] && NoDuplicates(s.runs[run])
          && forall id | id in s.runs[run] :: id in s.submissions && s.submissions[id].runReference == run)
  }

  /** Looking up a listed id never misses. */
  ghost predicate Resolves(s: State) {
    forall run, id | run in s.runs && id in s.runs[run] :: id in s.submissions
  }

  lemma {:induction false} IndexAgrees(h: seq<Call>)
    ensures Indexed(After(h)) && Resolves(After(h))
  {
    if h == [] {
    } else {
      IndexAgrees(h[..|h| - 1]);
      IndexAgreesStep(After(h[..|h| - 1]), h[|h| - 1]);
    }
  }

  lemma IndexAgreesStep(s: State, c: Call)
    requires Indexed(s)
    ensures Indexed(Stored(s, c))
  {
    var id, run, s' := c.p.submissionId, c.p.runReference, Stored(s, c);
    if id !in s.submissions {
      assert id !in RunIds(s, run);
      forall other | other in s'.submissions
        ensures other in RunIds(s', s'.submissions[other].runReference)
      {
        if other == id {
          assert s'.runs[run][|s'.runs[run]| - 1] == id;
        } else {
          assert other in RunIds(s, s.submissions[other].runReference);
        }
      }
    }
  }

  /** A run lists the first calls that named it, in the order they were made. */
  lemma {:induction false} RunsInInsertionOrder(h: seq<Call>, run: string)
    ensures RunIds(After(h), run) == IdsOf(Firsts(h), run)
    ensures run in After(h).runs <==> IdsOf(Firsts(h), run) != []
  {
    if h == [] {
    } else {
      var init, c := h[..|h| - 1], h[|h| - 1];
      RunsInInsertionOrder(init, run);
      StoredIffSeen(init, c.p.submissionId);
      if !Seen(init, c.p.submissionId) {
        assert (Firsts(init) + [c])[..|Firsts(init)|] == Firsts(init);
      }
    }
  }

  /** Every stored id is in exactly one list. */
  lemma InExactlyOneRun(h: seq<Call>, id: string, run: string)
    requires id in After(h).submissions
    ensures id in RunIds(After(h), run) <==> run == After(h).submissions[id].runReference
  {
    IndexAgrees(h);
  }

  // ---- Run status ----

  function ItemsIn(s: State, ids: seq<string>): int
    requires forall id | id in ids :: id in s.submissions
  {
    if ids == [] then 0
    else ItemsIn(s, ids[..|ids| - 1]) + s.submissions[ids[|ids| - 1]].itemCount
  }

  function SummariesOf(s: State, ids: seq<string>): seq<SubmissionSummary>
    requires forall id | id in ids :: id in s.submissions
  {
    seq(|ids|, i requires 0 <= i < |ids| => assert ids[i] in ids; Summary(s.submissions[ids[i]]))
  }

  function RunStatusOf(s: State, run: string): Result<RunStatus>
    requires forall id | id in RunIds(s, run) :: id in s.submissions
  {
    if run !in s.runs then NotFound
    else
      var ids := s.runs[run];
      Ok(RunStatus(run, |ids|, ItemsIn(s, ids), SummariesOf(s, ids)))
  }

  // ---- Conservation ----

  /** The sum of the values of a finite map. */
  ghost function Total(m: map<string, int>): int {
    if m == map[] then 0
    else
      var k :| k in m;
      m[k] + Total(m - {k})
  }

  lemma {:induction false} TotalWithout(m: map<string, int>, k: string)
    requires k in m
    ensures Total(m) == m[k] + Total(m - {k})
    decreases |m|
  {
    var j :| j in m && Total(m) == m[j] + Total(m - {j});
    if j == k {
    } else {
      TotalWithout(m - {j}, k);
      TotalWithout(m - {k}, j);
      assert m - {j} - {k} == m - {k} - {j};
    }
  }

  lemma TotalUpdate(m: map<string, int>, m': map<string, int>, k: string)
    requires m'.Keys == m.Keys + {k} && forall j | j in m && j != k :: m'[j] == m[j]
    ensures Total(m') == Total(m) + m'[k] - (if k in m then m[k] else 0)
  {
    TotalWithout(m', k);
    if k in m {
      TotalWithout(m, k);
      assert m' - {k} == m - {k};
    } else {
      assert m' - {k} == m;
    }
  }

  ghost function ItemCounts(s: State): map<string, int> {
    map id | id in s.submissions :: s.submissions[id].itemCount
  }

  /** The `totalItems` of every run's status. */
  ghost function RunTotals(s: State): map<string, int>
    requires Resolves(s)
  {
    map run | run in s.runs :: RunStatusOf(s, run).value.totalItems
  }

  /** The `totalSubmissions` of every run's status. */
  ghost function RunSizes(s: State): map<string, int>
    requires Resolves(s)
  {
    map run | run in s.runs :: RunStatusOf(s, run).value.totalSubmissions
  }

  lemma ResolvesStep(s: State, c: Call)
    requires Resolves(s)
    ensures Resolves(Stored(s, c))
  {
  }

  lemma {:induction false} ItemsFrame(s: State, s': State, ids: seq<string>)
    requires forall id | id in ids ::
               id in s.submissions && id in s'.submissions && s.submissions[id] == s'.submissions[id]
    ensures ItemsIn(s, ids) == ItemsIn(s', ids)
  {
    if ids == [] {
    } else {
      ItemsFrame(s, s', ids[..|ids| - 1]);
    }
  }

  /** A new record adds its items to its own run and leaves the other runs alone. */
  lemma RunTotalsStep(s: State, c: Call, run: string)
    requires Resolves(s) && Resolves(Stored(s, c)) && c.p.submissionId !in s.submissions
    requires run in Stored(s, c).runs
    ensures run != c.p.runReference ==> run in s.runs && RunTotals(Stored(s, c))[run] == RunTotals(s)[run]
    ensures run == c.p.runReference ==>
              RunTotals(Stored(s, c))[run] == ItemsIn(s, RunIds(s, run)) + c.p.itemCount
  {
    var s' := Stored(s, c);
    ItemsFrame(s, s', RunIds(s, run));
    if run == c.p.runReference {
      assert s'.runs[run][..|s'.runs[run]| - 1] == RunIds(s, run);
    }
  }

  lemma RunSizesStep(s: State, c: Call, run: string)
    requires Resolves(s) && Resolves(Stored(s, c)) && c.p.submissionId !in s.submissions
    requires run in Stored(s, c).runs
    ensures run != c.p.runReference ==> run in s.runs && RunSizes(Stored(s, c))[run] == RunSizes(s)[run]
    ensures run == c.p.runReference ==> RunSizes(Stored(s, c))[run] == |RunIds(s, run)| + 1
  {
  }

  /** One key of a map grows, or is new; the others stay. */
  ghost predicate GrowsBy(m: map<string, int>, m': map<string, int>, k: string, more: int) {
    && m'.Keys == m.Keys + {k}
    && (forall j | j in m && j != k :: m'[j] == m[j])
    && m'[k] == (if k in m then m[k] else 0) + more
  }

  lemma TotalGrows(m: map<string, int>, m': map<string, int>, k: string, more: int)
    requires GrowsBy(m, m', k, more)
    ensures Total(m') == Total(m) + more
  {
    TotalUpdate(m, m', k);
  }

  lemma ItemsConservedStep(s: State, c: Call)
    requires Resolves(s) && c.p.submissionId !in s.submissions
    ensures Resolves(Stored(s, c))
    ensures Total(RunTotals(Stored(s, c))) == Total(RunTotals(s)) + c.p.itemCount
  {
    ResolvesStep(s, c);
    var m, m', run := RunTotals(s), RunTotals(Stored(s, c)), c.p.runReference;
    forall k | k in m'
      ensures k != run ==> k in m && m'[k] == m[k]
      ensures k == run ==> m'[k] == (if run in m then m[run] else 0) + c.p.itemCount
    {
      RunTotalsStep(s, c, k);
    }
    TotalGrows(m, m', run, c.p.itemCount);
  }

  lemma SizesConservedStep(s: State, c: Call)
    requires Resolves(s) && c.p.submissionId !in s.submissions
    ensures Resolves(Stored(s, c))
    ensures Total(RunSizes(Stored(s, c))) == Total(RunSizes(s)) + 1
  {
    ResolvesStep(s, c);
    var m, m', run := RunSizes(s), RunSizes(Stored(s, c)), c.p.runReference;
    forall k | k in m'
      ensures k != run ==> k in m && m'[k] == m[k]
      ensures k == run ==> m'[k] == (if run in m then m[run] else 0) + 1
    {
      RunSizesStep(s, c, k);
    }
    TotalGrows(m, m', run, 1);
  }

  lemma CountsStep(s: State, c: Call)
    requires c.p.submissionId !in s.submissions
    ensures Total(ItemCounts(Stored(s, c))) == Total(ItemCounts(s)) + c.p.itemCount
  {
    TotalUpdate(ItemCounts(s), ItemCounts(Stored(s, c)), c.p.submissionId);
  }

  /**
   Nothing is lost or counted twice: over all runs, the reported items and
   submissions add up to those stored.
   */
  lemma {:induction false} Conservation(h: seq<Call>)
    ensures Resolves(After(h))
    ensures Total(RunTotals(After(h))) == Total(ItemCounts(After(h)))
    ensures Total(RunSizes(After(h))) == |After(h).submissions|
  {
    if h == [] {
      assert RunTotals(After(h)) == map[] == RunSizes(After(h)) == ItemCounts(After(h));
    } else {
      var s, c := After(h[..|h| - 1]), h[|h| - 1];
      Conservation(h[..|h| - 1]);
      if c.p.submissionId !in s.submissions {
        ItemsConservedStep(s, c);
        SizesConservedStep(s, c);
        CountsStep(s, c);
      }
    }
  }

  // ---- Isolation of the holders ----

  /** The records of one holder: all that a listing for that holder looks at. */
  function HeldBy(s: State, holder: string): map<string, SubmissionRecord> {
    map id | id in s.submissions && s.submissions[id].holdingNumber == holder :: s.submissions[id]
  }

  /** The summaries a listing returns, whatever their order. */
  function Listed(s: State, holder: string, taxYear: int, quarter: int): set<SubmissionSummary> {
    set id | id in s.submissions && Matches(s.submissions[id], holder, taxYear, quarter) :: Summary(s.submissions[id])
  }

  /** The history without the calls of other holders. */
  function CallsOf(h: seq<Call>, holder: string): seq<Call> {
    if h == [] then []
    else
      var before, c := CallsOf(h[..|h| - 1], holder), h[|h| - 1];
      if c.p.holdingNumber == holder then before + [c] else before
  }

  /** No id the holder uses was used first by somebody else. */
  ghost predicate OwnIds(h: seq<Call>, holder: string) {
    forall i: nat, j: nat | IsFirst(h, i) && j < |h| && h[j].p.submissionId == h[i].p.submissionId
                                && h[j].p.holdingNumber == holder :: h[i].p.holdingNumber == holder
  }

  lemma {:induction false} CalledByHolder(h: seq<Call>, holder: string, id: string)
    ensures Seen(CallsOf(h, holder), id)
            <==> exists j :: 0 <= j < |h| && h[j].p.submissionId == id && h[j].p.holdingNumber == holder
  {
    if h == [] {
    } else {
      var init, c := h[..|h| - 1], h[|h| - 1];
      CalledByHolder(init, holder, id);
      SeenStep(CallsOf(init, holder), c, id);
      assert forall j | 0 <= j < |init| :: h[j] == init[j];
      assert h[|init|] == c;
    }
  }

  /** What the holder has in the whole store is in its own as well, and that holds nothing of anybody else. */
  ghost predicate Covers(own: State, all: State, holder: string, id: string) {
    && (id in own.submissions ==> own.submissions[id].holdingNumber == holder && id in all.submissions)
    && (id in all.submissions && all.submissions[id].holdingNumber == holder ==>
          id in own.submissions && own.submissions[id] == all.submissions[id])
  }

  lemma CoversStep(own: State, all: State, holder: string, id: string, c: Call)
    requires Covers(own, all, holder, id)
    ensures Covers(if c.p.holdingNumber == holder then Stored(own, c) else own, Stored(all, c), holder, id)
  {
  }

  /** A holder's own calls store at least what the holder has in the whole store. */
  lemma {:induction false} HeldSeparately(h: seq<Call>, holder: string, id: string)
    ensures Covers(After(CallsOf(h, holder)), After(h), holder, id)
  {
    if h == [] {
    } else {
      var init, c := h[..|h| - 1], h[|h| - 1];
      HeldSeparately(init, holder, id);
      AfterStep(CallsOf(init, holder), c);
      CoversStep(After(CallsOf(init, holder)), After(init), holder, id, c);
    }
  }

  lemma HeldIfOwn(h: seq<Call>, holder: string, id: string)
    requires OwnIds(h, holder)
    ensures id in After(CallsOf(h, holder)).submissions <==> id in HeldBy(After(h), holder)
  {
    HeldSeparately(h, holder, id);
    if id in After(CallsOf(h, holder)).submissions {
      StoredIffSeen(h, id);
      var i := HasFirst(h, id);
      FirstCallWins(h, i);
    }
  }

  lemma NotHeldIfTaken(h: seq<Call>, holder: string) returns (id: string)
    requires !OwnIds(h, holder)
    ensures id in HeldBy(After(CallsOf(h, holder)), holder) && id !in HeldBy(After(h), holder)
  {
    var i: nat, j: nat :| IsFirst(h, i) && j < |h| && h[j].p.submissionId == h[i].p.submissionId
                          && h[j].p.holdingNumber == holder && h[i].p.holdingNumber != holder;
    id := h[i].p.submissionId;
    FirstCallWins(h, i);
    CalledByHolder(h, holder, id);
    StoredIffSeen(CallsOf(h, holder), id);
    HeldSeparately(h, holder, id);
  }

  /**
   Other holders' calls leave a holder's records alone if and only if none of
   them was first to use an id of that holder.
   */
  lemma HoldersAreIsolatedIff(h: seq<Call>, holder: string)
    ensures HeldBy(After(h), holder) == HeldBy(After(CallsOf(h, holder)), holder) <==> OwnIds(h, holder)
  {
    if OwnIds(h, holder) {
      var all, own := HeldBy(After(h), holder), HeldBy(After(CallsOf(h, holder)), holder);
      forall id
        ensures id in all <==> id in own
        ensures id in all ==> all[id] == own[id]
      {
        HeldIfOwn(h, holder, id);
        HeldSeparately(h, holder, id);
      }
      assert all == own;
    } else {
      var id := NotHeldIfTaken(h, holder);
    }
  }

  /** No listing of the holder, whatever its filters, tells the two stores apart. */
  ghost predicate SameListings(s: State, s': State, holder: string) {
    forall taxYear, quarter :: Listed(s, holder, taxYear, quarter) == Listed(s', holder, taxYear, quarter)
  }

  /** Under the same condition all listings of the holder are what they would be had nobody else called. */
  lemma ListingsAreIsolatedIff(h: seq<Call>, holder: string)
    ensures SameListings(After(h), After(CallsOf(h, holder)), holder) <==> OwnIds(h, holder)
  {
    var all, own := After(h), After(CallsOf(h, holder));
    if OwnIds(h, holder) {
      HoldersAreIsolatedIff(h, holder);
      forall taxYear, quarter
        ensures Listed(all, holder, taxYear, quarter) == Listed(own, holder, taxYear, quarter)
      {
        ListedFromHeld(all, holder, taxYear, quarter);
        ListedFromHeld(own, holder, taxYear, quarter);
      }
    } else {
      var id := NotHeldIfTaken(h, holder);
      IndexAgrees(h);
      IndexAgrees(CallsOf(h, holder));
      assert Summary(own.submissions[id]) in Listed(own, holder, 0, 0);
      assert Summary(own.submissions[id]) !in Listed(all, holder, 0, 0);
    }
  }

  lemma ListedFromHeld(s: State, holder: string, taxYear: int, quarter: int)
    ensures Listed(s, holder, taxYear, quarter) == Listed(State(HeldBy(s, holder), map[]), holder, taxYear, quarter)
  {
    var held := State(HeldBy(s, holder), map[]);
    forall x
      ensures x in Listed(s, holder, taxYear, quarter) <==> x in Listed(held, holder, taxYear, quarter)
    {
      if x in Listed(s, holder, taxYear, quarter) {
        var id :| id in s.submissions && Matches(s.submissions[id], holder, taxYear, quarter)
                  && x == Summary(s.submissions[id]);
        assert id in held.submissions;
      }
    }
  }
}
