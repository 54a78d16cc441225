/**
 What the store's readers show, told from the calls alone and field by field:
 the record under an id, the status of a run and the listing of a holder.
 */
module StoreReads {
  import opened Wrappers
  import opened Records
  import opened StoreHistory

  /** What a listing or a run shows of the submission that a call stored. */
  function Told(c: Call): SubmissionSummary {
    SubmissionSummary(c.p.submissionId, c.p.tenantId, c.p.runReference, c.p.quarter, c.p.taxYear,
                      c.p.returnType, "RECEIVED", c.at, c.p.itemCount)
  }

  /** The first call with an id is stored field by field, and its summary is what is told of it. */
  lemma FirstCallIsStored(h: seq<Call>, i: nat)
    requires IsFirst(h, i)
    ensures var c, records := h[i], After(h).submissions;
            && c.p.submissionId in records
            && records[c.p.submissionId]
               == SubmissionRecord(
                    c.p.submissionId, c.p.tenantId, c.p.runReference, c.p.holdingNumber, c.p.taxYear, c.p.quarter,
                    c.p.returnType, "RECEIVED", c.at, c.p.client.softwareUsed, c.p.client.softwareVersion,
                    c.p.itemCount, c.p.body, c.p.warnings, c.p.contactEmail, c.p.contactPhone, c.p.comments)
            && Summary(records[c.p.submissionId]) == Told(c)
  {
    FirstCallWins(h, i);
  }

  // ---- Listings ----

  /** Some call was the first with its id, is the holder's, passes the filters, and `x` tells of it. */
  ghost predicate ListedBy(h: seq<Call>, holder: string, taxYear: int, quarter: int, x: SubmissionSummary) {
    exists i: nat ::
      && IsFirst(h, i) && h[i].p.holdingNumber == holder
      && (taxYear <= 0 || h[i].p.taxYear == taxYear)
      && (quarter <= 0 || h[i].p.quarter == quarter)
      && x == Told(h[i])
  }

  /** A listing shows exactly the submissions that were stored for the holder and pass the filters. */
  lemma ListingIsExact(h: seq<Call>, holder: string, taxYear: int, quarter: int, x: SubmissionSummary)
    ensures x in Listed(After(h), holder, taxYear, quarter) <==> ListedBy(h, holder, taxYear, quarter, x)
  {
    var records := After(h).submissions;
    if x in Listed(After(h), holder, taxYear, quarter) {
      var id :| id in records && Matches(records[id], holder, taxYear, quarter) && x == Summary(records[id]);
      StoredIffSeen(h, id);
      var i := HasFirst(h, id);
      FirstCallIsStored(h, i);
    }
    if ListedBy(h, holder, taxYear, quarter, x) {
      var i: nat :| && IsFirst(h, i) && h[i].p.holdingNumber == holder
                    && (taxYear <= 0 || h[i].p.taxYear == taxYear)
                    && (quarter <= 0 || h[i].p.quarter == quarter)
                    && x == Told(h[i]);
      FirstCallIsStored(h, i);
      assert Matches(records[h[i].p.submissionId], holder, taxYear, quarter);
    }
  }

  // ---- Runs ----

  /** The calls that name `run`, in call order. */
  function InRun(h: seq<Call>, run: string): seq<Call> {
    if h == [] then []
    else
      var before, c := InRun(h[..|h| - 1], run), h[|h| - 1];
      if c.p.runReference == run then before + [c] else before
  }

  function ItemsOf(calls: seq<Call>): int {
    if calls == [] then 0 else ItemsOf(calls[..|calls| - 1]) + calls[|calls| - 1].p.itemCount
  }

  /** The status of a run, told from the first calls that named it. */
  function StatusTold(h: seq<Call>, run: string): Result<RunStatus> {
    var calls := InRun(Firsts(h), run);
    if calls == [] then NotFound
    else Ok(RunStatus(run, |calls|, ItemsOf(calls), seq(|calls|, k requires 0 <= k < |calls| => Told(calls[k]))))
  }

  lemma {:induction false} InRunMatchesIds(h: seq<Call>, run: string)
    ensures |InRun(h, run)| == |IdsOf(h, run)|
    ensures forall k | 0 <= k < |IdsOf(h, run)| ::
              IdsOf(h, run)[k] == InRun(h, run)[k].p.submissionId && InRun(h, run)[k] in h
  {
    if h == [] {
    } else {
      InRunMatchesIds(h[..|h| - 1], run);
    }
  }

  ghost predicate IsFirstCall(h: seq<Call>, c: Call) {
    exists i: nat :: IsFirst(h, i) && h[i] == c
  }

  lemma FirstStays(h: seq<Call>, c: Call, last: Call)
    requires IsFirstCall(h, c)
    ensures IsFirstCall(h + [last], c)
  {
    var i: nat :| IsFirst(h, i) && h[i] == c;
    assert IsFirst(h + [last], i) && (h + [last])[i] == c;
  }

  lemma NewIsFirst(h: seq<Call>, c: Call)
    requires !Seen(h, c.p.submissionId)
    ensures IsFirstCall(h + [c], c)
  {
    assert IsFirst(h + [c], |h|) && (h + [c])[|h|] == c;
  }

  lemma {:induction false} FirstsAreFirst(h: seq<Call>, c: Call)
    requires c in Firsts(h)
    ensures IsFirstCall(h, c)
  {
    var init, last := h[..|h| - 1], h[|h| - 1];
    assert h == init + [last];
    if c in Firsts(init) {
      FirstsAreFirst(init, c);
      FirstStays(init, c, last);
    } else {
      NewIsFirst(init, c);
    }
  }

  lemma {:induction false} ItemsAreTold(s: State, ids: seq<string>, calls: seq<Call>)
    requires |ids| == |calls|
    requires forall k | 0 <= k < |ids| ::
               ids[k] in s.submissions && s.submissions[ids[k]].itemCount == calls[k].p.itemCount
    ensures forall id | id in ids :: id in s.submissions
    ensures ItemsIn(s, ids) == ItemsOf(calls)
  {
    if ids == [] {
    } else {
      ItemsAreTold(s, ids[..|ids| - 1], calls[..|calls| - 1]);
    }
  }

  /**
   A run's status tells of exactly the first calls that named it, in their
   order, with their number and the sum of their items.
   */
  lemma RunIsExact(h: seq<Call>, run: string)
    ensures Resolves(After(h)) && RunStatusOf(After(h), run) == StatusTold(h, run)
  {
    var s, ids, calls := After(h), IdsOf(Firsts(h), run), InRun(Firsts(h), run);
    IndexAgrees(h);
    RunsInInsertionOrder(h, run);
    InRunMatchesIds(Firsts(h), run);
    forall k | 0 <= k < |ids|
      ensures ids[k] in s.submissions && Summary(s.submissions[ids[k]]) == Told(calls[k])
    {
      FirstsAreFirst(h, calls[k]);
      var i: nat :| IsFirst(h, i) && h[i] == calls[k];
      FirstCallIsStored(h, i);
    }
    SameTold(s, ids, calls);
  }

  lemma SameTold(s: State, ids: seq<string>, calls: seq<Call>)
    requires |ids| == |calls|
    requires forall k | 0 <= k < |ids| ::
               ids[k] in s.submissions && Summary(s.submissions[ids[k]]) == Told(calls[k])
    ensures forall id | id in ids :: id in s.submissions
    ensures ItemsIn(s, ids) == ItemsOf(calls)
    ensures SummariesOf(s, ids) == seq(|calls|, k requires 0 <= k < |calls| => Told(calls[k]))
  {
    forall k | 0 <= k < |ids|
      ensures s.submissions[ids[k]].itemCount == calls[k].p.itemCount
    {
      assert Summary(s.submissions[ids[k]]).itemCount == Told(calls[k]).itemCount;
    }
    ItemsAreTold(s, ids, calls);
  }
}
