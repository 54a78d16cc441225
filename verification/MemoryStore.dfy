/** The in-memory store: two maps, updated together under one lock. */
module MemoryStore {
  import opened Wrappers
  import opened Records
  import opened Sorting
  import opened StoreHistory
  import opened StoreReads

  class Store {
    var submissions: map<string, SubmissionRecord>
    var runs: map<string, seq<string>>

    /** Every call that has entered the critical section. */
    ghost var history: seq<Call>

    ghost predicate Valid()
      reads this
    {
      State(submissions, runs) == After(history)
    }

    constructor ()
      ensures Valid() && history == []
    {
      submissions, runs, history := map[], map[], [];
    }

    /**
     Store a submission unless its id is taken.  The response is the one that the
     first call with this id received, whatever this call carries.
     */
    method Create(p: CreateParams, receivedAt: real) returns (r: CreateResult)
      requires Valid()
      modifies this
      ensures Valid() && history == old(history) + [Call(p, receivedAt)]
      ensures r == ResponseAt(history, |history| - 1)
      ensures p.submissionId in submissions && r == ResultOf(submissions[p.submissionId])
      ensures Seen(old(history), p.submissionId) ==> submissions == old(submissions) && runs == old(runs)
      ensures !Seen(old(history), p.submissionId) ==>
                && r == CreateResult(p.submissionId, p.runReference, "RECEIVED", receivedAt, p.itemCount, p.warnings)
                && submissions == old(submissions)[
                     p.submissionId := SubmissionRecord(
                       p.submissionId, p.tenantId, p.runReference, p.holdingNumber, p.taxYear, p.quarter,
                       p.returnType, "RECEIVED", receivedAt, p.client.softwareUsed, p.client.softwareVersion,
                       p.itemCount, p.body, p.warnings, p.contactEmail, p.contactPhone, p.comments)]
                && runs == old(runs)[
                     p.runReference := (if p.runReference in old(runs) then old(runs)[p.runReference] else [])
                                       + [p.submissionId]]
    {
      AfterStep(history, Call(p, receivedAt));
      StoredIffSeen(history, p.submissionId);
      assert (history + [Call(p, receivedAt)])[..|history|] == history;
      var record := NewRecord(p, receivedAt);
      if p.submissionId in submissions {
        var existing := submissions[p.submissionId];
        r := CreateResult(existing.submissionId, existing.runReference, existing.status,
                          existing.receivedAt, existing.itemCount, existing.warnings);
      } else {
        submissions := submissions[p.submissionId := record];
        var ids := if p.runReference in runs then runs[p.runReference] else [];
        runs := runs[p.runReference := ids + [p.submissionId]];
        r := CreateResult(p.submissionId, p.runReference, "RECEIVED", receivedAt, p.itemCount, p.warnings);
      }
      history := history + [Call(p, receivedAt)];
    }

    /** The record of the first call with this id, if there was one. */
    method GetByID(id: string) returns (r: Result<SubmissionRecord>)
      requires Valid()
      ensures r == if id in submissions then Ok(submissions[id]) else NotFound
      ensures r == NotFound <==> !Seen(history, id)
      ensures forall i: nat | IsFirst(history, i) && history[i].p.submissionId == id ::
                r == Ok(NewRecord(history[i].p, history[i].at))
    {
      StoredIffSeen(history, id);
      forall i: nat | IsFirst(history, i) && history[i].p.submissionId == id
        ensures id in submissions && submissions[id] == NewRecord(history[i].p, history[i].at)
      {
        FirstCallWins(history, i);
      }
      if id !in submissions {
        return NotFound;
      }
      return Ok(submissions[id]);
    }

    /** The status of a run; every listed id is found in the primary map. */
    method GetRun(run: string) returns (r: Result<RunStatus>)
      requires Valid()
      ensures Resolves(After(history)) && r == RunStatusOf(After(history), run)
      ensures r.Ok? ==> r.value.totalSubmissions == |r.value.submissions| == |IdsOf(Firsts(history), run)| > 0
      ensures r == NotFound <==> IdsOf(Firsts(history), run) == []
      ensures r == StatusTold(history, run)
    {
      RunIsExact(history, run);
      IndexAgrees(history);
      RunsInInsertionOrder(history, run);
      ghost var s := After(history);
      if run !in runs {
        return NotFound;
      }
      var total, summaries := AddUp(State(submissions, runs), runs[run]);
      return Ok(RunStatus(run, |summaries|, total, summaries));
    }

    /** The matching submissions, each once, newest first. */
    method List(holdingNumber: string, taxYear: int, quarter: int) returns (results: seq<SubmissionSummary>)
      requires Valid()
      ensures multiset(results) == multiset(Listed(After(history), holdingNumber, taxYear, quarter))
      ensures NoDuplicates(results)
      ensures forall x :: x in results <==> ListedBy(history, holdingNumber, taxYear, quarter, x)
      ensures NewestFirst(results)
    {
      IndexAgrees(history);
      results := Collect(submissions, holdingNumber, taxYear, quarter);
      assert ListedFrom(submissions, submissions.Keys, holdingNumber, taxYear, quarter)
          == Listed(After(history), holdingNumber, taxYear, quarter);
      results := Sort(results, Age);
      OnceEachIsDistinct(results, Listed(After(history), holdingNumber, taxYear, quarter));
      forall x
        ensures x in results <==> ListedBy(history, holdingNumber, taxYear, quarter, x)
      {
        ListingIsExact(history, holdingNumber, taxYear, quarter, x);
      }
    }
  }

  /** The loop of a run's status: look up every listed id and add up. */
  method AddUp(s: State, ids: seq<string>) returns (total: int, summaries: seq<SubmissionSummary>)
    requires forall id | id in ids :: id in s.submissions
    ensures total == ItemsIn(s, ids) && summaries == SummariesOf(s, ids)
  {
    total, summaries := 0, [];
    for i := 0 to |ids|
      invariant total == ItemsIn(s, ids[..i])
      invariant summaries == SummariesOf(s, ids[..i])
    {
      var record := s.submissions[ids[i]];
      total := total + record.itemCount;
      summaries := summaries + [
        SubmissionSummary(record.submissionId, record.tenantId, record.runReference, record.quarter,
                          record.taxYear, record.returnType, record.status, record.receivedAt,
                          record.itemCount)];
      assert ids[..i + 1][..i] == ids[..i];
    }
    assert ids[..|ids|] == ids;
  }

  /** The loop of a listing: visit the records in any order and keep those that match. */
  method Collect(submissions: map<string, SubmissionRecord>, holdingNumber: string, taxYear: int, quarter: int)
    returns (results: seq<SubmissionSummary>)
    requires forall id | id in submissions :: submissions[id].submissionId == id
    ensures multiset(results)
            == multiset(ListedFrom(submissions, submissions.Keys, holdingNumber, taxYear, quarter))
  {
    results := [];
    var pending := submissions.Keys;
    while pending != {}
      invariant pending <= submissions.Keys
      invariant multiset(results)
                == multiset(ListedFrom(submissions, submissions.Keys - pending, holdingNumber, taxYear, quarter))
      decreases pending
    {
      var id :| id in pending;
      ghost var done := submissions.Keys - pending;
      pending := pending - {id};
      ListedFromStep(submissions, done, id, holdingNumber, taxYear, quarter);
      assert submissions.Keys - pending == done + {id};
      var record := submissions[id];
      if record.holdingNumber == holdingNumber
         && !(taxYear > 0 && record.taxYear != taxYear)
         && !(quarter > 0 && record.quarter != quarter)
      {
        results := results + [Summary(record)];
      }
    }
    assert submissions.Keys - {} == submissions.Keys;
  }

  /** The summaries a listing returns from the records with these ids. */
  function ListedFrom(submissions: map<string, SubmissionRecord>, ids: set<string>,
                      holdingNumber: string, taxYear: int, quarter: int): set<SubmissionSummary>
  {
    set id | id in ids && id in submissions && Matches(submissions[id], holdingNumber, taxYear, quarter) ::
      Summary(submissions[id])
  }

  lemma ListedFromStep(submissions: map<string, SubmissionRecord>, ids: set<string>, id: string,
                       holdingNumber: string, taxYear: int, quarter: int)
    requires forall k | k in submissions :: submissions[k].submissionId == k
    requires id in submissions && id !in ids
    ensures multiset(ListedFrom(submissions, ids + {id}, holdingNumber, taxYear, quarter))
            == multiset(ListedFrom(submissions, ids, holdingNumber, taxYear, quarter))
               + (if Matches(submissions[id], holdingNumber, taxYear, quarter)
                  then multiset{Summary(submissions[id])} else multiset{})
  {
    var before := ListedFrom(submissions, ids, holdingNumber, taxYear, quarter);
    var after := ListedFrom(submissions, ids + {id}, holdingNumber, taxYear, quarter);
    if Matches(submissions[id], holdingNumber, taxYear, quarter) {
      assert Summary(submissions[id]) !in before;
      assert after == before + {Summary(submissions[id])};
    } else {
      assert after == before;
    }
  }
}
