/**
 The SQL stores.  They keep the same records as the in-memory store and answer
 every read alike, whichever way the engine orders ties.
 */
module SqlStore {
  import opened Wrappers
  import opened Sorting
  import opened Records
  import opened StoreHistory
  import opened StoreReads
  import opened SqlTable

  function TableAfter(d: Dialect, h: seq<Call>): Table {
    if h == [] then map[]
    else InsertIfAbsent(d, TableAfter(d, h[..|h| - 1]), h[|h| - 1].p, h[|h| - 1].at)
  }

  /** The table has a row for each record, under its id, and no other. */
  ghost predicate Represents(table: Table, records: map<string, SubmissionRecord>) {
    && (forall k | k in table :: k.Text? && k.text in records && Stores(table[k], records[k.text]))
    && (forall id | id in records :: Text(id) in table)
  }

  /** The two dialects' guards come to the same. */
  lemma DialectsAgree(d: Dialect, table: Table, p: CreateParams, at: real)
    ensures InsertIfAbsent(d, table, p, at)
            == if Text(p.submissionId) in table then table else table[Text(p.submissionId) := NewRow(p, at)]
  {
    CellIsField(SubmissionId, p, at);
  }

  lemma InsertRepresents(d: Dialect, table: Table, s: State, c: Call)
    requires Represents(table, s.submissions)
    ensures Represents(InsertIfAbsent(d, table, c.p, c.at), Stored(s, c).submissions)
  {
    DialectsAgree(d, table, c.p, c.at);
    if c.p.submissionId !in s.submissions {
      NewRowStoresRecord(c.p, c.at);
      RepresentsOneMore(table, s.submissions, c.p.submissionId, NewRow(c.p, c.at), NewRecord(c.p, c.at));
    }
  }

  lemma RepresentsOneMore(table: Table, records: map<string, SubmissionRecord>, id: string,
                          row: Row, r: SubmissionRecord)
    requires Represents(table, records) && Stores(row, r)
    ensures Represents(table[Text(id) := row], records[id := r])
  {
  }

  /** Under either dialect the table holds the records of the in-memory store. */
  lemma {:induction false} TableRefinesStore(d: Dialect, h: seq<Call>)
    ensures Represents(TableAfter(d, h), After(h).submissions)
  {
    if h == [] {
    } else {
      TableRefinesStore(d, h[..|h| - 1]);
      InsertRepresents(d, TableAfter(d, h[..|h| - 1]), After(h[..|h| - 1]), h[|h| - 1]);
    }
  }

  /** The call gives what a response shows exactly as the first call with its id gave it. */
  ghost predicate RepeatsFirst(h: seq<Call>, c: Call) {
    exists i: nat ::
      && IsFirst(h, i) && h[i].p.submissionId == c.p.submissionId
      && h[i].p.runReference == c.p.runReference && h[i].at == c.at
      && h[i].p.itemCount == c.p.itemCount && h[i].p.warnings == c.p.warnings
  }

  /**
   On a repeated id the SQL stores answer with the new call's values.  One
   call's answer is the in-memory store's exactly when its id is new or it repeats
   the first call to the instant; for every clock reading, only when its id is new.
   */
  lemma SqlResponseAgreesIff(h: seq<Call>, c: Call)
    ensures NewResult(c.p, c.at) == Response(After(h), c) <==> !Seen(h, c.p.submissionId) || RepeatsFirst(h, c)
    ensures (forall at :: NewResult(c.p, at) == Response(After(h), Call(c.p, at))) <==> !Seen(h, c.p.submissionId)
  {
    StoredIffSeen(h, c.p.submissionId);
    if Seen(h, c.p.submissionId) {
      var i := HasFirst(h, c.p.submissionId);
      FirstCallWins(h, i);
      assert forall j: nat | IsFirst(h, j) && h[j].p.submissionId == c.p.submissionId :: j == i;
      var at := After(h).submissions[c.p.submissionId].receivedAt + 1.0;
      assert NewResult(c.p, at) != Response(After(h), Call(c.p, at));
    }
  }

  /** Sending the same submission again a second later is answered with a new time of receipt. */
  lemma RepeatIsAnsweredAnew(p: CreateParams)
    ensures Response(After([Call(p, 1.0)]), Call(p, 2.0)) == NewResult(p, 1.0) != NewResult(p, 2.0)
  {
    assert IsFirst([Call(p, 1.0)], 0);
    FirstCallWins([Call(p, 1.0)], 0);
  }

  // ---- Sums of summaries ----

  function SumItems(s: seq<SubmissionSummary>): int {
    if s == [] then 0 else SumItems(s[..|s| - 1]) + s[|s| - 1].itemCount
  }

  lemma SumItemsAppend(s: seq<SubmissionSummary>, x: SubmissionSummary)
    ensures SumItems(s + [x]) == SumItems(s) + x.itemCount
  {
    assert (s + [x])[..|s|] == s;
  }

  lemma {:induction false} SumItemsWithout(s: seq<SubmissionSummary>, k: nat)
    requires k < |s|
    ensures SumItems(s) == SumItems(s[..k] + s[k + 1..]) + s[k].itemCount
  {
    var n := |s| - 1;
    var rest := s[..k] + s[k + 1..];
    if k == n {
      assert rest == s[..n];
    } else {
      SumItemsWithout(s[..n], k);
      assert rest[..n - 1] == s[..n][..k] + s[..n][k + 1..];
      assert rest[n - 1] == s[n];
    }
  }

  lemma Cancel<T>(a: multiset<T>, b: multiset<T>, x: T)
    requires a + multiset{x} == b + multiset{x}
    ensures a == b
  {
    assert a == (a + multiset{x}) - multiset{x};
    assert b == (b + multiset{x}) - multiset{x};
  }

  /** Order does not matter to the total. */
  lemma {:induction false} SumItemsPermuted(a: seq<SubmissionSummary>, b: seq<SubmissionSummary>)
    requires multiset(a) == multiset(b)
    ensures SumItems(a) == SumItems(b)
  {
    if a == [] {
      assert |multiset(b)| == |b|;
    } else {
      var n := |a| - 1;
      assert a[n] in multiset(b);
      var k: nat :| k < |b| && b[k] == a[n];
      var rest := b[..k] + b[k + 1..];
      assert a == a[..n] + [a[n]];
      assert multiset(a) == multiset(a[..n]) + multiset{a[n]};
      assert b == b[..k] + [b[k]] + b[k + 1..];
      assert multiset(b) == multiset(rest) + multiset{b[k]};
      Cancel(multiset(a[..n]), multiset(rest), a[n]);
      SumItemsPermuted(a[..n], rest);
      SumItemsWithout(b, k);
    }
  }

  lemma {:induction false} ItemsAreSummed(s: State, ids: seq<string>)
    requires forall id | id in ids :: id in s.submissions
    ensures ItemsIn(s, ids) == SumItems(SummariesOf(s, ids))
  {
    if ids == [] {
    } else {
      ItemsAreSummed(s, ids[..|ids| - 1]);
      assert SummariesOf(s, ids)[..|ids| - 1] == SummariesOf(s, ids[..|ids| - 1]);
    }
  }

  // ---- Query results ----

  function SummariesAt(records: map<string, SubmissionRecord>, ids: set<string>): set<SubmissionSummary> {
    set id | id in ids && id in records :: Summary(records[id])
  }

  function IdsInRun(s: State, run: string): set<string> {
    set id | id in s.submissions && s.submissions[id].runReference == run
  }

  /** In memory, a run's summaries are those of the records that name it. */
  lemma RunListsItsRecords(s: State, run: string)
    requires Indexed(s) && Resolves(s)
    ensures run in s.runs <==> IdsInRun(s, run) != {}
    ensures run in s.runs ==>
            multiset(SummariesOf(s, s.runs[run])) == multiset(SummariesAt(s.submissions, IdsInRun(s, run)))
  {
    if run in s.runs {
      var ids := s.runs[run];
      var listed := SummariesOf(s, ids);
      assert ids[0] in IdsInRun(s, run);
      forall x
        ensures x in listed <==> x in SummariesAt(s.submissions, IdsInRun(s, run))
      {
        if x in SummariesAt(s.submissions, IdsInRun(s, run)) {
          var id :| id in IdsInRun(s, run) && x == Summary(s.submissions[id]);
          assert id in RunIds(s, run);
          var i :| 0 <= i < |ids| && ids[i] == id;
          assert listed[i] == x;
        }
        if x in listed {
          var i :| 0 <= i < |listed| && listed[i] == x;
          assert ids[i] in IdsInRun(s, run);
        }
      }
      forall i, j | 0 <= i < j < |ids|
        ensures listed[i] != listed[j]
      {
        assert ids[i] in ids && ids[j] in ids;
      }
      ListsEachOnce(listed, SummariesAt(s.submissions, IdsInRun(s, run)));
    }
  }

  function Scanned(row: Row): Option<SubmissionSummary> {
    ScanSummary(Project(row, SUMMARY_COLUMNS))
  }

  /** The rows scan, one by one, to these summaries. */
  ghost predicate ScansTo(rows: seq<Row>, summaries: seq<SubmissionSummary>) {
    |summaries| == |rows| && forall i | 0 <= i < |rows| :: Scanned(rows[i]) == Some(summaries[i])
  }

  lemma ScansOneMore(rows: seq<Row>, i: nat, summaries: seq<SubmissionSummary>, x: SubmissionSummary)
    requires i < |rows| && ScansTo(rows[..i], summaries) && Scanned(rows[i]) == Some(x)
    ensures ScansTo(rows[..i + 1], summaries + [x])
  {
  }

  /** The query selects the rows of exactly these records. */
  ghost predicate Selects(where: seq<Condition>, args: seq<Value>, records: map<string, SubmissionRecord>,
                          ids: set<string>)
  {
    && ids <= records.Keys
    && forall row, r | Stores(row, r) && r.submissionId in records && r == records[r.submissionId] ::
         Satisfies(row, where, args) <==> r.submissionId in ids
  }

  /** Every row is filed under its own key column. */
  ghost predicate Keyed(table: Table) {
    forall k | k in table :: Get(table[k], SubmissionId) == k
  }

  lemma RowsAreKeyed(d: Dialect, h: seq<Call>)
    ensures Keyed(TableAfter(d, h))
  {
    TableRefinesStore(d, h);
    IndexAgrees(h);
    var table, records := TableAfter(d, h), After(h).submissions;
    forall k | k in table
      ensures Get(table[k], SubmissionId) == k
    {
      assert Stores(table[k], records[k.text]);
      assert Get(table[k], SubmissionId) == Field(records[k.text], SubmissionId);
    }
  }

  lemma ScannedRow(d: Dialect, h: seq<Call>, where: seq<Condition>, args: seq<Value>, ids: set<string>, row: Row)
    returns (id: string)
    requires Selects(where, args, After(h).submissions, ids) && row in Selected(TableAfter(d, h), where, args)
    ensures id in ids && Text(id) in TableAfter(d, h) && row == TableAfter(d, h)[Text(id)]
    ensures Stores(row, After(h).submissions[id]) && After(h).submissions[id].submissionId == id
    ensures Scanned(row) == Some(Summary(After(h).submissions[id]))
  {
    var table, records := TableAfter(d, h), After(h).submissions;
    TableRefinesStore(d, h);
    IndexAgrees(h);
    var k :| k in table && Satisfies(table[k], where, args) && row == table[k];
    id := k.text;
    assert Stores(row, records[id]);
    SummaryRoundTrip(row, records[id]);
  }

  lemma RowOfRecord(d: Dialect, h: seq<Call>, where: seq<Condition>, args: seq<Value>, ids: set<string>, id: string)
    requires Selects(where, args, After(h).submissions, ids) && id in ids
    ensures Text(id) in TableAfter(d, h)
    ensures TableAfter(d, h)[Text(id)] in Selected(TableAfter(d, h), where, args)
    ensures Scanned(TableAfter(d, h)[Text(id)]) == Some(Summary(After(h).submissions[id]))
  {
    var table, records := TableAfter(d, h), After(h).submissions;
    TableRefinesStore(d, h);
    IndexAgrees(h);
    assert Stores(table[Text(id)], records[id]);
    SummaryRoundTrip(table[Text(id)], records[id]);
  }

  /** Every selected row scans, and is ordered by the time it scans to. */
  lemma RowsScan(d: Dialect, h: seq<Call>, where: seq<Condition>, args: seq<Value>, ids: set<string>, rows: seq<Row>)
    requires Selects(where, args, After(h).submissions, ids)
    requires multiset(rows) == multiset(Selected(TableAfter(d, h), where, args))
    ensures forall row | row in rows :: Scanned(row).Some? && Received(row) == Scanned(row).value.receivedAt
  {
    OnceEachIsDistinct(rows, Selected(TableAfter(d, h), where, args));
    forall row | row in rows
      ensures Scanned(row).Some? && Received(row) == Scanned(row).value.receivedAt
    {
      var id := ScannedRow(d, h, where, args, ids, row);
      assert Get(row, ReceivedAt) == Field(After(h).submissions[id], ReceivedAt);
    }
  }

  /** Whatever the engine's order, the scanned rows are the summaries of exactly those records, each once. */
  lemma ScannedRows(d: Dialect, h: seq<Call>, where: seq<Condition>, args: seq<Value>, ids: set<string>,
                    rows: seq<Row>, summaries: seq<SubmissionSummary>)
    requires Selects(where, args, After(h).submissions, ids)
    requires multiset(rows) == multiset(Selected(TableAfter(d, h), where, args))
    requires ScansTo(rows, summaries)
    ensures multiset(summaries) == multiset(SummariesAt(After(h).submissions, ids))
  {
    var records := After(h).submissions;
    OnceEachIsDistinct(rows, Selected(TableAfter(d, h), where, args));
    forall i, j | 0 <= i < j < |rows|
      ensures summaries[i] != summaries[j]
    {
      assert rows[i] in rows && rows[j] in rows;
      var a := ScannedRow(d, h, where, args, ids, rows[i]);
      var b := ScannedRow(d, h, where, args, ids, rows[j]);
    }
    forall x
      ensures x in summaries <==> x in SummariesAt(records, ids)
    {
      if x in summaries {
        var i :| 0 <= i < |summaries| && summaries[i] == x;
        assert rows[i] in rows;
        var id := ScannedRow(d, h, where, args, ids, rows[i]);
      }
      if x in SummariesAt(records, ids) {
        var id :| id in ids && id in records && x == Summary(records[id]);
        RowOfRecord(d, h, where, args, ids, id);
        var row := TableAfter(d, h)[Text(id)];
        assert row in rows;
        var i :| 0 <= i < |rows| && rows[i] == row;
        assert summaries[i] == x;
      }
    }
    ListsEachOnce(summaries, SummariesAt(records, ids));
  }

  lemma OrderIsScanned(rows: seq<Row>, summaries: seq<SubmissionSummary>)
    requires ScansTo(rows, summaries)
    requires forall row | row in rows :: Scanned(row).Some? && Received(row) == Scanned(row).value.receivedAt
    requires Descending(rows, Received)
    ensures NewestFirst(summaries)
  {
    forall i, j | 0 <= i < j < |summaries|
      ensures Age(summaries[i]) >= Age(summaries[j])
    {
      assert rows[i] in rows && rows[j] in rows && Received(rows[i]) >= Received(rows[j]);
    }
  }

  lemma KeySelectsOne(table: Table, key: Value)
    requires Keyed(table) && key != Null
    ensures Selected(table, [Condition(SubmissionId, 1)], [key]) == if key in table then {table[key]} else {}
  {
    var where, args := [Condition(SubmissionId, 1)], [key];
    forall k | k in table
      ensures Satisfies(table[k], where, args) <==> k == key
    {
      assert Get(table[k], SubmissionId) == k;
      assert where[0] in where;
    }
  }

  lemma ByIdSelectsOne(d: Dialect, h: seq<Call>, id: string)
    ensures var table, records := TableAfter(d, h), After(h).submissions;
            && (Text(id) in table <==> id in records)
            && Selected(table, [Condition(SubmissionId, 1)], [Text(id)])
               == (if id in records then {table[Text(id)]} else {})
            && (id in records ==> Stores(table[Text(id)], records[id]))
  {
    TableRefinesStore(d, h);
    RowsAreKeyed(d, h);
    KeySelectsOne(TableAfter(d, h), Text(id));
  }

  lemma ByRunSelects(s: State, run: string)
    ensures Selects([Condition(RunReference, 1)], [Text(run)], s.submissions, IdsInRun(s, run))
  {
    var where, args := [Condition(RunReference, 1)], [Text(run)];
    forall row, r | Stores(row, r) && r.submissionId in s.submissions && r == s.submissions[r.submissionId]
      ensures Satisfies(row, where, args) <==> r.submissionId in IdsInRun(s, run)
    {
      assert Get(row, RunReference) == Field(r, RunReference);
      assert where[0] in where;
    }
  }

  function ListedIds(s: State, holdingNumber: string, taxYear: int, quarter: int): set<string> {
    set id | id in s.submissions && Matches(s.submissions[id], holdingNumber, taxYear, quarter)
  }

  lemma ListedIdsSummaries(s: State, holdingNumber: string, taxYear: int, quarter: int)
    ensures SummariesAt(s.submissions, ListedIds(s, holdingNumber, taxYear, quarter))
            == Listed(s, holdingNumber, taxYear, quarter)
  {
  }

  /** The two stores' answers about a run, up to the order of its submissions. */
  ghost predicate SameRun(a: Result<RunStatus>, b: Result<RunStatus>) {
    match (a, b)
    case (Ok(x), Ok(y)) =>
      && x.runReference == y.runReference
      && x.totalSubmissions == y.totalSubmissions
      && x.totalItems == y.totalItems
      && multiset(x.submissions) == multiset(y.submissions)
    case (NotFound, NotFound) => true
    case _ => false
  }

  lemma RunAgrees(d: Dialect, h: seq<Call>, run: string, where: seq<Condition>, args: seq<Value>,
                  rows: seq<Row>, r: Result<RunStatus>)
    requires where == [Condition(RunReference, 1)] && args == [Text(run)]
    requires multiset(rows) == multiset(Selected(TableAfter(d, h), where, args))
    requires !r.Failed? && (r.NotFound? <==> rows == [])
    requires r.Ok? ==>
               var s := r.value.submissions;
               && r.value == RunStatus(run, |rows|, SumItems(s), s)
               && ScansTo(rows, s)
    ensures Resolves(After(h)) && SameRun(r, RunStatusOf(After(h), run))
  {
    var s := After(h);
    var summaries := if r.Ok? then r.value.submissions else [];
    IndexAgrees(h);
    ByRunSelects(s, run);
    ScannedRows(d, h, where, args, IdsInRun(s, run), rows, summaries);
    RunListsItsRecords(s, run);
    SameTotals(s, run, summaries);
  }

  lemma SameTotals(s: State, run: string, summaries: seq<SubmissionSummary>)
    requires Resolves(s)
    requires run in s.runs <==> IdsInRun(s, run) != {}
    requires run in s.runs ==>
               multiset(SummariesOf(s, s.runs[run])) == multiset(SummariesAt(s.submissions, IdsInRun(s, run)))
    requires multiset(summaries) == multiset(SummariesAt(s.submissions, IdsInRun(s, run)))
    ensures run in s.runs <==> summaries != []
    ensures run in s.runs ==>
              && |summaries| == |s.runs[run]|
              && SumItems(summaries) == ItemsIn(s, s.runs[run])
  {
    if run in s.runs {
      var listed := SummariesOf(s, s.runs[run]);
      SumItemsPermuted(summaries, listed);
      ItemsAreSummed(s, s.runs[run]);
      assert |multiset(summaries)| == |multiset(listed)|;
      var id :| id in IdsInRun(s, run);
      assert Summary(s.submissions[id]) in multiset(summaries);
    } else {
      assert SummariesAt(s.submissions, IdsInRun(s, run)) == {};
      assert |multiset(summaries)| == 0;
    }
  }

  /** Build the query of a listing, clause by clause. */
  method ListQuery(holdingNumber: string, taxYear: int, quarter: int)
    returns (where: seq<Condition>, args: seq<Value>)
    ensures WellNumbered(where, args)
    ensures forall row, r | Stores(row, r) ::
              Satisfies(row, where, args) <==>
              && r.holdingNumber == holdingNumber
              && (taxYear <= 0 || r.taxYear == taxYear)
              && (quarter <= 0 || r.quarter == quarter)
  {
    where, args := [Condition(HoldingNumber, 1)], [Text(holdingNumber)];
    if taxYear > 0 {
      args := args + [Int(taxYear)];
      where := where + [Condition(TaxYear, |args|)];
    }
    if quarter > 0 {
      args := args + [Int(quarter)];
      where := where + [Condition(Quarter, |args|)];
    }
    assert forall c | c in where ::
        || c == Condition(HoldingNumber, 1)
        || (taxYear > 0 && c == Condition(TaxYear, 2))
        || (quarter > 0 && c == Condition(Quarter, |args|));
    assert where[0] in where && where[|where| - 1] in where && (taxYear > 0 ==> where[1] in where);
    forall row, r | Stores(row, r)
      ensures Satisfies(row, where, args) <==> Matches(r, holdingNumber, taxYear, quarter)
    {
      assert Get(row, HoldingNumber) == Field(r, HoldingNumber);
      assert Get(row, TaxYear) == Field(r, TaxYear);
      assert Get(row, Quarter) == Field(r, Quarter);
      assert Holds(row, where[0], args) <==> r.holdingNumber == holdingNumber;
      assert taxYear > 0 ==> (Holds(row, where[1], args) <==> r.taxYear == taxYear);
      assert quarter > 0 ==> (Holds(row, where[|where| - 1], args) <==> r.quarter == quarter);
    }
  }

  /** The engine: some ordering, newest first, of exactly the selected rows. */
  method Execute(table: Table, where: seq<Condition>, args: seq<Value>) returns (rows: seq<Row>)
    requires Keyed(table)
    ensures multiset(rows) == multiset(Selected(table, where, args))
    ensures Descending(rows, Received)
  {
    rows := [];
    var pending := table.Keys;
    while pending != {}
      invariant pending <= table.Keys
      invariant multiset(rows) == multiset(Selected(table - pending, where, args))
      decreases pending
    {
      var k :| k in pending;
      ghost var before := table - pending;
      pending := pending - {k};
      assert table - pending == before[k := table[k]];
      SelectedStep(before, k, table[k], where, args);
      if Satisfies(table[k], where, args) {
        rows := rows + [table[k]];
      }
    }
    assert table - {} == table;
    rows := Sort(rows, Received);
  }

  lemma SelectedStep(table: Table, k: Value, row: Row, where: seq<Condition>, args: seq<Value>)
    requires Keyed(table)
    requires k !in table && Get(row, SubmissionId) == k
    ensures multiset(Selected(table[k := row], where, args))
            == multiset(Selected(table, where, args))
               + (if Satisfies(row, where, args) then multiset{row} else multiset{})
  {
    var before, after := Selected(table, where, args), Selected(table[k := row], where, args);
    forall x
      ensures x in after <==> x in before || (Satisfies(row, where, args) && x == row)
    {
      if x in before {
        var j :| j in table && Satisfies(table[j], where, args) && x == table[j];
        assert j in table[k := row];
      }
      if Satisfies(row, where, args) && x == row {
        assert k in table[k := row];
      }
    }
    if Satisfies(row, where, args) {
      assert row !in before;
      assert after == before + {row};
    } else {
      assert after == before;
    }
  }

  /** Scan every row; the first scan error ends the call. */
  method ScanSummaries(rows: seq<Row>) returns (r: Option<seq<SubmissionSummary>>)
    ensures r.Some? <==> forall row | row in rows :: Scanned(row).Some?
    ensures r.Some? ==> ScansTo(rows, r.value)
  {
    var summaries := [];
    for i := 0 to |rows|
      invariant ScansTo(rows[..i], summaries)
    {
      var s := Scanned(rows[i]);
      if s.None? {
        assert rows[i] in rows;
        return None;
      }
      ScansOneMore(rows, i, summaries, s.value);
      summaries := summaries + [s.value];
    }
    assert rows[..|rows|] == rows;
    return Some(summaries);
  }

  /** Scan the rows of a run and add up their items; no rows means no run. */
  method ScanRunStatus(rows: seq<Row>, run: string) returns (r: Result<RunStatus>)
    ensures r.Failed? <==> exists row :: row in rows && Scanned(row).None?
    ensures r.NotFound? <==> rows == []
    ensures r.Ok? ==>
              var s := r.value.submissions;
              r.value == RunStatus(run, |rows|, SumItems(s), s) && ScansTo(rows, s)
  {
    var total, submissions := 0, [];
    for i := 0 to |rows|
      invariant ScansTo(rows[..i], submissions) && total == SumItems(submissions)
    {
      var s := Scanned(rows[i]);
      if s.None? {
        assert rows[i] in rows;
        return Failed;
      }
      ScansOneMore(rows, i, submissions, s.value);
      SumItemsAppend(submissions, s.value);
      total := total + s.value.itemCount;
      submissions := submissions + [s.value];
    }
    assert rows[..|rows|] == rows;
    if |submissions| == 0 {
      return NotFound;
    }
    return Ok(RunStatus(run, |submissions|, total, submissions));
  }

  class Store {
    const dialect: Dialect
    var table: Table

    /** Every INSERT the database has executed. */
    ghost var history: seq<Call>

    ghost predicate Valid()
      reads this
    {
      table == TableAfter(dialect, history)
    }

    constructor (dialect: Dialect)
      ensures Valid() && history == []
    {
      this.dialect, table, history := dialect, map[], [];
    }

    /** Insert if absent; the response always carries this call's own values. */
    method Create(p: CreateParams, receivedAt: real) returns (r: CreateResult)
      requires Valid()
      modifies this
      ensures Valid() && history == old(history) + [Call(p, receivedAt)]
      ensures Represents(table, After(history).submissions)
      ensures r == CreateResult(p.submissionId, p.runReference, "RECEIVED", receivedAt, p.itemCount, p.warnings)
      ensures table == if Text(p.submissionId) in old(table) then old(table)
                       else old(table)[Text(p.submissionId) := NewRow(p, receivedAt)]
      ensures r == ResponseAt(history, |history| - 1)
              <==> !Seen(old(history), p.submissionId) || RepeatsFirst(old(history), Call(p, receivedAt))
    {
      SqlResponseAgreesIff(history, Call(p, receivedAt));
      assert (history + [Call(p, receivedAt)])[..|history|] == history;
      DialectsAgree(dialect, table, p, receivedAt);
      table := InsertIfAbsent(dialect, table, p, receivedAt);
      history := history + [Call(p, receivedAt)];
      TableRefinesStore(dialect, history);
      return CreateResult(p.submissionId, p.runReference, "RECEIVED", receivedAt, p.itemCount, p.warnings);
    }

    /** The same answer as the in-memory store's. */
    method GetByID(id: string) returns (r: Result<SubmissionRecord>)
      requires Valid()
      ensures r == if id in After(history).submissions then Ok(After(history).submissions[id]) else NotFound
    {
      var where, args := [Condition(SubmissionId, 1)], [Text(id)];
      RowsAreKeyed(dialect, history);
      var rows := Execute(table, where, args);
      OnceEachIsDistinct(rows, Selected(table, where, args));
      ByIdSelectsOne(dialect, history, id);
      if |rows| == 0 {
        assert Selected(table, where, args) == {};
        return NotFound;
      }
      assert rows[0] in rows;
      var s := ScanSubmission(Project(rows[0], RECORD_COLUMNS));
      ScanRoundTrip(rows[0], After(history).submissions[id]);
      return if s.Some? then Ok(s.value) else Failed;
    }

    /** The same answer as the in-memory store's, newest submission first. */
    method GetRun(run: string) returns (r: Result<RunStatus>)
      requires Valid()
      ensures Resolves(After(history)) && SameRun(r, RunStatusOf(After(history), run))
      ensures SameRun(r, StatusTold(history, run))
      ensures r.Ok? ==> NewestFirst(r.value.submissions)
    {
      RunIsExact(history, run);
      var where, args := [Condition(RunReference, 1)], [Text(run)];
      RowsAreKeyed(dialect, history);
      var rows := Execute(table, where, args);
      ByRunSelects(After(history), run);
      RowsScan(dialect, history, where, args, IdsInRun(After(history), run), rows);
      r := ScanRunStatus(rows, run);
      RunAgrees(dialect, history, run, where, args, rows, r);
      if r.Ok? {
        OrderIsScanned(rows, r.value.submissions);
      }
    }

    /** The same listing as the in-memory store's, newest first. */
    method List(holdingNumber: string, taxYear: int, quarter: int) returns (r: Result<seq<SubmissionSummary>>)
      requires Valid()
      ensures r.Ok? && NewestFirst(r.value)
      ensures multiset(r.value) == multiset(Listed(After(history), holdingNumber, taxYear, quarter))
      ensures NoDuplicates(r.value)
      ensures forall x :: x in r.value <==> ListedBy(history, holdingNumber, taxYear, quarter, x)
    {
      var where, args := ListQuery(holdingNumber, taxYear, quarter);
      RowsAreKeyed(dialect, history);
      var rows := Execute(table, where, args);
      ghost var ids := ListedIds(After(history), holdingNumber, taxYear, quarter);
      assert Selects(where, args, After(history).submissions, ids);
      RowsScan(dialect, history, where, args, ids, rows);
      var scanned := ScanSummaries(rows);
      if scanned.None? {
        return Failed;
      }
      ScannedRows(dialect, history, where, args, ids, rows, scanned.value);
      ListedIdsSummaries(After(history), holdingNumber, taxYear, quarter);
      var sorted := Sort(scanned.value, Age);
      OnceEachIsDistinct(sorted, Listed(After(history), holdingNumber, taxYear, quarter));
      forall x
        ensures x in sorted <==> ListedBy(history, holdingNumber, taxYear, quarter, x)
      {
        ListingIsExact(history, holdingNumber, taxYear, quarter, x);
      }
      return Ok(sorted);
    }
  }

}
