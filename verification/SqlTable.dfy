/**
 The submissions table of the SQL stores: typed cells, numbered placeholders
 and argument vectors.  Statements are lists of columns and values, as the
 texts passed to the driver are.
 */
module SqlTable {
  import opened Wrappers
  import opened Records

  datatype Column =
    | SubmissionId | TenantId | RunReference | HoldingNumber | TaxYear | Quarter
    | ReturnType | Status | ReceivedAt | SoftwareUsed | SoftwareVersion
    | ItemCount | Body | Warnings | ContactEmail | ContactPhone | Comments

  datatype Value =
    | Text(text: string)
    | Int(n: int)
    | Time(t: real)
    | Json(items: seq<ValidationItem>)
    | JsonNull
    | Null

  type Row = map<Column, Value>

  /** Rows by primary key. */
  type Table = map<Value, Row>

  datatype Dialect = Postgres | SqlServer

  // ---- Insertion ----

  datatype Cell = Param(n: nat) | Literal(v: Value)

  const INSERT_COLUMNS: seq<Column> :=
    [SubmissionId, TenantId, RunReference, HoldingNumber, TaxYear, Quarter,
     ReturnType, Status, ReceivedAt, SoftwareUsed, SoftwareVersion,
     ItemCount, Body, Warnings,
     ContactEmail, ContactPhone, Comments]

  const INSERT_CELLS: seq<Cell> :=
    [Param(1), Param(2), Param(3), Param(4), Param(5), Param(6), Param(7), Literal(Text("RECEIVED")),
     Param(8), Param(9), Param(10), Param(11), Param(12), Param(13), Param(14), Param(15), Param(16)]

  /** A slice without warnings is nil, and nil is encoded as `null`. */
  function EncodeWarnings(w: seq<ValidationItem>): Value {
    if w == [] then JsonNull else Json(w)
  }

  function InsertArgs(p: CreateParams, receivedAt: real): seq<Value> {
    [Text(p.submissionId), Text(p.tenantId), Text(p.runReference), Text(p.holdingNumber),
     Int(p.taxYear), Int(p.quarter), Text(p.returnType),
     Time(receivedAt), Text(p.client.softwareUsed), Text(p.client.softwareVersion),
     Int(p.itemCount), Text(p.body), EncodeWarnings(p.warnings),
     Text(p.contactEmail), Text(p.contactPhone), Text(p.comments)]
  }

  predicate InScope(cell: Cell, args: seq<Value>) {
    cell.Param? ==> 1 <= cell.n <= |args|
  }

  function CellValue(cell: Cell, args: seq<Value>): Value
    requires InScope(cell, args)
  {
    match cell
    case Param(n) => args[n - 1]
    case Literal(v) => v
  }

  /** The row an INSERT builds: the k-th column gets the k-th value. */
  function Bind(columns: seq<Column>, cells: seq<Cell>, args: seq<Value>): (row: Row)
    requires |columns| == |cells|
    requires forall i, j | 0 <= i < j < |columns| :: columns[i] != columns[j]
    requires forall i | 0 <= i < |cells| :: InScope(cells[i], args)
    ensures forall i | 0 <= i < |columns| :: columns[i] in row && row[columns[i]] == CellValue(cells[i], args)
    ensures forall c | c in row :: c in columns
  {
    map i | 0 <= i < |columns| :: columns[i] := CellValue(cells[i], args)
  }

  function NewRow(p: CreateParams, receivedAt: real): Row {
    Bind(INSERT_COLUMNS, INSERT_CELLS, InsertArgs(p, receivedAt))
  }

  /**
   Insert unless the key is taken: PostgreSQL looks for a conflict on the new
   row's key column, SQL Server looks up the first argument beforehand.
   */
  function InsertIfAbsent(d: Dialect, table: Table, p: CreateParams, receivedAt: real): Table {
    var row := NewRow(p, receivedAt);
    assert SubmissionId == INSERT_COLUMNS[0];
    match d
    case Postgres =>
      if row[SubmissionId] in table then table else table[row[SubmissionId] := row]
    case SqlServer =>
      if InsertArgs(p, receivedAt)[0] in table then table else table[row[SubmissionId] := row]
  }

  // ---- Queries ----

  /** `column = placeholder`; placeholders are numbered from 1. */
  datatype Condition = Condition(column: Column, placeholder: nat)

  predicate Holds(row: Row, c: Condition, args: seq<Value>) {
    1 <= c.placeholder <= |args| && c.column in row && row[c.column] == args[c.placeholder - 1]
  }

  predicate Satisfies(row: Row, where: seq<Condition>, args: seq<Value>) {
    forall c | c in where :: Holds(row, c, args)
  }

  /** Every placeholder names an argument. */
  ghost predicate WellNumbered(where: seq<Condition>, args: seq<Value>) {
    forall c | c in where :: 1 <= c.placeholder <= |args|
  }

  function Selected(table: Table, where: seq<Condition>, args: seq<Value>): set<Row> {
    set k | k in table && Satisfies(table[k], where, args) :: table[k]
  }

  /** ORDER BY received_at DESC. */
  function Received(row: Row): real {
    if ReceivedAt in row && row[ReceivedAt].Time? then row[ReceivedAt].t else 0.0
  }

  // ---- Scanning ----

  const RECORD_COLUMNS: seq<Column> :=
    [SubmissionId, TenantId, RunReference, HoldingNumber, TaxYear, Quarter,
     ReturnType, Status, ReceivedAt, SoftwareUsed, SoftwareVersion,
     ItemCount, Body, Warnings,
     ContactEmail, ContactPhone, Comments]

  const SUMMARY_COLUMNS: seq<Column> :=
    [SubmissionId, TenantId, RunReference, Quarter, TaxYear,
     ReturnType, Status, ReceivedAt, ItemCount]

  function Project(row: Row, columns: seq<Column>): seq<Value> {
    seq(|columns|, i requires 0 <= i < |columns| => Get(row, columns[i]))
  }

  predicate Nullable(v: Value) {
    v.Text? || v.Null?
  }

  function OrEmpty(v: Value): string {
    if v.Text? then v.text else ""
  }

  /** `null` and an absent value leave the warnings nil. */
  function DecodeWarnings(v: Value): seq<ValidationItem> {
    if v.Json? then v.items else []
  }

  /** Scan one full row by position; None is a scan error. */
  function ScanSubmission(v: seq<Value>): Option<SubmissionRecord> {
    if |v| == 17
       && v[0].Text? && v[1].Text? && v[2].Text? && v[3].Text?
       && v[4].Int? && v[5].Int? && v[6].Text? && v[7].Text? && v[8].Time?
       && Nullable(v[9]) && Nullable(v[10]) && v[11].Int? && v[12].Text?
       && (v[13].Json? || v[13].JsonNull? || v[13].Null?)
       && Nullable(v[14]) && Nullable(v[15]) && Nullable(v[16])
    then
      Some(SubmissionRecord(
             v[0].text, v[1].text, v[2].text, v[3].text, v[4].n, v[5].n, v[6].text, v[7].text, v[8].t,
             OrEmpty(v[9]), OrEmpty(v[10]), v[11].n, v[12].text, DecodeWarnings(v[13]),
             OrEmpty(v[14]), OrEmpty(v[15]), OrEmpty(v[16])))
    else None
  }

  /** Scan one summary row by position. */
  function ScanSummary(v: seq<Value>): Option<SubmissionSummary> {
    if |v| == 9
       && v[0].Text? && v[1].Text? && v[2].Text? && v[3].Int? && v[4].Int?
       && v[5].Text? && v[6].Text? && v[7].Time? && v[8].Int?
    then
      Some(SubmissionSummary(v[0].text, v[1].text, v[2].text, v[3].n, v[4].n,
                             v[5].text, v[6].text, v[7].t, v[8].n))
    else None
  }

  // ---- Rows and records ----

  function Get(row: Row, c: Column): Value {
    if c in row then row[c] else Null
  }

  /** The cell a record has under a column. */
  function Field(r: SubmissionRecord, c: Column): Value {
    match c
    case SubmissionId => Text(r.submissionId)
    case TenantId => Text(r.tenantId)
    case RunReference => Text(r.runReference)
    case HoldingNumber => Text(r.holdingNumber)
    case TaxYear => Int(r.taxYear)
    case Quarter => Int(r.quarter)
    case ReturnType => Text(r.returnType)
    case Status => Text(r.status)
    case ReceivedAt => Time(r.receivedAt)
    case SoftwareUsed => Text(r.softwareUsed)
    case SoftwareVersion => Text(r.softwareVersion)
    case ItemCount => Int(r.itemCount)
    case Body => Text(r.body)
    case Warnings => EncodeWarnings(r.warnings)
    case ContactEmail => Text(r.contactEmail)
    case ContactPhone => Text(r.contactPhone)
    case Comments => Text(r.comments)
  }

  /** The row stores the record, column by column. */
  ghost predicate Stores(row: Row, r: SubmissionRecord) {
    forall c: Column :: Get(row, c) == Field(r, c)
  }

  /** Where a column stands in the INSERT. */
  function Position(c: Column): (k: nat)
    ensures k < 17
  {
    match c
    case SubmissionId => 0
    case TenantId => 1
    case RunReference => 2
    case HoldingNumber => 3
    case TaxYear => 4
    case Quarter => 5
    case ReturnType => 6
    case Status => 7
    case ReceivedAt => 8
    case SoftwareUsed => 9
    case SoftwareVersion => 10
    case ItemCount => 11
    case Body => 12
    case Warnings => 13
    case ContactEmail => 14
    case ContactPhone => 15
    case Comments => 16
  }

  lemma ColumnAtPosition(c: Column)
    ensures INSERT_COLUMNS[Position(c)] == c
  {
  }

  /** Every column is paired with the argument that is meant for it. */
  lemma CellAtPosition(c: Column, p: CreateParams, at: real)
    ensures CellValue(INSERT_CELLS[Position(c)], InsertArgs(p, at)) == Field(NewRecord(p, at), c)
  {
  }

  /** The statement puts each argument under the column it is meant for. */
  lemma CellIsField(c: Column, p: CreateParams, at: real)
    ensures Get(NewRow(p, at), c) == Field(NewRecord(p, at), c)
  {
    ColumnAtPosition(c);
    CellAtPosition(c, p, at);
  }

  lemma NewRowStoresRecord(p: CreateParams, at: real)
    ensures Stores(NewRow(p, at), NewRecord(p, at))
  {
    forall c: Column
      ensures Get(NewRow(p, at), c) == Field(NewRecord(p, at), c)
    {
      CellIsField(c, p, at);
    }
  }

  /** The row an INSERT adds, column by column. */
  lemma InsertedCell(p: CreateParams, at: real, c: Column)
    ensures Get(NewRow(p, at), c) ==
            match c
            case SubmissionId => Text(p.submissionId)
            case TenantId => Text(p.tenantId)
            case RunReference => Text(p.runReference)
            case HoldingNumber => Text(p.holdingNumber)
            case TaxYear => Int(p.taxYear)
            case Quarter => Int(p.quarter)
            case ReturnType => Text(p.returnType)
            case Status => Text("RECEIVED")
            case ReceivedAt => Time(at)
            case SoftwareUsed => Text(p.client.softwareUsed)
            case SoftwareVersion => Text(p.client.softwareVersion)
            case ItemCount => Int(p.itemCount)
            case Body => Text(p.body)
            case Warnings => if p.warnings == [] then JsonNull else Json(p.warnings)
            case ContactEmail => Text(p.contactEmail)
            case ContactPhone => Text(p.contactPhone)
            case Comments => Text(p.comments)
  {
    CellIsField(c, p, at);
  }

  /** What is scanned back is what was stored. */
  lemma ScanRoundTrip(row: Row, r: SubmissionRecord)
    requires Stores(row, r)
    ensures ScanSubmission(Project(row, RECORD_COLUMNS)) == Some(r)
  {
    var v := Project(row, RECORD_COLUMNS);
    forall c: Column
      ensures v[Position(c)] == Field(r, c)
    {
      assert RECORD_COLUMNS[Position(c)] == c;
      assert Get(row, c) == Field(r, c);
    }
    ScannedByPosition(v, r);
  }

  lemma ScannedByPosition(v: seq<Value>, r: SubmissionRecord)
    requires |v| == 17 && forall c: Column :: v[Position(c)] == Field(r, c)
    ensures ScanSubmission(v) == Some(r)
  {
    FirstNine(v, r);
    LastEight(v, r);
  }

  lemma FirstNine(v: seq<Value>, r: SubmissionRecord)
    requires |v| == 17 && forall c: Column :: v[Position(c)] == Field(r, c)
    ensures v[0] == Text(r.submissionId) && v[1] == Text(r.tenantId) && v[2] == Text(r.runReference)
    ensures v[3] == Text(r.holdingNumber) && v[4] == Int(r.taxYear) && v[5] == Int(r.quarter)
    ensures v[6] == Text(r.returnType) && v[7] == Text(r.status) && v[8] == Time(r.receivedAt)
  {
    assert Field(r, SubmissionId) == v[0] && Field(r, TenantId) == v[1] && Field(r, RunReference) == v[2];
    assert Field(r, HoldingNumber) == v[3] && Field(r, TaxYear) == v[4] && Field(r, Quarter) == v[5];
    assert Field(r, ReturnType) == v[6] && Field(r, Status) == v[7] && Field(r, ReceivedAt) == v[8];
  }

  lemma LastEight(v: seq<Value>, r: SubmissionRecord)
    requires |v| == 17 && forall c: Column :: v[Position(c)] == Field(r, c)
    ensures v[9] == Text(r.softwareUsed) && v[10] == Text(r.softwareVersion) && v[11] == Int(r.itemCount)
    ensures v[12] == Text(r.body) && v[13] == EncodeWarnings(r.warnings) && v[14] == Text(r.contactEmail)
    ensures v[15] == Text(r.contactPhone) && v[16] == Text(r.comments)
  {
    assert Field(r, SoftwareUsed) == v[9] && Field(r, SoftwareVersion) == v[10] && Field(r, ItemCount) == v[11];
    assert Field(r, Body) == v[12] && Field(r, Warnings) == v[13] && Field(r, ContactEmail) == v[14];
    assert Field(r, ContactPhone) == v[15] && Field(r, Comments) == v[16];
  }

  /** The cells of a full row that may be NULL: software, warnings, contacts and comments. */
  predicate MayBeNull(k: nat) {
    k == 9 || k == 10 || k == 13 || k == 14 || k == 15 || k == 16
  }

  /**
   A row that scans still does with one cell NULL exactly when that cell may
   be, and then its field is read as empty.
   */
  lemma NullCellScansIff(v: seq<Value>, k: nat)
    requires k < |v| && ScanSubmission(v).Some?
    ensures var r, s := ScanSubmission(v).value, ScanSubmission(v[k := Null]);
            && (s.Some? <==> MayBeNull(k))
            && (s.Some? ==>
                  s.value == match k
                             case 9 => r.(softwareUsed := "")
                             case 10 => r.(softwareVersion := "")
                             case 13 => r.(warnings := [])
                             case 14 => r.(contactEmail := "")
                             case 15 => r.(contactPhone := "")
                             case _ => r.(comments := ""))
  {
    if MayBeNull(k) {
      NullCellScans(v, k);
    } else {
      assert v[k := Null][k] == Null;
    }
  }

  lemma NullCellScans(v: seq<Value>, k: nat)
    requires k < |v| && ScanSubmission(v).Some? && MayBeNull(k)
    ensures var r := ScanSubmission(v).value;
            ScanSubmission(v[k := Null])
            == Some(match k
                    case 9 => r.(softwareUsed := "")
                    case 10 => r.(softwareVersion := "")
                    case 13 => r.(warnings := [])
                    case 14 => r.(contactEmail := "")
                    case 15 => r.(contactPhone := "")
                    case _ => r.(comments := ""))
  {
  }

  lemma SummaryRoundTrip(row: Row, r: SubmissionRecord)
    requires Stores(row, r)
    ensures ScanSummary(Project(row, SUMMARY_COLUMNS)) == Some(Summary(r))
  {
    var v := Project(row, SUMMARY_COLUMNS);
    assert forall i | 0 <= i < 9 :: v[i] == Field(r, SUMMARY_COLUMNS[i]);
  }

  /** A stored record comes back from an INSERT followed by a SELECT unchanged. */
  lemma InsertThenSelect(p: CreateParams, at: real)
    ensures ScanSubmission(Project(NewRow(p, at), RECORD_COLUMNS)) == Some(NewRecord(p, at))
    ensures ScanSummary(Project(NewRow(p, at), SUMMARY_COLUMNS)) == Some(Summary(NewRecord(p, at)))
  {
    NewRowStoresRecord(p, at);
    ScanRoundTrip(NewRow(p, at), NewRecord(p, at));
    SummaryRoundTrip(NewRow(p, at), NewRecord(p, at));
  }
}
