/** The entities of the submission store. */
module Records {
  import opened Sorting

  datatype ValidationItem = ValidationItem(code: string, field: string)

  datatype ClientIdentity = ClientIdentity(holdingNumber: string, softwareUsed: string, softwareVersion: string)

  datatype CreateParams = CreateParams(
    tenantId: string,
    submissionId: string,
    runReference: string,
    holdingNumber: string,
    taxYear: int,
    quarter: int,
    returnType: string,
    body: string,
    itemCount: int,
    warnings: seq<ValidationItem>,
    client: ClientIdentity,
    contactEmail: string,
    contactPhone: string,
    comments: string)

  datatype SubmissionRecord = SubmissionRecord(
    submissionId: string,
    tenantId: string,
    runReference: string,
    holdingNumber: string,
    taxYear: int,
    quarter: int,
    returnType: string,
    status: string,
    receivedAt: real,
    softwareUsed: string,
    softwareVersion: string,
    itemCount: int,
    body: string,
    warnings: seq<ValidationItem>,
    contactEmail: string,
    contactPhone: string,
    comments: string)

  datatype CreateResult = CreateResult(
    submissionId: string,
    runReference: string,
    status: string,
    receivedAt: real,
    itemCount: int,
    warnings: seq<ValidationItem>)

  datatype SubmissionSummary = SubmissionSummary(
    submissionId: string,
    tenantId: string,
    runReference: string,
    quarter: int,
    taxYear: int,
    returnType: string,
    status: string,
    receivedAt: real,
    itemCount: int)

  datatype RunStatus = RunStatus(
    runReference: string,
    totalSubmissions: nat,
    totalItems: int,
    submissions: seq<SubmissionSummary>)

  /** The record a call builds before it takes the lock. */
  function NewRecord(p: CreateParams, receivedAt: real): SubmissionRecord {
    SubmissionRecord(
      p.submissionId, p.tenantId, p.runReference, p.holdingNumber, p.taxYear, p.quarter,
      p.returnType, "RECEIVED", receivedAt, p.client.softwareUsed, p.client.softwareVersion,
      p.itemCount, p.body, p.warnings, p.contactEmail, p.contactPhone, p.comments)
  }

  /** The response to a call that stored its own record. */
  function NewResult(p: CreateParams, receivedAt: real): CreateResult {
    CreateResult(p.submissionId, p.runReference, "RECEIVED", receivedAt, p.itemCount, p.warnings)
  }

  /** The response that describes a stored record. */
  function ResultOf(r: SubmissionRecord): CreateResult {
    CreateResult(r.submissionId, r.runReference, r.status, r.receivedAt, r.itemCount, r.warnings)
  }

  function Summary(r: SubmissionRecord): SubmissionSummary {
    SubmissionSummary(r.submissionId, r.tenantId, r.runReference, r.quarter, r.taxYear,
                      r.returnType, r.status, r.receivedAt, r.itemCount)
  }

  /** The filters of a listing; a year or quarter that is not positive filters nothing. */
  predicate Matches(r: SubmissionRecord, holdingNumber: string, taxYear: int, quarter: int) {
    && r.holdingNumber == holdingNumber
    && (taxYear > 0 ==> r.taxYear == taxYear)
    && (quarter > 0 ==> r.quarter == quarter)
  }

  function Age(s: SubmissionSummary): real {
    s.receivedAt
  }

  ghost predicate NewestFirst(s: seq<SubmissionSummary>) {
    forall i, j | 0 <= i < j < |s| :: s[i].receivedAt >= s[j].receivedAt
  }
}
