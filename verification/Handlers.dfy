/**
 The submission handlers: the gates a request passes before it is stored, and
 what that says about every record that can be stored at all.
 */
module Handlers {
  import opened Wrappers
  import opened Records
  import opened StoreHistory
  import opened StoreReads
  import opened Ehecs
  import opened EhecsLaws
  import MemoryStore

  /** A survey type, as the pipeline uses it; bodies are raw bytes. */
  datatype Tenant = Tenant(
    validateSchema: string -> seq<ValidationItem>,
    validateLogic: string -> (seq<ValidationItem>, seq<ValidationItem>),
    itemCount: string -> int)

  /** The fields all tenants' bodies share; decoding never fails, it leaves fields empty. */
  datatype Meta = Meta(returnType: string, contactEmail: string, contactPhone: string, comments: string)

  /** What the service is started with: its tenants and the decoder of the shared fields. */
  datatype Setup = Setup(registry: map<string, Tenant>, decodeMeta: string -> Meta)

  /** A request with its verified client; `body` is None when it cannot be read. */
  datatype Request = Request(
    tenantId: string,
    holdingNumber: string,
    taxYear: int,
    quarter: int,
    runReference: string,
    submissionId: string,
    client: ClientIdentity,
    body: Option<string>)

  datatype Response =
    | Forbidden
    | UnknownTenant
    | Unreadable
    | Invalid(errors: seq<ValidationItem>)
    | Unprocessable(errors: seq<ValidationItem>, warnings: seq<ValidationItem>)
    | Created(result: CreateResult)

  datatype Admission = Rejected(response: Response) | Admitted(p: CreateParams)

  /** The gates, in order. */
  function Admit(setup: Setup, q: Request): Admission {
    if q.holdingNumber != q.client.holdingNumber then Rejected(Forbidden)
    else if q.tenantId !in setup.registry then Rejected(UnknownTenant)
    else if q.body.None? then Rejected(Unreadable)
    else
      var t, raw := setup.registry[q.tenantId], q.body.value;
      if t.validateSchema(raw) != [] then Rejected(Invalid(t.validateSchema(raw)))
      else
        var (errors, warnings) := t.validateLogic(raw);
        if errors != [] then Rejected(Unprocessable(errors, warnings))
        else
          var meta := setup.decodeMeta(raw);
          Admitted(CreateParams(
                     q.tenantId, q.submissionId, q.runReference, q.holdingNumber, q.taxYear, q.quarter,
                     meta.returnType, raw, t.itemCount(raw), warnings, q.client,
                     meta.contactEmail, meta.contactPhone, meta.comments))
  }

  /** The client may file for this holder, the tenant is known and the body was read. */
  predicate ReachesValidation(setup: Setup, q: Request) {
    q.holdingNumber == q.client.holdingNumber && q.tenantId in setup.registry && q.body.Some?
  }

  /** The answer each request is due: the first gate that fails refuses it, with that gate's findings. */
  predicate IsDue(setup: Setup, q: Request, r: Response) {
    && (r == Forbidden <==> q.holdingNumber != q.client.holdingNumber)
    && (r == UnknownTenant <==> q.holdingNumber == q.client.holdingNumber && q.tenantId !in setup.registry)
    && (r == Unreadable <==>
          q.holdingNumber == q.client.holdingNumber && q.tenantId in setup.registry && q.body.None?)
    && (ReachesValidation(setup, q) ==>
          var t, raw := setup.registry[q.tenantId], q.body.value;
          var schema, logic := t.validateSchema(raw), t.validateLogic(raw);
          if schema != [] then r == Invalid(schema)
          else if logic.0 != [] then r == Unprocessable(logic.0, logic.1)
          else r.Created?)
  }

  /** The gates refuse what is due to be refused and admit the rest. */
  lemma GatesGiveWhatIsDue(setup: Setup, q: Request, r: CreateResult)
    ensures IsDue(setup, q, if Admit(setup, q).Rejected? then Admit(setup, q).response else Created(r))
  {
  }

  datatype Arrival = Arrival(q: Request, at: real)

  /** The store calls that a sequence of requests leads to. */
  function Calls(setup: Setup, arrivals: seq<Arrival>): seq<Call> {
    if arrivals == [] then []
    else
      var before, last := Calls(setup, arrivals[..|arrivals| - 1]), arrivals[|arrivals| - 1];
      var admission := Admit(setup, last.q);
      if admission.Admitted? then before + [Call(admission.p, last.at)] else before
  }

  lemma CallsStep(setup: Setup, arrivals: seq<Arrival>, a: Arrival)
    ensures Calls(setup, arrivals + [a])
            == if Admit(setup, a.q).Admitted?
               then Calls(setup, arrivals) + [Call(Admit(setup, a.q).p, a.at)]
               else Calls(setup, arrivals)
  {
    assert (arrivals + [a])[..|arrivals + [a]| - 1] == arrivals;
  }

  // ---- Every reachable record ----

  lemma {:induction false} CallsWereAdmitted(setup: Setup, arrivals: seq<Arrival>, k: nat)
    requires k < |Calls(setup, arrivals)|
    ensures exists a :: a in arrivals && a.at == Calls(setup, arrivals)[k].at
                        && Admit(setup, a.q) == Admitted(Calls(setup, arrivals)[k].p)
  {
    var init, last := arrivals[..|arrivals| - 1], arrivals[|arrivals| - 1];
    if k < |Calls(setup, init)| {
      CallsWereAdmitted(setup, init, k);
      var a :| a in init && a.at == Calls(setup, init)[k].at
               && Admit(setup, a.q) == Admitted(Calls(setup, init)[k].p);
      assert a in arrivals;
    } else {
      assert last in arrivals;
    }
  }

  /** The record says what its tenant makes of its body. */
  ghost predicate Validated(setup: Setup, r: SubmissionRecord) {
    && r.tenantId in setup.registry
    && var t := setup.registry[r.tenantId];
       && t.validateSchema(r.body) == []
       && t.validateLogic(r.body) == ([], r.warnings)
       && r.itemCount == t.itemCount(r.body)
       && r.returnType == setup.decodeMeta(r.body).returnType
       && r.status == "RECEIVED"
  }

  /** The record is what this request, from a client of its own holder, asked to store. */
  ghost predicate Sent(setup: Setup, a: Arrival, r: SubmissionRecord) {
    var q, meta := a.q, setup.decodeMeta(r.body);
    && r.submissionId == q.submissionId && r.tenantId == q.tenantId && r.runReference == q.runReference
    && r.holdingNumber == q.holdingNumber == q.client.holdingNumber
    && r.taxYear == q.taxYear && r.quarter == q.quarter && q.body == Some(r.body)
    && r.softwareUsed == q.client.softwareUsed && r.softwareVersion == q.client.softwareVersion
    && r.contactEmail == meta.contactEmail && r.contactPhone == meta.contactPhone && r.comments == meta.comments
    && r.receivedAt == a.at
  }

  /**
   Whatever requests arrive, every stored record has passed both validation
   layers of its tenant, carries the warnings and the item count that the tenant
   computes from its body, and is what a client of its holder sent.
   */
  lemma {:induction false} StoredRecordsAreValidated(setup: Setup, arrivals: seq<Arrival>, id: string)
    requires id in After(Calls(setup, arrivals)).submissions
    ensures var r := After(Calls(setup, arrivals)).submissions[id];
            && Validated(setup, r)
            && exists a :: a in arrivals && a.q.submissionId == id && Sent(setup, a, r)
  {
    var h := Calls(setup, arrivals);
    StoredIffSeen(h, id);
    var i := HasFirst(h, id);
    FirstCallWins(h, i);
    CallsWereAdmitted(setup, arrivals, i);
    var a :| a in arrivals && a.at == h[i].at && Admit(setup, a.q) == Admitted(h[i].p);
    AdmittedIsValidated(setup, a, h[i].p);
  }

  lemma AdmittedIsValidated(setup: Setup, a: Arrival, p: CreateParams)
    requires Admit(setup, a.q) == Admitted(p)
    ensures Validated(setup, NewRecord(p, a.at))
    ensures a.q.submissionId == p.submissionId && Sent(setup, a, NewRecord(p, a.at))
  {
  }

  // ---- The EHECS tenant in the pipeline ----

  function EhecsTenant(decode: string -> Option<SubmissionBody>): Tenant {
    Tenant(raw => SchemaErrors(decode(raw)),
           raw => (LogicErrors(decode(raw)), LogicWarnings(decode(raw))),
           raw => ItemCount(decode(raw)))
  }

  /** The shared fields, as an EHECS body holds them. */
  function MetaOf(b: SubmissionBody): Meta {
    Meta(b.returnType, b.contactEmail, b.contactPhone, b.comments)
  }

  /**
   The EHECS tenant is registered; both decoders read the same bytes under the
   same names, so they agree on the shared fields of a body that decodes.
   */
  ghost predicate WithEhecs(setup: Setup, decode: string -> Option<SubmissionBody>) {
    && "ehecs" in setup.registry && setup.registry["ehecs"] == EhecsTenant(decode)
    && forall raw :: decode(raw).Some? ==> setup.decodeMeta(raw) == MetaOf(decode(raw).value)
  }

  /** Every stored EHECS record holds a well-formed filing that obeys the documented rules, and repeats its fields. */
  lemma {:induction false} StoredEhecsRecords(setup: Setup, decode: string -> Option<SubmissionBody>,
                                              arrivals: seq<Arrival>, id: string)
    requires WithEhecs(setup, decode)
    requires id in After(Calls(setup, arrivals)).submissions
    requires After(Calls(setup, arrivals)).submissions[id].tenantId == "ehecs"
    ensures var r := After(Calls(setup, arrivals)).submissions[id];
            && decode(r.body).Some?
            && var b := decode(r.body).value;
               && WellFormedBody(b)
               && (forall e | e in b.employees :: DocumentedRules(e))
               && r.warnings == LogicWarnings(Some(b))
               && r.itemCount == |b.employees| >= 1
               && r.returnType == b.returnType && b.returnType in {"", "ORIGINAL", "AMENDED"}
               && r.contactEmail == b.contactEmail && r.contactPhone == b.contactPhone && r.comments == b.comments
  {
    StoredRecordsAreValidated(setup, arrivals, id);
    LayersComposeIff(decode(After(Calls(setup, arrivals)).submissions[id].body));
  }

  /** How many employees the listed submissions' bodies hold. */
  function EmployeesIn(s: State, decode: string -> Option<SubmissionBody>, ids: seq<string>): nat
    requires forall id | id in ids :: id in s.submissions
  {
    if ids == [] then 0
    else
      EmployeesIn(s, decode, ids[..|ids| - 1]) + ItemCount(decode(s.submissions[ids[|ids| - 1]].body))
  }

  lemma {:induction false} ItemsAreEmployees(setup: Setup, decode: string -> Option<SubmissionBody>,
                                             arrivals: seq<Arrival>, ids: seq<string>)
    requires WithEhecs(setup, decode)
    requires var s := After(Calls(setup, arrivals));
             forall id | id in ids :: id in s.submissions && s.submissions[id].tenantId == "ehecs"
    ensures var s := After(Calls(setup, arrivals));
            ItemsIn(s, ids) == EmployeesIn(s, decode, ids) >= |ids|
  {
    if ids == [] {
    } else {
      var n := |ids| - 1;
      assert ids[n] in ids;
      ItemsAreEmployees(setup, decode, arrivals, ids[..n]);
      StoredEhecsRecords(setup, decode, arrivals, ids[n]);
    }
  }

  /** The items reported for an all-EHECS run are the employees in its bodies, at least one per submission. */
  lemma {:induction false} EhecsRunTotals(setup: Setup, decode: string -> Option<SubmissionBody>,
                                          arrivals: seq<Arrival>, run: string)
    requires WithEhecs(setup, decode)
    requires var s := After(Calls(setup, arrivals));
             forall id | id in s.submissions && s.submissions[id].runReference == run ::
               s.submissions[id].tenantId == "ehecs"
    ensures var s := After(Calls(setup, arrivals));
            Resolves(s) && (run in s.runs ==>
              var status := RunStatusOf(s, run).value;
              status.totalItems == EmployeesIn(s, decode, s.runs[run]) >= status.totalSubmissions)
  {
    IndexAgrees(Calls(setup, arrivals));
    var s := After(Calls(setup, arrivals));
    if run in s.runs {
      ItemsAreEmployees(setup, decode, arrivals, s.runs[run]);
    }
  }

  // ---- Whose record a response describes ----

  predicate Uses(setup: Setup, a: Arrival, id: string) {
    a.q.submissionId == id && Admit(setup, a.q).Admitted?
  }

  /** Request `k` is the first that was admitted with this id. */
  ghost predicate FirstUse(setup: Setup, arrivals: seq<Arrival>, id: string, k: nat) {
    k < |arrivals| && Uses(setup, arrivals[k], id) && forall j | 0 <= j < k :: !Uses(setup, arrivals[j], id)
  }

  /** The record under `id` is what the first admitted request with it asked for; without one there is no record. */
  ghost predicate HoldsFirstUse(setup: Setup, arrivals: seq<Arrival>, id: string,
                                records: map<string, SubmissionRecord>)
  {
    && (id in records <==> exists k: nat :: FirstUse(setup, arrivals, id, k))
    && forall k: nat | FirstUse(setup, arrivals, id, k) ::
         id in records && records[id] == NewRecord(Admit(setup, arrivals[k].q).p, arrivals[k].at)
  }

  lemma {:induction false} FirstUseIsStored(setup: Setup, arrivals: seq<Arrival>, id: string)
    ensures HoldsFirstUse(setup, arrivals, id, After(Calls(setup, arrivals)).submissions)
  {
    if arrivals == [] {
    } else {
      var init, last := arrivals[..|arrivals| - 1], arrivals[|arrivals| - 1];
      var before, after := After(Calls(setup, init)).submissions, After(Calls(setup, arrivals)).submissions;
      assert arrivals == init + [last];
      FirstUseIsStored(setup, init, id);
      RecordStep(setup, init, last, id);
      HoldsFirstUseStep(setup, init, last, id, before, after);
    }
  }

  /** From one map of records to the next, a request adds a record under its own id if there is none. */
  ghost predicate AddsIfAbsent(setup: Setup, last: Arrival, id: string,
                               before: map<string, SubmissionRecord>, after: map<string, SubmissionRecord>)
  {
    && (id in after <==> id in before || Uses(setup, last, id))
    && (id in before ==> after[id] == before[id])
    && (id in after && id !in before ==> after[id] == NewRecord(Admit(setup, last.q).p, last.at))
  }

  lemma RecordStep(setup: Setup, init: seq<Arrival>, last: Arrival, id: string)
    ensures AddsIfAbsent(setup, last, id, After(Calls(setup, init)).submissions,
                         After(Calls(setup, init + [last])).submissions)
  {
    CallsStep(setup, init, last);
    if Admit(setup, last.q).Admitted? {
      AfterStep(Calls(setup, init), Call(Admit(setup, last.q).p, last.at));
    }
  }

  lemma HoldsFirstUseStep(setup: Setup, init: seq<Arrival>, last: Arrival, id: string,
                          before: map<string, SubmissionRecord>, after: map<string, SubmissionRecord>)
    requires HoldsFirstUse(setup, init, id, before) && AddsIfAbsent(setup, last, id, before, after)
    ensures HoldsFirstUse(setup, init + [last], id, after)
  {
    var all := init + [last];
    FirstUseStep(setup, init, last, id);
    if id in before {
      var k: nat :| FirstUse(setup, init, id, k);
      assert FirstUse(setup, all, id, k);
    } else if id in after {
      assert FirstUse(setup, all, id, |init|);
    }
    forall k: nat | FirstUse(setup, all, id, k)
      ensures id in after && after[id] == NewRecord(Admit(setup, all[k].q).p, all[k].at)
    {
      if k < |init| {
        assert FirstUse(setup, init, id, k) && all[k] == init[k];
      } else {
        assert k == |init| && all[k] == last;
      }
    }
  }

  lemma FirstUseStep(setup: Setup, init: seq<Arrival>, last: Arrival, id: string)
    ensures forall k: nat | k < |init| :: FirstUse(setup, init + [last], id, k) <==> FirstUse(setup, init, id, k)
    ensures FirstUse(setup, init + [last], id, |init|)
            <==> Uses(setup, last, id) && forall k: nat :: !FirstUse(setup, init, id, k)
  {
    var all := init + [last];
    assert all[|init|] == last && forall j | 0 <= j < |init| :: all[j] == init[j];
    if j: nat :| j < |init| && Uses(setup, init[j], id) {
      var k := EarliestUse(setup, init, id, j);
      assert Uses(setup, all[k], id);
    }
  }

  lemma {:induction false} EarliestUse(setup: Setup, arrivals: seq<Arrival>, id: string, j: nat) returns (k: nat)
    requires j < |arrivals| && Uses(setup, arrivals[j], id)
    ensures FirstUse(setup, arrivals, id, k)
  {
    k := j;
    if i: nat :| i < j && Uses(setup, arrivals[i], id) {
      k := EarliestUse(setup, arrivals, id, i);
    }
  }

  /** The response states what request `a` had stored. */
  ghost predicate Confirms(setup: Setup, a: Arrival, result: CreateResult) {
    && ReachesValidation(setup, a.q)
    && var t, raw := setup.registry[a.q.tenantId], a.q.body.value;
       result == CreateResult(a.q.submissionId, a.q.runReference, "RECEIVED", a.at,
                              t.itemCount(raw), t.validateLogic(raw).1)
  }

  /** The record under an id is validated, is what the first admitted request with it sent, and is confirmed as such. */
  lemma FirstUseIsConfirmed(setup: Setup, arrivals: seq<Arrival>, id: string) returns (k: nat)
    requires id in After(Calls(setup, arrivals)).submissions
    ensures FirstUse(setup, arrivals, id, k)
    ensures var r := After(Calls(setup, arrivals)).submissions[id];
            && Validated(setup, r) && Sent(setup, arrivals[k], r)
            && Confirms(setup, arrivals[k], ResultOf(r))
  {
    FirstUseIsStored(setup, arrivals, id);
    k :| FirstUse(setup, arrivals, id, k);
    var a := arrivals[k];
    AdmittedIsValidated(setup, a, Admit(setup, a.q).p);
  }

  /**
   An admitted request is answered with another holder's record exactly when
   the first request that was admitted with its id came from another holder.
   */
  lemma AnsweredForAnotherIff(setup: Setup, arrivals: seq<Arrival>, a: Arrival)
    requires Admit(setup, a.q).Admitted?
    ensures var records, id := After(Calls(setup, arrivals + [a])).submissions, a.q.submissionId;
            && id in records
            && (records[id].holdingNumber != a.q.client.holdingNumber
                <==> exists k: nat :: FirstUse(setup, arrivals, id, k)
                       && arrivals[k].q.client.holdingNumber != a.q.client.holdingNumber)
  {
    var id, records := a.q.submissionId, After(Calls(setup, arrivals + [a])).submissions;
    FirstUseIsStored(setup, arrivals + [a], id);
    HolderOfFirstUse(setup, arrivals, a, records);
  }

  lemma HolderOfFirstUse(setup: Setup, arrivals: seq<Arrival>, a: Arrival, records: map<string, SubmissionRecord>)
    requires Uses(setup, a, a.q.submissionId)
    requires HoldsFirstUse(setup, arrivals + [a], a.q.submissionId, records)
    ensures var id := a.q.submissionId;
            && id in records
            && (records[id].holdingNumber != a.q.client.holdingNumber
                <==> exists k: nat :: FirstUse(setup, arrivals, id, k)
                       && arrivals[k].q.client.holdingNumber != a.q.client.holdingNumber)
  {
    var id := a.q.submissionId;
    FirstUseStep(setup, arrivals, a, id);
    if k: nat :| FirstUse(setup, arrivals, id, k) {
      assert FirstUse(setup, arrivals + [a], id, k);
      assert forall j: nat | FirstUse(setup, arrivals, id, j) :: j == k;
    } else {
      assert FirstUse(setup, arrivals + [a], id, |arrivals|);
    }
  }

  /** An EHECS filing in the name of one holder, by a client of that holder. */
  function FiledBy(holder: string, raw: string): Request {
    Request("ehecs", holder, 2026, 1, "R1", "S1", ClientIdentity(holder, "", ""), Some(raw))
  }

  /** Two holders file under one id: both are admitted, and the second is answered with the first one's record. */
  lemma SecondHolderIsAnsweredForFirst(setup: Setup, decode: string -> Option<SubmissionBody>, raw: string)
    requires WithEhecs(setup, decode) && decode(raw) == Some(Filing(Sample()))
    ensures var first, second := Arrival(FiledBy("H1", raw), 1.0), Arrival(FiledBy("H2", raw), 2.0);
            && Admit(setup, first.q).Admitted? && Admit(setup, second.q).Admitted?
            && var records := After(Calls(setup, [first, second])).submissions;
               "S1" in records && records["S1"].holdingNumber == "H1" != second.q.client.holdingNumber
  {
    var first, second := Arrival(FiledBy("H1", raw), 1.0), Arrival(FiledBy("H2", raw), 2.0);
    SampleIsAccepted();
    assert Uses(setup, [first, second][0], "S1");
    assert FirstUse(setup, [first, second], "S1", 0);
    FirstUseIsStored(setup, [first, second], "S1");
  }

  // ---- Isolation of the clients ----

  /** The requests sent by clients of one holder. */
  function SentBy(arrivals: seq<Arrival>, holder: string): seq<Arrival> {
    if arrivals == [] then []
    else
      var before, last := SentBy(arrivals[..|arrivals| - 1], holder), arrivals[|arrivals| - 1];
      if last.q.client.holdingNumber == holder then before + [last] else before
  }

  /** Only a holder's own clients make calls in the holder's name. */
  lemma {:induction false} CallsAreOwn(setup: Setup, arrivals: seq<Arrival>, holder: string)
    ensures CallsOf(Calls(setup, arrivals), holder) == Calls(setup, SentBy(arrivals, holder))
  {
    if arrivals == [] {
    } else {
      var init, last := arrivals[..|arrivals| - 1], arrivals[|arrivals| - 1];
      CallsAreOwn(setup, init, holder);
      CallsStep(setup, SentBy(init, holder), last);
      if Admit(setup, last.q).Admitted? {
        var c := Call(Admit(setup, last.q).p, last.at);
        assert (Calls(setup, init) + [c])[..|Calls(setup, init)|] == Calls(setup, init);
      }
    }
  }

  /** What a holder's listings show is decided by that holder's clients alone if and only if its ids are its own. */
  lemma ClientsAreIsolatedIff(setup: Setup, arrivals: seq<Arrival>, holder: string)
    ensures SameListings(After(Calls(setup, arrivals)), After(Calls(setup, SentBy(arrivals, holder))), holder)
            <==> OwnIds(Calls(setup, arrivals), holder)
  {
    CallsAreOwn(setup, arrivals, holder);
    ListingsAreIsolatedIff(Calls(setup, arrivals), holder);
  }

  // ---- The handlers ----

  datatype Fetched = Found(record: SubmissionRecord) | Missing | Denied

  class SubmissionHandler {
    const setup: Setup
    const store: MemoryStore.Store

    /** Every request `Create` has handled. */
    ghost var arrivals: seq<Arrival>

    ghost predicate Valid()
      reads this, store
    {
      store.Valid() && store.history == Calls(setup, arrivals)
    }

    constructor (setup: Setup, store: MemoryStore.Store)
      requires store.Valid() && store.history == []
      ensures Valid() && arrivals == [] && this.setup == setup && this.store == store
    {
      this.setup, this.store, arrivals := setup, store, [];
    }

    /** Handle one submission: the first failing gate answers, and nothing is stored unless all pass. */
    method Create(q: Request, at: real) returns (r: Response)
      requires Valid()
      modifies this, store
      ensures Valid() && arrivals == old(arrivals) + [Arrival(q, at)]
      ensures IsDue(setup, q, r)
      ensures !r.Created? ==> store.submissions == old(store.submissions) && store.runs == old(store.runs)
      ensures r.Created? ==>
                && q.submissionId in store.submissions
                && r.result == ResultOf(store.submissions[q.submissionId])
                && Validated(setup, store.submissions[q.submissionId])
                && (exists k: nat :: FirstUse(setup, arrivals, q.submissionId, k)
                                     && Confirms(setup, arrivals[k], r.result))
                && (store.submissions[q.submissionId].holdingNumber != q.client.holdingNumber
                    <==> exists k: nat :: FirstUse(setup, old(arrivals), q.submissionId, k)
                           && old(arrivals)[k].q.client.holdingNumber != q.client.holdingNumber)
    {
      CallsStep(setup, arrivals, Arrival(q, at));
      ghost var before := arrivals;
      arrivals := arrivals + [Arrival(q, at)];
      if q.holdingNumber != q.client.holdingNumber {
        return Forbidden;
      }
      if q.tenantId !in setup.registry {
        return UnknownTenant;
      }
      var t := setup.registry[q.tenantId];
      if q.body.None? {
        return Unreadable;
      }
      var raw := q.body.value;
      var schemaErrors := t.validateSchema(raw);
      if |schemaErrors| > 0 {
        return Invalid(schemaErrors);
      }
      var meta := setup.decodeMeta(raw);
      var (logicErrors, warnings) := t.validateLogic(raw);
      if |logicErrors| > 0 {
        return Unprocessable(logicErrors, warnings);
      }
      var result := store.Create(
        CreateParams(q.tenantId, q.submissionId, q.runReference, q.holdingNumber, q.taxYear, q.quarter,
                     meta.returnType, raw, t.itemCount(raw), warnings, q.client,
                     meta.contactEmail, meta.contactPhone, meta.comments), at);
      ghost var k := FirstUseIsConfirmed(setup, arrivals, q.submissionId);
      AnsweredForAnotherIff(setup, before, Arrival(q, at));
      return Created(result);
    }

    /** A record is handed out only to a client of the holder it belongs to. */
    method GetSubmission(holdingNumber: string, id: string, client: ClientIdentity) returns (r: Fetched)
      requires Valid()
      ensures r == Missing <==> !Seen(store.history, id)
      ensures r.Found? <==>
              id in store.submissions
              && store.submissions[id].holdingNumber == holdingNumber == client.holdingNumber
      ensures r.Found? ==> r.record == store.submissions[id] && Validated(setup, r.record)
    {
      StoredIffSeen(store.history, id);
      var fetched := store.GetByID(id);
      if !fetched.Ok? {
        return Missing;
      }
      var record := fetched.value;
      if record.holdingNumber != holdingNumber || record.holdingNumber != client.holdingNumber {
        return Denied;
      }
      StoredRecordsAreValidated(setup, arrivals, id);
      return Found(record);
    }

    /** A listing shows a client its own holder's submissions and nothing else. */
    method ListSubmissions(holdingNumber: string, client: ClientIdentity, taxYear: int, quarter: int)
      returns (r: Option<seq<SubmissionSummary>>)
      requires Valid()
      ensures r.Some? <==> holdingNumber == client.holdingNumber
      ensures r.Some? ==>
                && NewestFirst(r.value)
                && multiset(r.value) == multiset(Listed(After(store.history), client.holdingNumber, taxYear, quarter))
                && forall x :: x in r.value <==> ListedBy(store.history, client.holdingNumber, taxYear, quarter, x)
    {
      if holdingNumber != client.holdingNumber {
        return None;
      }
      var results := store.List(holdingNumber, taxYear, quarter);
      return Some(results);
    }
  }
}
