# Corncrake submission path: a verified model

Corncrake is a REST service through which employers file statutory survey
returns. This project models the part of it that decides what is let in, what is
stored and what is shown, and proves what that part is for. It has four cores.

* **Rate limiter** (`TokenBucket`, `LimiterRuns`, `Eviction`, `Limiter`). One token
  bucket per IP, refilled lazily, deleted after ten idle minutes and recreated
  full. The admission decisions are characterised without any bucket, shown to be
  the best possible, and deleting idle buckets is shown to be unnoticeable
  exactly when ten minutes refill a bucket.
* **Submission store** (`Records`, `StoreHistory`, `StoreReads`, `MemoryStore`,
  `ConcurrentCreate`). Insert-if-absent into a map of records and an index of runs:
  as a function of the call history, as a class with the two maps, and as an
  interleaving of calls of which only the critical section is atomic.
* **SQL stores** (`SqlTable`, `SqlStore`). The INSERT with its numbered placeholders,
  the queries with their argument vectors and the positional scans, for PostgreSQL
  and SQL Server, proved to keep and to show what the in-memory store does.
* **Validation, pipeline and revocation** (`Paths`, `Reports`, `Ehecs`, `EhecsLaws`,
  `EhecsReports`, `Handlers`, `Revocation`). The two EHECS validation layers, what they
  report and what they amount to together, the gates of the handler and what they
  say about every record that can be stored, and token revocation with pruning.

`Sorting` and `Wrappers` hold what several of these share.

Objects the program updates in place are classes with the same fields:
`Limiter.RateLimiter` with its `IpBucket` objects, `MemoryStore.Store`,
`SqlStore.Store`, `Revocation.RevocationStore` and `Handlers.SubmissionHandler`. Each
carries a ghost history of what was done to it and an invariant that ties its
fields to a function of that history, so that the theorems about histories are
theorems about the objects.

## Where the code and its documentation part

* The documentation promises that submitting an id twice returns the original
  result (line 122 of the service's README). The in-memory store does so; the SQL
  stores answer with the new call's own values. `SqlStore.SqlResponseAgreesIff` gives the exact condition
  and `SqlStore.RepeatIsAnsweredAnew` an instance.
* The same promise holds in memory whoever sends the id: when another holder used it
  first, the response describes that holder's record, which fetching it would refuse
  (internal/handlers/submissions.go:118). `Handlers.AnsweredForAnotherIff` gives the
  exact condition and `Handlers.SecondHolderIsAnsweredForFirst` an instance.
* The documentation says all numeric fields are non-negative (line 177 of the service's
  README); six of the ten amounts are checked. `EhecsLaws.SignRuleHoldsIff` and
  `EhecsLaws.NegativeBonusIsAccepted` say what that leaves.
* A revoked token that expires between its parsing and its lookup is accepted if a
  clean-up runs in between. `Revocation.PruningShowsIff` gives the exact condition and
  `Revocation.ExpiryDuringCheckShows` an instance.
* A limiter whose bucket needs more than ten minutes to fill would admit more than its
  rate allows; `Eviction.WindowsAreBoundedIff` shows that this is the only case. The
  deployed limiter is outside it (`Eviction.DeployedLimiter`).

## Model

| member | source | states |
|---|---|---|
| TokenBucket.ExactAdmissionRule | internal/middleware/ratelimit.go:46-54 | A bucket admits its n-th request if and only if, for every earlier or equal request i, the requests admitted from i on plus one are at most capacity + rate * (t_n - t_i); nothing is assumed about rate, capacity or clock |
| TokenBucket.LevelIsLeastSlack | internal/middleware/ratelimit.go:46-48 | For any choice of admitted requests, the lazily refilled and capped token count is the least slack over all windows that end at the request |
| TokenBucket.TokensAreLevel | internal/middleware/ratelimit.go:39-54 | The stored tokens after refill are that least slack for the bucket's own decisions |
| TokenBucket.GreedyIsOptimal | internal/middleware/ratelimit.go:46-54 | After every prefix the bucket has admitted at least as many requests as any other selection that respects every window |
| TokenBucket.WindowBound | internal/middleware/ratelimit.go:46-54 | With an ordered clock, the requests admitted between any two requests number at most capacity + rate * elapsed |
| LimiterRuns.IpsAreIndependent | internal/middleware/ratelimit.go:40-48 | One IP's decisions and bucket in any interleaved run are those of the run reduced to that IP's requests and the sweeps |
| LimiterRuns.UnsweptIsLone | internal/middleware/ratelimit.go:40-54 | Without sweeps, an IP's decisions are those of a single bucket created full by its first request |
| LimiterRuns.BucketsInRange | internal/middleware/ratelimit.go:42-53 | In every run every bucket holds between 0 and capacity tokens and was last seen no later than the latest event |
| LimiterRuns.SweepKeepsRecentCallers | internal/middleware/ratelimit.go:62-67 | Right after a sweep at t the map holds exactly the IPs that called, admitted or refused, at or after t - 600 s |
| Eviction.SweptRunIsLone | internal/middleware/ratelimit.go:35-69 | When ten minutes refill a bucket, an IP's decisions in a run with any sweeps are those of one bucket that is never deleted |
| Eviction.RuleHoldsInEveryRun | internal/middleware/ratelimit.go:35-69 | Then the exact admission rule holds for every IP of every run, whatever is swept and whoever else calls |
| Eviction.EvictionIsInvisibleIff | internal/middleware/ratelimit.go:40-69 | All runs give the same decisions with and without their sweeps if and only if ten minutes refill a whole bucket, or the bucket holds less than one token |
| Eviction.WindowsAreBoundedIff | internal/middleware/ratelimit.go:35-69 | The sliding-window bound holds for every IP in every run under exactly the same condition |
| Eviction.SweepAdmitsMore | internal/middleware/ratelimit.go:62-67 | When ten minutes do not refill a bucket, there is a run in which a sweep alone makes the limiter admit a request it would refuse |
| Eviction.LimiterIsOptimal | internal/middleware/ratelimit.go:35-69 | In every run, with any sweeps, rate, capacity and clock, the limiter has admitted at least as many requests of an IP as any selection that respects the windows |
| Eviction.DeployedLimiter | main.go:48 | One token a second with bursts of thirty: sweeps are invisible and no window of any run admits more than 30 + elapsed seconds |
| Limiter.IpBucket.Take | internal/middleware/ratelimit.go:46-54 | Adds rate times the elapsed seconds, caps at the capacity, stamps the bucket, and admits and spends a token if at least one is there |
| Limiter.RateLimiter.BucketFor | internal/middleware/ratelimit.go:40-44 | Finds the IP's bucket or inserts a full one, leaving the others alone and all of them distinct |
| Limiter.RateLimiter.Allow | internal/middleware/ratelimit.go:35-55 | Adds the request to the run and returns its decision; while the clock does not go back and idle buckets refill, that decision is the one of the exact rule |
| Limiter.RateLimiter.Sweep | internal/middleware/ratelimit.go:58-69 | Keeps exactly the buckets last seen at or after t - 600 s, unchanged |
| StoreHistory.RepeatReturnsFirst | internal/services/store.go:96-120 | Repeating an id, with any other contents, returns what the first call with that id returned |
| StoreHistory.ReplayIsIdempotent | internal/services/store.go:96-111 | The store after any history is the store after that history with every repeat of an id removed |
| StoreHistory.ResponseDescribesRecord | internal/services/store.go:98-120 | Every call is answered with the record that is in the store for ever after |
| StoreReads.FirstCallIsStored | internal/services/store.go:76-94 | The record under an id has, field by field, the values of the first call with that id |
| StoreReads.ListingIsExact | internal/services/store.go:164-185 | A summary is listed if and only if it tells of a first call that is the holder's and passes the filters, where a year or quarter that is not positive filters nothing |
| StoreReads.RunIsExact | internal/services/store.go:136-157 | In every reachable store a run's status tells of exactly the first calls that named it, in order, with their number and the sum of their items |
| StoreHistory.IndexAgrees | internal/services/store.go:96-111 | In every reachable store the runs list exactly the stored ids, each once and under its own run, no list is empty and no listed id is missing |
| StoreHistory.RunsInInsertionOrder | internal/services/store.go:109-110 | A run lists the first calls that named it, in call order |
| StoreHistory.InExactlyOneRun | internal/services/store.go:109-110 | Every stored id is in the list of its own run and in no other |
| StoreHistory.Conservation | internal/services/store.go:133-158 | Over all runs the reported items and submissions add up to the items and the number of the stored submissions |
| StoreHistory.HoldersAreIsolatedIff | internal/services/store.go:98-110 | Removing all other holders' calls leaves a holder's records unchanged if and only if nobody else was first to use one of the holder's ids |
| StoreHistory.ListingsAreIsolatedIff | internal/services/store.go:160-190 | All listings of a holder, whatever the filters, are what they would be had nobody else called, under exactly the same condition |
| MemoryStore.Store.Create | internal/services/store.go:73-121 | On a new id stores the record, field by field, and appends the id to its run; on a repeat changes nothing and returns the response of the first call with that id |
| MemoryStore.Store.GetByID | internal/services/store.go:123-131 | Returns the record of the first call with the id, and not-found exactly when there was none |
| MemoryStore.Store.GetRun | internal/services/store.go:133-158 | Returns what is told of the first calls that named the run, in their order, with their number and the sum of their items; the lookup of a listed id never misses; not-found exactly when there are none |
| MemoryStore.Store.List | internal/services/store.go:160-190 | Returns, each once and newest first, exactly the submissions whose first call was the holder's and passes the year and quarter filters |
| ConcurrentCreate.Linearizable | internal/services/store.go:73-121 | In every interleaving the maps are the sequential store after the critical sections in their order; each call has one place in that order and each place belongs to a call, with the clock reading it was built with; a call that had finished before another entered precedes it; every finished call returned what the sequential store returns at its place |
| ConcurrentCreate.FinishedCallsAgree | internal/services/store.go:96-120 | All finished calls with one id returned the identical response, that of the call that entered the critical section first |
| ConcurrentCreate.NothingFinishedChanges | internal/services/store.go:98-107 | Records never change once built, which makes reading the found record after unlocking safe, and finished calls keep their responses |
| SqlTable.NewRowStoresRecord | internal/services/stores.go:72-85 | The INSERT files each argument under the column meant for it: the row it builds stores, column by column, the record the in-memory store would build |
| SqlTable.InsertedCell | internal/services/stores.go:72-85 | Which value each of the seventeen columns of a new row gets |
| SqlTable.NullCellScansIff | internal/services/stores.go:306-340 | A row that scans still does with one cell NULL if and only if the cell is one of six, and that field is then read as empty |
| SqlTable.ScanRoundTrip | internal/services/stores.go:306-340 | Scanning a row that stores a record, by position, gives back that record |
| SqlTable.InsertThenSelect | internal/services/stores.go:64-110 | A submission comes back from an INSERT followed by a SELECT as the record the in-memory store would hold |
| SqlStore.TableRefinesStore | internal/services/stores.go:64-98 | After every history the table holds the records of the in-memory store, under either dialect |
| SqlStore.SqlResponseAgreesIff | internal/services/stores.go:90-97 | One call's SQL response equals the in-memory one if and only if its id is new or it gives the run reference, the time, the item count and the warnings of the first call with that id; for every clock reading, if and only if the id is new |
| SqlStore.RepeatIsAnsweredAnew | internal/services/stores.go:90-97 | Any submission sent again a second later: the in-memory answer is the first call's, the SQL answer another |
| SqlStore.ListQuery | internal/services/stores.go:126-142 | For every filter, positive or not, all placeholders are in range and the query selects a stored row exactly when the in-memory loop keeps its record |
| SqlStore.ScannedRows | internal/services/stores.go:365-384 | Whatever order the engine returns, the scanned rows are the summaries of exactly the selected records, each once |
| SqlStore.ScanRunStatus | internal/services/stores.go:342-363 | Adds up the items of the scanned rows; no rows means not-found, an unscannable row an error |
| SqlStore.Store.Create | internal/services/stores.go:64-98 | Inserts unless the id is taken and answers with its own values, which are the in-memory answer exactly on a new id or a call with the run reference, the time, the item count and the warnings of the first call with that id |
| SqlStore.Store.GetByID | internal/services/stores.go:100-110 | Gives the in-memory store's answer |
| SqlStore.Store.GetRun | internal/services/stores.go:112-124 | Gives the in-memory store's answer up to the order of the submissions, which are newest first; not-found agrees because no in-memory run is empty |
| SqlStore.Store.List | internal/services/stores.go:126-150 | Returns the same submissions as the in-memory store, each once, newest first |
| Paths.PathIsInjective | internal/tenants/ehecs/ehecs.go:64 | A path names one employee and one field, because the printed index can be read back |
| Paths.DecimalIsNumeral | internal/tenants/ehecs/ehecs.go:64 | An index is printed in decimal digits that read back as it, without leading zeros |
| Paths.PathReads | internal/tenants/ehecs/ehecs.go:64-90 | A path is `employees[`, the index, `].` and the field name |
| Paths.TrimSpaceIsEmptyIff | internal/tenants/ehecs/ehecs.go:46 | Trimming leaves nothing exactly when every character is one of the twenty-five white space characters of Unicode |
| Reports.ReportIsExact | internal/tenants/ehecs/ehecs.go:63-95 | A report contains an item if and only if some employee breaks the rule the item is for |
| Ehecs.ValidateSchema | internal/tenants/ehecs/ehecs.go:35-97 | Reports the header errors, then for each employee in turn the broken rules in order; a body without employees is reported as such |
| Ehecs.ValidateLogic | internal/tenants/ehecs/ehecs.go:99-137 | Reports the broken error rules and, separately, the broken warning rules of each employee in turn |
| EhecsLaws.SchemaAcceptsIff | internal/tenants/ehecs/ehecs.go:46-96 | The schema layer accepts exactly the bodies that decode and are well formed, header and every employee |
| EhecsLaws.LayersComposeIff | internal/tenants/ehecs/ehecs.go:80-126 | Both layers accept exactly the well-formed bodies whose employees all obey the documented rules |
| EhecsLaws.AcceptedEmployee | README.md:177-179 | In an accepted body overtime pay implies overtime hours, gross earnings are at least the overtime pay, which is not negative, and basic hours lie between 0 and 2184 |
| EhecsLaws.LogicLayerGap | internal/tenants/ehecs/ehecs.go:115 | The logic layer alone misses a documented rule exactly where paid overtime has negative hours |
| EhecsLaws.NeitherLayerSuffices | internal/tenants/ehecs/ehecs.go:80-115 | For each layer there is a body that it accepts and that breaks the documented rules |
| EhecsLaws.SignRuleHoldsIff | README.md:177 | An accepted body has only non-negative amounts if and only if its four unchecked amounts are non-negative |
| EhecsLaws.NegativeBonusIsAccepted | internal/tenants/ehecs/ehecs.go:80-94 | A filing with a negative bonus passes both layers |
| EhecsLaws.PpsnMatchesIff | internal/tenants/ehecs/ehecs.go:24 | A PPSN matches exactly when it is seven digits followed by one or two capital letters |
| EhecsReports.SchemaReportIff | internal/tenants/ehecs/ehecs.go:46-96 | An item is in the schema report if and only if it is one of the five header items or ten employee items, codes and fields written out, and what it complains of is so |
| EhecsReports.LogicReportIff | internal/tenants/ehecs/ehecs.go:115-126 | The same for the three logic errors |
| EhecsReports.WarningReportIff | internal/tenants/ehecs/ehecs.go:127-134 | A warning is given if and only if an employee has zero gross earnings, or zero PRSI and a full-time contract, under its code and field |
| EhecsReports.ReportsAreInOrder | internal/tenants/ehecs/ehecs.go:46-134 | The reports list the header first, then the employees in turn, and the complaints about each in the order of the checks |
| EhecsReports.FieldsAreDistinct | internal/tenants/ehecs/ehecs.go:46-93 | No two items of any reported list share a field path |
| Handlers.StoredRecordsAreValidated | internal/handlers/submissions.go:31-96 | Whatever requests arrive, every stored record passed both layers of its tenant, carries the warnings and item count computed from its body, and is what a client of its holder sent |
| Handlers.StoredEhecsRecords | internal/handlers/submissions.go:62-96 | Every stored EHECS record holds a well-formed filing that obeys the documented rules, has an item per employee and at least one, and carries the return type, contacts and comments of its body |
| Handlers.EhecsRunTotals | internal/services/store.go:133-158 | The items reported for an all-EHECS run are the employees in its bodies and at least its submissions |
| Handlers.ClientsAreIsolatedIff | internal/handlers/submissions.go:40-45 | All listings of a holder are decided by the requests of that holder's clients alone if and only if nobody else was first to use one of their ids |
| Handlers.FirstUseIsStored | internal/handlers/submissions.go:79-96 | There is a record under an id exactly when a request with it was admitted, and it is what the first such request asked for |
| Handlers.AnsweredForAnotherIff | internal/services/store.go:96-108 | An admitted request finds another holder's record under its id if and only if the first request admitted with that id came from another holder |
| Handlers.SecondHolderIsAnsweredForFirst | internal/services/store.go:98-107 | Two holders file the same EHECS body under one id: both are admitted, and the record found for the second is the first one's |
| Handlers.GatesGiveWhatIsDue | internal/handlers/submissions.go:40-80 | Each of the five refusals is given exactly when its gate is the first to fail, with the findings of that gate; everything else is admitted |
| Handlers.FirstUseIsConfirmed | internal/handlers/submissions.go:79-102 | The record under an id is what the first admitted request with it sent, validated, and the response states that request's run, time, item count and warnings |
| Handlers.SubmissionHandler.Create | internal/handlers/submissions.go:31-103 | Answers as due, gate by gate, storing nothing on a refusal; otherwise the response confirms the first admitted request with the id, which is another holder's exactly when another holder was first |
| Handlers.SubmissionHandler.GetSubmission | internal/handlers/submissions.go:106-124 | A record is handed out exactly to a client of its holder who names that holder |
| Handlers.SubmissionHandler.ListSubmissions | internal/handlers/submissions.go:141-159 | A client is shown exactly its own holder's submissions that pass the filters, newest first |
| Revocation.StoresHold | internal/middleware/revocation.go:25-50 | A pruned store holds a revocation exactly when it was made and no clean-up since has run past its expiry |
| Revocation.PruningShowsIff | internal/middleware/auth.go:49-87 | A decision differs from that of a store that never prunes if and only if the token has an identifier, was unexpired when parsed, and a clean-up has run past the expiry of its latest revocation; it is then accepted instead of refused |
| Revocation.PruningIsInvisibleIff | internal/middleware/revocation.go:25-50 | All decisions of a run are those of a store that never prunes if and only if each check's token was expired when parsed, has no identifier, or has not lost its revocation to an earlier clean-up |
| Revocation.PruningIsInvisible | internal/middleware/revocation.go:25-50 | So it is when tokens with an identifier are revoked under their own expiry and no clean-up overtakes a check |
| Revocation.ExpiryDuringCheckShows | internal/middleware/auth.go:49-87 | A run in which a revoked token is accepted because it expired, and was pruned, between its parsing and its lookup |
| Revocation.PruneKeepsUnexpired | internal/middleware/revocation.go:9-11 | Right after a clean-up the store holds exactly the unexpired revocations |
| Revocation.RevocationStore.IsRevoked | internal/middleware/revocation.go:32-37 | Reports a revocation exactly when it was made and has not been lost to a clean-up |
| Revocation.RevocationStore.Cleanup | internal/middleware/revocation.go:39-50 | Keeps exactly the entries whose expiry has not passed |
| Revocation.Authenticate | internal/middleware/auth.go:38-87 | Each of the four refusals and the acceptance exactly when it is due: no bearer, unverifiable, `exp` reached, held as revoked; without a store nothing is revoked |

## Left out

- Float64 rounding in the buckets: tokens, rates and instants are real numbers.
- Overflow of item totals: totals are unbounded integers.
- Scheduling of the five-minute tickers: sweeps and clean-ups may happen at any time, which covers every schedule.
- HTTP, routing, JSON encoding and decoding, and the response envelopes: decoded bodies are parameters, and "does not decode" is a case.
- Conversion of the year and quarter in the path and the query to numbers: requests carry the numbers.
- JWT parsing and signatures: a credential is absent, unverifiable or a verified token with an optional expiry and identifier; the expiry check is that of section 4.1.4 of RFC 7519.
- The software name and version that a client may pass in the query, and the check that they are present.
- Message texts of validation items: code and field are kept.
- SQL engines, drivers, schema creation and connections: statements succeed and are atomic, so SQL Server's guard and insert cannot be separated by another call.
- Column truncation, timestamp precision, JSONB normalisation, collation and key comparison by anything but equality.
- The difference between nil and empty warning slices: a slice without warnings is nil, as the EHECS validators return it.
- Handlers over the SQL stores: the handlers are modelled over the in-memory store; `SqlStore.TableRefinesStore` carries the statements about stored records over.
- Records as shared pointers in `GetByID`: it returns the value; the handlers only read it. Sharing is modelled where it matters, in `ConcurrentCreate`.
- Holder checks for run status: the program makes none.
- Lookup tables, reporting periods, the health check, security headers and logging: they carry no state the properties depend on.
- SqlStore.Store.Create: does not promise the stored values on a repeated id, because the program returns the new call's values there.
- Handlers.StoredRecordsAreValidated: says nothing about the range of the stored year and quarter, because they come from the path and only the body's are checked.
