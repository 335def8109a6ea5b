# Shoots.Host in Dafny

This project models the part of Shoots.Host whose behaviour its own code decides, and proves
what a client can rely on.

- **The job service.** `Jobs.JobStore` (a bounded queue of ids over a map of records) and
  `Provider.ProviderBridge` (a pending and a ready list) are classes with the fields of the
  originals; `Host.AppState` holds both and has one method per handler. `Machine.Service` is
  the same service said abstractly: the submissions, a poll watermark, the set of claimed and
  the set of taken job numbers. `Coupling` relates the two, every handler keeps the relation,
  and `Host.AppState.ServeAll` shows that for any sequence of requests the concrete responses
  are the abstract ones. `History` then proves, about the abstract runs, what follows for
  whole runs: a result is handed out at most once, to the job it was made for, and the outcome
  of a take is a function of the requests and replies before it. `Outcomes` says the same of
  every other command, and `Delivery` reads response bodies back.
- **The contract.** `Contract` is the service as its clients see it: for every request of a run,
  which status, error code, message, field and reason its response carries, or which job, items
  or result, all in terms of the requests and the bytes of the responses before it.
  `Contract.ServeFromStart` proves it of a host from its construction on.
- **JSON.** `JsonValues` has the value class, its in-place updates and the recursive printer;
  `JsonParser` is a reader after RFC 8259 (sections 2 and 4 to 7) that undoes printing on
  every value, and by `Compact` no text it reads as a value is shorter than the printed one.
  `Layout` has the texts of a value with any whitespace around their tokens.
- **Request bodies.** `KeyScanner` and `FieldSearch` are the two hand-written scanners. `KeyWalk`
  says what the first does, token by token, and `KeyStrings` which strings let it find every key,
  hide keys or forge them; `Markers` says where the second finds a quoted field name. Both are
  proved over arbitrary nested values and any whitespace. `Envelope` puts them together into the
  checks a submission passes, and says in literal field names which bodies pass.
- **Admission.** `Admission` is the inflight accounting under any interleaving of request
  scopes, with the sequence numbers behind `X-Request-Id`.

`Decimal` and `ByteOrder` hold decimal text, query numbers and the key order; `Responses` the
response bodies; `WaitLoop` the clock of the wait loop against a provider that may not answer.

How things are represented:

- A `std::string` is a Dafny `string` whose characters stand for bytes. No proof uses an upper
  bound on a character, so the results cover all byte strings, and the order of characters is
  the unsigned order of bytes.
- A `std::map` or `std::set` is the strictly ascending sequence its iterators walk.
- `std::optional` is `Option`; a dereference is only written where it is proved non-empty.
- Counters are unbounded. A host accepts fewer than 2^63 submissions (`Host.SubmissionLimit`),
  which is where a creation tick is cast to `long long`. Query parameters and the wait loop's
  clock wrap modulo 2^64.
- Handlers run one at a time, and each `AppState` counter call is one atomic step: no class of
  the original takes a lock, and nothing here claims thread safety.
- The API key check is the Boolean `authorized` of a request; job ids and query parameters
  arrive already matched. `RequestScope`'s destructor is the call to `OnRequestEnd`.
- Every lemma switches automatic induction off, so a proof by induction is its written body.

Where the code differs from its documents, or from what one would expect, the code is followed:

- An absent `limit` or `timeout_ms` counts as 0, not as the default the handlers set first
  (`History.AbsentParameterIsZero`); a wait without `timeout_ms` does not poll.
- `CONTRACT.md` shows the success member as `data`; the code and `docs/CONTRACT.md` say
  `result`.
- `CONTRACT.md` lists the statuses 200, 400, 404, 409 and 500; the code also sends 401, 413 and
  429 (`Contract.EveryResponse`).
- Whitespace between the tokens of a body does not matter, but none may stand before its first
  brace or behind its last (`Envelope.SpacedBodyVerdict`).
- The key scanner knows escapes only at depth 1. It returns an object's own keys exactly when no
  key has a control character, provided the strings in the objects inside are paired: their
  quotation marks come in pairs and braces between the marks of a pair balance. Strings without
  quotation marks are paired.
- The first unpaired string inside hides the keys of all later members, as long as it leaves its
  object open and the strings behind it are free of quotation marks and braces
  (`KeyStrings.UnpairedHidesRest`); a second one can bring the scan back
  (`KeyStrings.UnpairedUndoesUnpaired`); and one that closes its object for the scan can forge a
  key (`KeyStrings.ForgedKeyFound`).
- So the field check passes bodies with the wrong fields, in three ways. A tab in a key is scanned
  as the letter t (`Envelope.AcceptedWithoutField`); a key of an inner object can stand in for a
  required field, without any control character (`Envelope.AcceptedWithForgedField`); and unknown
  fields go unseen behind an unpaired string (`Envelope.AcceptedWithUnknownFields`).
- The field search is a substring search. The first marker it meets is the field's own exactly
  when no earlier member holds a string that equals the field name or ends in a quotation mark
  and the field name (`Markers.FirstMarkerExactly`). `FieldSearch.DecoyMisleads` is a family of
  bodies where such a string misleads it, and `Envelope.ToolTakenForModel` shows accepted tool
  bodies without a model field whose tool id is taken for the model id.
- A model field whose value holds no string or key is not an error: the next key is taken for the
  model id (`Envelope.ModelTaken`).
- The wait loop's clock is added up in `std::size_t`. Unanswered, the loop ends exactly when the
  timeout is at most the range of the counter less the largest power of two that divides the
  cadence (`WaitLoop.EndsExactly`): with the default cadence of 25 always, with 0 only if
  there is no time to wait.

## Model

| member | source | states |
|---|---|---|
| Decimal.DecimalRoundTrip | src/jobs/job_store.cpp:11 | reading the decimal text of a number gives the number back |
| Decimal.CanonicalRoundTrip | src/jobs/job_store.cpp:45-51 | printing undoes reading on the strings without superfluous zeros |
| Decimal.RequestIdRoundTrip | src/server/request_id.cpp:7-11 | a request id is `req-` and at least six digits that read back as the sequence number |
| Decimal.RequestIdInjective | src/server/request_id.cpp:7-11 | two numbers have the same id only if they are equal, across the padding boundary |
| Decimal.ParseNumericParam | src/routes/routes.cpp:197-216 | a present parameter is accepted exactly when it is a non-empty digit string and yields its value modulo 2^64; an absent one yields 0 |
| Decimal.NumericParamRoundTrip | src/routes/routes.cpp:197-216 | every number below 2^64 is read back from its decimal text, with any leading zeros |
| JsonValues.AssignIsMapUpdate | src/server/json_writer.cpp:42-49 | insert_or_assign keeps the keys strictly ascending, updates one key and no other |
| JsonValues.InsertionOrderIrrelevant | src/server/json_writer.cpp:42-49 | two sequences of Set calls with the same last value for each key print the same bytes, keys ascending |
| JsonValues.EscapeText | src/server/json_writer.cpp:55-79 | the escaping loop computes the text that the reader's string rule undoes |
| JsonValues.SerializeInternal | src/server/json_writer.cpp:81-119 | the printing recursion computes the text that the reader undoes |
| JsonValues.SerializeArray | src/server/json_writer.cpp:91-103 | the array loop prints the items in order, separated by commas |
| JsonValues.SerializeObject | src/server/json_writer.cpp:104-116 | the object loop prints the members in key order, separated by commas |
| JsonValues.JsonValue.Array | src/server/json_writer.cpp:21-25 | an empty array from a null value |
| JsonValues.JsonValue.Object | src/server/json_writer.cpp:27-31 | an empty object from a null value |
| JsonValues.JsonValue.Push | src/server/json_writer.cpp:33-40 | appends to an array, and turns any other value into a one-item array |
| JsonValues.JsonValue.Set | src/server/json_writer.cpp:42-49 | updates one member of an object, and turns any other value into a one-member object |
| JsonValues.JsonValue.Serialize | src/server/json_writer.cpp:51-53 | prints what the value holds, whatever fields earlier types left behind |
| JsonParser.EscapeRoundTrip | src/server/json_writer.cpp:55-79 | unescaping undoes escaping on every string, the \u00XX form included |
| JsonParser.PrintRoundTrip | src/server/json_writer.cpp:81-119 | reading a printed value, with any rest that does not start with a digit, gives the value and the rest |
| JsonParser.PrintInjective | src/server/json_writer.cpp:81-119 | values that print alike are equal |
| Compact.PrintShortest | src/server/json_writer.cpp:55-119 | no JSON text that the reader takes for the value is shorter than the printed one |
| Compact.EscapesAreLowerCase | src/server/json_writer.cpp:55-79 | escape sequences use lower-case letters |
| KeyScanner.ExtractTopLevelKeys | src/routes/routes.cpp:108-152 | the loop computes the scan that the lemmas below are about |
| KeyWalk.LookAheadExact | src/routes/routes.cpp:127-133 | the look-ahead succeeds exactly when the next character that is no whitespace is a colon |
| KeyScanner.ReadKeyExact | src/routes/routes.cpp:138-149 | a key is scanned as itself exactly when it has no control character |
| KeyWalk.SpacesDoNotMatter | src/routes/routes.cpp:108-152 | in the text of any object, with any whitespace around its tokens, the scan finds exactly the keys of a walk over its values, in which, away from depth 1, a string toggles the scan at each quotation mark and shifts its depth at each brace, unless a brace in a string takes the scan to depth 1 inside it |
| KeyWalk.ScanFollowsWalk | src/routes/routes.cpp:108-152 | the same for the printed text |
| KeyStrings.PairedFound | src/routes/routes.cpp:108-152 | when inner objects hold only paired strings the walk meets every top-level key at depth 1, and nothing else |
| KeyStrings.ScanFindsReadKeys | src/routes/routes.cpp:108-152 | in a printed object whose inner objects hold only paired strings the scan finds every top-level key, as scanned, and nothing else |
| KeyStrings.ScanFindsKeysExactly | src/routes/routes.cpp:108-152 | these are the object's own keys exactly when no key has a control character |
| KeyStrings.QuoteFreeIsPaired | src/routes/routes.cpp:124-149 | a string without quotation marks is paired, whatever braces and escapes it holds |
| KeyStrings.UnpairedHidesRest | src/routes/routes.cpp:116-150 | when the first unpaired string, at any depth of a member's value, leaves its object open and is followed by no further quotation marks or braces in strings, the scan finds the keys up to that member and no other |
| KeyStrings.InnerStringExact | src/routes/routes.cpp:116-150 | behind one inner string that leaves its object open the next key is found exactly when the string is paired |
| KeyStrings.UnpairedUndoesUnpaired | src/routes/routes.cpp:116-150 | of two strings with an odd number of quotation marks the first hides the key between them and the second makes the key behind it found again |
| KeyStrings.ForgedKeyFound | src/routes/routes.cpp:116-150 | a key of an inner object can end in a text that is found as a top-level key |
| Markers.MarkerAbsentExactly | src/routes/routes.cpp:158-163 | the text of a value, with any whitespace, contains a field's marker exactly when a string in it equals the field name or ends in a quotation mark and the name |
| Markers.FirstMarkerExactly | src/routes/routes.cpp:158-163 | the first marker in the text of an object, with any whitespace, is the field's own exactly when no earlier member holds such a string |
| FieldSearch.FindsField | src/routes/routes.cpp:158-180 | with no decoy before it a field of any value is found, whatever whitespace there is; returned is the first string in its value, or else the next key, as printed and up to the first quotation mark in it |
| FieldSearch.FindsPrinted | src/routes/routes.cpp:158-180 | the same for the printed text |
| FieldSearch.FieldUnchanged | src/routes/routes.cpp:158-180 | for a string field the result is the value itself exactly when nothing in it is escaped |
| FieldSearch.FindsNothing | src/routes/routes.cpp:158-180 | with no decoy anywhere the search returns nothing, whatever whitespace there is |
| FieldSearch.DecoyMisleads | src/routes/routes.cpp:158-180 | in an object that has no such field, a string value equal to the field name makes the search report another field's value |
| Envelope.Validate | src/routes/routes.cpp:231-261 | the checks of a submission compute the verdict that JudgeExact describes |
| Envelope.JudgeExact | src/routes/routes.cpp:231-261 | for any body, when it is accepted and which error it gets otherwise, with the smallest offending field |
| Envelope.BodyVerdict | src/routes/routes.cpp:231-261 | the same in the field names of each endpoint (495-497 for build): accepted are exactly payload; payload and toolId; language, payload and templateId; each with or without modelId; a missing field is the first of these, an unknown one the first other key; a body is any text between two braces |
| Envelope.PrintedBodyVerdict | src/routes/routes.cpp:231-261 | for printed objects the same in terms of the keys of the walk, control characters and unpaired strings included, unless a brace in a string takes the scan to depth 1 inside it |
| Envelope.PairedBodyVerdict | src/routes/routes.cpp:231-261 | with paired strings in inner objects the same in terms of all keys as the scan reads them |
| Envelope.PlainBodyVerdict | src/routes/routes.cpp:231-261 | with paired strings in inner objects and without control characters in the keys the same in terms of the object's own fields |
| Envelope.SpacedBodyVerdict | src/routes/routes.cpp:231-261 | whitespace between the tokens changes no verdict, sizes aside, except that none may stand before the first brace or behind the last |
| Envelope.AcceptedWithoutField | src/routes/routes.cpp:240-252 | a tool body without toolId is accepted, sizes permitting, when a key is toolId with its first letter replaced by a tab |
| Envelope.AcceptedWithForgedField | src/routes/routes.cpp:240-252 | a tool body whose one field is payload is accepted, sizes permitting, when a key of the object in it closes that object for the scan and ends in toolId |
| Envelope.AcceptedWithUnknownFields | src/routes/routes.cpp:240-252 | a chat body is accepted, sizes permitting, whatever fields free of quotation marks and braces follow a payload with an unpaired string |
| Envelope.ModelFound | src/routes/routes.cpp:254-258 | in any accepted body that is the text of an object, with no decoy before the model field, the model id is what the search finds for it, or the default when that is nothing |
| Envelope.ModelTaken | src/routes/routes.cpp:254-258 | in an accepted body whose keys are scanned as they are the model id is the first string or key in the field's value, as printed and up to the first quotation mark in it, or the word payload when it has none; in chat and tool bodies nothing can come before the field, in build bodies the language field must hold no decoy |
| Envelope.ModelTakenAsSent | src/routes/routes.cpp:254-258 | under the same conditions a string model is taken as sent exactly when it needs no escapes |
| Envelope.DefaultModel | src/routes/routes.cpp:254 | an accepted body without a model field and without decoys for it gets the default model |
| Envelope.IdsTaken | src/routes/routes.cpp:260-261 | tool and template are the string fields of these names, as printed and up to the first quotation mark, if no decoy comes before |
| Envelope.ToolTakenForModel | src/routes/routes.cpp:254-261 | tool bodies without a model field whose tool id is taken for the model id as well; they are accepted exactly when the sizes fit |
| Provider.ProviderBridge.SubmitChat | src/provider_bridge/provider_bridge.cpp:49-52 | appends a chat request under the next number |
| Provider.ProviderBridge.SubmitTool | src/provider_bridge/provider_bridge.cpp:54-57 | appends a tool request under the next number |
| Provider.ProviderBridge.SubmitBuild | src/provider_bridge/provider_bridge.cpp:59-62 | appends a build request under the next number |
| Provider.ProviderBridge.Poll | src/provider_bridge/provider_bridge.cpp:64-73 | moves every pending request, answered, behind the ready results and empties pending |
| Provider.ProviderBridge.TakeResult | src/provider_bridge/provider_bridge.cpp:75-86 | returns and removes the first result with the number, if there is one |
| Provider.PayloadIsPrintedObject | src/provider_bridge/provider_bridge.cpp:69 | the assembled reply text is the printed object of request number and type |
| Jobs.LookupExact | src/jobs/job_store.cpp:45-51 | a string finds a record exactly when it is the canonical decimal of a stored number |
| Jobs.CreateConsistent | src/jobs/job_store.cpp:9-24 | a creation keeps the queue a block of the last numbers with exactly these keys in the map, and the new job survives its own eviction pass |
| Jobs.RecentIsNewestFirst | src/jobs/job_store.cpp:63-75 | a listing runs down from the newest tick without gaps, and a smaller limit lists a prefix |
| Jobs.JobStore.constructor | src/jobs/job_store.cpp:7 | an empty store; a bound of 0 becomes 1 |
| Jobs.JobStore.Create | src/jobs/job_store.cpp:9-24 | stores the new record under the next number and evicts |
| Jobs.JobStore.EvictIfNeeded | src/jobs/job_store.cpp:77-83 | drops the oldest ids and their records down to the bound |
| Jobs.JobStore.UpdateStatus | src/jobs/job_store.cpp:26-33 | changes one record's status, if there is one |
| Jobs.JobStore.SetResult | src/jobs/job_store.cpp:35-43 | puts the result into one record and completes it, if there is one |
| Jobs.JobStore.TakeResult | src/jobs/job_store.cpp:53-61 | hands out the record once, when it has a result |
| Jobs.JobStore.ListRecent | src/jobs/job_store.cpp:63-75 | returns the newest min(limit, stored) records; the missing-record test never fails |
| Admission.CountersExact | src/server/app_state.cpp:31-48 | under every interleaving the counters are the counts of scopes, inflight stays within the limit, and closed rejected scopes are errors |
| Admission.DecrementNeverSuppressed | src/server/app_state.cpp:41-44 | closing an accepted scope always decrements |
| Admission.RequestIdsDistinct | src/routes/routes.cpp:42-48 | no two responses of a run carry the same X-Request-Id, though /status takes two numbers |
| Responses.MakeErrorEnvelope | src/http/error_envelopes.cpp:21-35 | builds the error envelope by Set calls |
| Responses.MakeSuccess | src/routes/routes.cpp:88-93 | builds the success envelope around a result |
| Responses.MakeJob | src/routes/routes.cpp:95-106 | builds the object that shows a job |
| Responses.MakeItems | src/routes/routes.cpp:475-478 | builds the listing's array, one object a record, in order |
| Responses.JobToJsonMembers | src/routes/routes.cpp:95-106 | a job is shown as its eight fields in key order |
| Responses.SuccessMembers | src/routes/routes.cpp:88-93 | the success envelope of the contract |
| Responses.ErrorMembers | src/http/error_envelopes.cpp:21-35 | the error envelope of the contract |
| Coupling.LookupMatches | src/jobs/job_store.cpp:45-51 | the map finds exactly the names of live jobs, with the record the service describes |
| Coupling.CoupledSubmit | src/routes/routes.cpp:263-273 | provider request and job record together represent one more submission |
| Coupling.CoupledPoll | src/provider_bridge/provider_bridge.cpp:64-73 | polling moves the watermark to the last job |
| Coupling.CoupledClaim | src/routes/routes.cpp:186-195 | applying a provider result claims the job exactly when it was polled and not claimed |
| Coupling.TakeMatches | src/jobs/job_store.cpp:53-61 | taking succeeds exactly on a claimed and untaken job and marks it taken |
| Coupling.ProviderPartition | src/provider_bridge/provider_bridge.cpp:49-86 | pending, ready and delivered numbers partition the numbers handed out, in ascending order |
| Coupling.StoredJobShape | src/routes/routes.cpp:186-195 | id, tick and provider request of a stored job are one number; it waits exactly while the provider holds it, is complete otherwise, has a result exactly then, and no other status occurs |
| Coupling.StoresDetermined | src/routes/routes.cpp:231-258 | a service has one representation, so a refused submission changes no field of either store |
| Host.AppState.constructor | src/server/app_state.cpp:5-9 | a fresh host represents the empty service |
| Host.AppState.OnRequestStart | src/server/app_state.cpp:31-39 | accepts below the limit and counts, otherwise counts a rejection |
| Host.AppState.OnRequestEnd | src/server/app_state.cpp:41-48 | ends one inflight request and counts an error |
| Host.AppState.MarkReadyState | src/server/app_state.cpp:50-55 | counts a transition exactly when the state changes |
| Host.AppState.NextRequestSequence | src/server/app_state.cpp:23-25 | hands out consecutive numbers |
| Host.AppState.ApplyProviderResult | src/routes/routes.cpp:186-195 | claims the named job's polled result |
| Host.AppState.CreateJob | src/routes/routes.cpp:263-273 | the stored record's job id and the provider's request number are the same number |
| Host.AppState.HandleSubmit | src/routes/routes.cpp:218-280 | represents the abstract submission; the reply names the job by the stored record and the request by the provider's number |
| Host.AppState.HandleGet | src/routes/routes.cpp:507-522 | represents the abstract GET, which polls even for an unknown job |
| Host.AppState.WaitForResult | src/routes/routes.cpp:549-565 | with time to wait, the loop ends in its first round with the job complete, whatever the cadence |
| Host.AppState.HandleWait | src/routes/routes.cpp:533-571 | represents the abstract wait |
| Host.AppState.HandleTake | src/routes/routes.cpp:582-606 | represents the abstract take, which does not poll |
| Host.AppState.HandleList | src/routes/routes.cpp:470-479 | represents the abstract listing |
| Host.AppState.ErrorResponse | src/routes/routes.cpp:50-86 | each error reply's envelope with its literal code, message and details |
| Host.AppState.SuccessResponse | src/routes/routes.cpp:275-279 | each success reply's result object, built by Set calls |
| Host.AppState.Finish | src/routes/routes.cpp:42-60 | one response with the next request id, then the scope closes |
| Host.AppState.ServeRequest | src/routes/routes.cpp:22-86 | one request, admission and authorisation included, is one abstract step and its response |
| Host.AppState.ServeAll | src/routes/routes.cpp:462-607 | for every sequence of requests the stores give the responses of the abstract service, with consecutive request ids |
| History.CreatedIsHistory | src/routes/routes.cpp:272-279 | the job numbers of a run are exactly those its replies reported as created |
| History.PolledIsHistory | src/routes/routes.cpp:507-514 | a job was polled exactly when an admitted GET, or a wait with time to wait, came after its creation |
| History.TakenIsHistory | src/routes/routes.cpp:589-606 | a job is marked taken exactly when a reply handed its result out |
| History.UnauthorizedInRun | src/routes/routes.cpp:62-86 | in a sequential run a request is answered unauthorised exactly when it is not authorised, unless the limit is 0, and then no job, poll, claim or take changes |
| History.GateEffect | src/routes/routes.cpp:62-86 | from any state only an authorised request within the limit reaches its handler |
| History.CountersInRun | src/server/app_state.cpp:31-48 | after a sequential run every request is counted once, as served or rejected, and every response whose status is not 200 as an error |
| History.AdmittedInRun | src/routes/routes.cpp:62-68 | in a sequential run an authorised request gets its handler's reply unless the limit is 0 |
| History.TakeFindsNewestJobs | src/routes/routes.cpp:582-587 | an admitted take answers not found exactly when the name is not the canonical decimal of one of the newest jobs |
| History.TakeDecidedByHistory | src/routes/routes.cpp:589-606 | for a live job the requests and replies so far decide the take: already taken after an earlier successful take, not ready without a poll since the creation, handed out otherwise |
| History.TakenAtMostOnce | src/routes/routes.cpp:589-606 | over any run, from any state, each result is handed out at most once |
| History.TakenCarriesOwnResult | src/routes/routes.cpp:186-195 | what is handed out is the complete record of the submission that created the job, with the ids found in its body and the answer to its number and kind |
| History.GetShowsOwnJob | src/routes/routes.cpp:507-522 | a GET that finds a job reports that job, COMPLETE, with the answer to its own submission |
| History.SubmitPrintedBody | src/routes/routes.cpp:218-280 | a printed object creates the next job exactly when the keys of the walk are the fields of the endpoint and the sizes fit, and the job keeps the ids found in the body; otherwise nothing changes and a field error names the first offending field; unless a brace in a string takes the scan to depth 1 inside it |
| History.SubmitSpacedBody | src/routes/routes.cpp:218-280 | the same with any whitespace between the tokens |
| History.SubmitPairedBody | src/routes/routes.cpp:218-280 | with paired strings in inner objects the same in terms of all keys as the scan reads them |
| History.SubmitPlainBody | src/routes/routes.cpp:218-280 | with paired strings in inner objects and without control characters in the keys the same in terms of its own fields |
| History.EvictedNeverClaimed | src/jobs/job_store.cpp:77-83 | the result of a job evicted unclaimed is never delivered |
| History.PollingShowsComplete | src/routes/routes.cpp:499-572 | GET of a live job succeeds and reports COMPLETE; a wait on one polls and reports COMPLETE exactly when timeout_ms and the configured limit are both positive, and changes nothing otherwise |
| History.AbsentParameterIsZero | src/routes/routes.cpp:197-201 | without limit the listing is empty; without timeout_ms the wait does not poll |
| Outcomes.CompletedIsHistory | src/routes/routes.cpp:186-195 | a job holds its result exactly when an earlier reply showed it complete or handed it out |
| Outcomes.ListCases | src/routes/routes.cpp:470-479 | a listing runs down from the newest job, has as many records as asked for unless the stored jobs are fewer, and a malformed limit is refused |
| Outcomes.WaitCases | src/routes/routes.cpp:533-571 | an unknown job is reported before a malformed parameter; otherwise the job is shown, complete when there was time to wait or it was complete before |
| Delivery.ResponseReadsBack | src/routes/routes.cpp:42-60 | every response body reads back as the value it was printed from, tells success from error, and its result holds the strings of the reply |
| Delivery.PayloadReadsBack | src/provider_bridge/provider_bridge.cpp:69 | the result text reads back as the object of request number and type |
| Delivery.DeliveredIsTaken | src/routes/routes.cpp:602-606 | the bytes of a response of a run hand out a result exactly when its reply does, with the number and type of the record |
| Delivery.DeliveredAtMostOnce | src/routes/routes.cpp:589-606 | of all the response bodies of a run at most one hands out the result of a given request number |
| Delivery.DeliveredToItsSubmission | src/routes/routes.cpp:186-195 | what a response body of a new service's run hands out goes back to an earlier submission whose own response named that job, and carries its kind |
| Contract.StateExact | src/routes/routes.cpp:507-606 | after any run the responses alone tell how many jobs there are and which were polled, completed and taken |
| Contract.EveryResponse | src/routes/routes.cpp:42-86 | in any run of a new service every response has the next request id and is 429, 401 or its command's answer, with status, code, message, field and reason spelled out |
| Contract.TakeAnswered | src/routes/routes.cpp:582-606 | the response to a take, in terms of the responses before it: not_found unless the name is one of the newest jobs, already_taken after a response that handed the result out, not_ready without a poll since the job was named, otherwise the result and the job |
| Contract.TakeReasons | src/routes/routes.cpp:582-606 | each reason in a take's response occurs exactly in its case |
| Contract.GetAnswered | src/routes/routes.cpp:507-522 | not_found, or the job complete, with the ids found in the body that created it |
| Contract.WaitAnswered | src/routes/routes.cpp:533-571 | not_found, a refused parameter, or the job, COMPLETE when there was time to wait or an earlier response showed it so, WAITING otherwise |
| Contract.ListAnswered | src/routes/routes.cpp:470-479 | a refused parameter, or the newest jobs as the responses before tell them |
| Contract.SubmitAnswered | src/routes/routes.cpp:231-279 | each refusal with its status and texts in its case, or the next job id and request id |
| Contract.ServeFromStart | src/server/app_state.cpp:5-9 | all of this for the bytes a host writes from its construction on |
| WaitLoop.EndsInTime | src/routes/routes.cpp:549-565 | unanswered, the loop ends within timeout / cadence rounds, rounded up, exactly when that many cadences fit 64 bits |
| WaitLoop.EndsExactly | src/routes/routes.cpp:549-565 | unanswered, the loop ever ends exactly when timeout plus the largest power of two dividing the cadence is at most 2^64; with cadence 0, only with timeout 0 |
| WaitLoop.OddCadenceEnds | src/server/app_state.h:25 | with an odd cadence, such as the default 25, every wait ends |
| WaitLoop.NoCadenceNeverEnds | src/routes/routes.cpp:563-565 | with cadence 0 an unanswered wait with time to wait never ends |
| WaitLoop.WrappedClockNeverEnds | src/routes/routes.cpp:564 | with a power of two as cadence an unanswered wait longer than its last multiple below 2^64 never ends |
| WaitLoop.Wait | src/routes/routes.cpp:549-565 | the loop ends in the first round that finds the job done or at the first reading of the clock at or past the timeout, whenever it ends at all |

## Left out

- The HTTP library, routing patterns, headers, CORS and sockets: a request arrives as its job id, parameters, body and authorisation.
- Data races and memory-model behaviour: the original has no synchronisation, so only atomic calls and one handler at a time are modelled.
- Wall-clock time, sleeping, uptime, signals and the shutdown drain.
- Argument and environment parsing, the configuration dump, log lines and the Prometheus text.
- The `double` constructor of JsonValue: stream formatting of floating-point numbers.
- The static endpoints, metrics and status bodies; only the sequence numbers and scopes they use are modelled.
- The int `depth` of the key scanner is unbounded here; it could only overflow on bodies with more than 2^31 braces.
- The request counters and sequence numbers are unbounded here; they would wrap after 2^64 requests.
- Handler boundaries: the opening checks and the closing of the scope, which each handler of the original repeats, are written once in ServeRequest, and a response is written from the handler's reply.
- JsonParser.PrintRoundTrip: numbers are integers, as every number the server prints is.
- KeyWalk.ScanFollowsWalk: assumes that no brace in a string takes the scan to depth 1 in the middle of that string; from there on its text is read character by character as if it were the body's own, and ForgedKeyFound shows what that can lead to.
- KeyStrings.ScanFindsKeysExactly: assumes, as ScanFindsReadKeys does, that strings in inner objects are paired; without that the keys found are those of the walk.
- KeyStrings.UnpairedHidesRest: assumes that the strings behind the unpaired one hold no quotation marks and braces; UnpairedUndoesUnpaired shows why, and ScanFollowsWalk covers the rest.
- Envelope.PrintedBodyVerdict: assumes what ScanFollowsWalk assumes, and so does SubmitPrintedBody; JudgeExact speaks of any body.
- Envelope.ModelTaken: assumes keys that are scanned as they are and, in a build body, no decoy before the field; ModelFound speaks of any accepted text of an object without such a decoy.
- FieldSearch.FindsField: assumes, as FieldUnchanged does, that no decoy precedes the field. With one the first marker is not the field's own, by FirstMarkerExactly, and what is returned depends on the text after it.
