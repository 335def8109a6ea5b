/** The service as its clients see it: what the status and the bytes of every response of a run
    are, in terms of the requests and the responses before it. */
module Contract {
  import opened ByteOrder
  import opened Decimal
  import opened JsonValues
  import opened JsonParser
  import opened KeyScanner
  import opened FieldSearch
  import opened Provider
  import opened Jobs
  import opened Envelope
  import opened Responses
  import opened Machine
  import opened History
  import opened Outcomes
  import opened Delivery
  import Host

  // ----- reading a response

  datatype Failure = Failure(status: nat, code: string, message: string, field: string, reason: string)

  function StringAt(v: Json, name: string): Option<string> {
    match Field(v, name)
    case Some(Str(text)) => Some(text)
    case _ => None
  }

  function FailureIn(status: nat, v: Json): Option<Failure> {
    match Field(v, "error")
    case None => None
    case Some(error) =>
      match Field(error, "details")
      case None => None
      case Some(details) =>
        var code, message := StringAt(error, "code"), StringAt(error, "message");
        var field, reason := StringAt(details, "field"), StringAt(details, "reason");
        if code.Some? && message.Some? && field.Some? && reason.Some?
        then Some(Failure(status, code.value, message.value, field.value, reason.value)) else None
  }

  /** The status of an error response with what its envelope says. */
  function ReadFailure(response: Response): Option<Failure> {
    match ParseValue(response.body)
    case Fail => None
    case Ok(v, rest) => FailureIn(response.status, v)
  }

  /** A field of the result in a success response. */
  function ReadValue(body: string, name: string): Option<Json> {
    match ParseValue(body)
    case Fail => None
    case Ok(v, rest) =>
      match Field(v, "result")
      case None => None
      case Some(result) => Field(result, name)
  }

  // ----- what the responses so far tell

  /** The response names a new job. */
  predicate Names(response: Response, id: nat) {
    ReadResult(response.body, "jobId") == Some(ToDecimal(id))
  }

  function NamedCount(responses: seq<Response>): nat {
    if responses == [] then 0
    else NamedCount(responses[..|responses| - 1])
         + (if ReadResult(responses[|responses| - 1].body, "jobId").Some? then 1 else 0)
  }

  /** The string is the canonical decimal of one of the newest jobs. */
  predicate NamesNewest(config: Config, past: seq<Response>, name: string) {
    Canonical(name) && AmongNewest(config, NamedCount(past), DigitsValue(name))
  }

  /** The exchange polled the provider. */
  predicate Polls(config: Config, request: Request, response: Response) {
    match request.command
    case Get(_) => response.status == 200 || response.status == 404
    case Wait(_, timeoutMs) => response.status == 200 && TimeToWait(config, timeoutMs)
    case _ => false
  }

  /** The response shows the job complete. */
  predicate Finishes(response: Response, id: nat) {
    var job := ReadValue(response.body, "job");
    && job.Some? && StringAt(job.value, "jobId") == Some(ToDecimal(id))
    && StringAt(job.value, "status") == Some("COMPLETE")
  }

  ghost predicate FinishedBefore(past: seq<Response>, id: nat) {
    exists q | 0 <= q < |past| :: Finishes(past[q], id)
  }

  ghost predicate DeliveredBefore(past: seq<Response>, id: nat) {
    exists q | 0 <= q < |past| :: Delivers(past[q], id)
  }

  /** Some exchange after the one that named the job polled the provider. */
  ghost predicate PolledAfter(config: Config, requests: seq<Request>, past: seq<Response>, id: nat)
    requires |requests| == |past|
  {
    exists p, q | 0 <= p < q < |past| :: Names(past[p], id) && Polls(config, requests[q], past[q])
  }

  /** A job as a response shows it: its number, the ids found in its body, its kind and status. */
  predicate ShowsJob(v: Json, limits: Limits, kind: Kind, body: string, id: nat, complete: bool) {
    && Field(v, "createdTick") == Some(Num(id))
    && StringAt(v, "jobId") == Some(ToDecimal(id))
    && StringAt(v, "requestId") == Some(FormatRequestId(id))
    && StringAt(v, "requestType") == Some(match kind case Chat => "chat" case Tool => "tool" case Build => "build")
    && StringAt(v, "status") == Some(if complete then "COMPLETE" else "WAITING")
    && StringAt(v, "modelId") == Some(ValueOr(ExtractStringValue(body, "modelId"), limits.defaultModelId))
    && StringAt(v, "toolId") == Some(ValueOr(ExtractStringValue(body, "toolId"), ""))
    && StringAt(v, "templateId") == Some(ValueOr(ExtractStringValue(body, "templateId"), ""))
  }

  /** The job is shown as the one the p-th request submitted. */
  predicate ShownFrom(
    config: Config, requests: seq<Request>, past: seq<Response>, p: nat, id: nat, v: Json, complete: bool)
    requires p < |requests| == |past|
  {
    && requests[p].command.Submit? && Names(past[p], id)
    && ShowsJob(v, config.limits, requests[p].command.kind, requests[p].command.body, id, complete)
  }

  ghost predicate ShowsOwn(
    config: Config, requests: seq<Request>, past: seq<Response>, id: nat, v: Json, complete: bool)
    requires |requests| == |past|
  {
    exists p | 0 <= p < |past| :: ShownFrom(config, requests, past, p, id, v, complete)
  }

  // ----- the answer to each command

  predicate Succeeds(response: Response) {
    response.status == 200 && ReadFailure(response) == None
  }

  const UnknownJob := Failure(404, "not_found", "job not found", "jobId", "unknown")

  ghost predicate AnswersGet(
    config: Config, requests: seq<Request>, past: seq<Response>, name: string, response: Response)
    requires |requests| == |past|
  {
    if !NamesNewest(config, past, name) then ReadFailure(response) == Some(UnknownJob)
    else
      && Succeeds(response) && ReadValue(response.body, "job").Some?
      && ShowsOwn(config, requests, past, DigitsValue(name), ReadValue(response.body, "job").value, true)
  }

  ghost predicate AnswersWait(
    config: Config, requests: seq<Request>, past: seq<Response>,
    name: string, timeoutMs: Option<string>, response: Response)
    requires |requests| == |past|
  {
    if !NamesNewest(config, past, name) then ReadFailure(response) == Some(UnknownJob)
    else if Malformed(timeoutMs) then
      ReadFailure(response) == Some(Failure(400, "bad_request", "timeout_ms must be numeric", "timeout_ms", "invalid"))
    else
      var id := DigitsValue(name);
      && Succeeds(response) && ReadValue(response.body, "job").Some?
      && ShowsOwn(config, requests, past, id, ReadValue(response.body, "job").value,
                  TimeToWait(config, timeoutMs) || FinishedBefore(past, id))
  }

  ghost predicate AnswersTake(
    config: Config, requests: seq<Request>, past: seq<Response>, name: string, response: Response)
    requires |requests| == |past|
  {
    if !NamesNewest(config, past, name) then ReadFailure(response) == Some(UnknownJob)
    else
      var id := DigitsValue(name);
      if DeliveredBefore(past, id) then
        ReadFailure(response) == Some(Failure(409, "conflict", "result already taken", "jobId", "already_taken"))
      else if !PolledAfter(config, requests, past, id) then
        ReadFailure(response) == Some(Failure(409, "conflict", "result not ready", "jobId", "not_ready"))
      else
        && Succeeds(response) && Delivers(response, id) && ReadValue(response.body, "job").Some?
        && ShowsOwn(config, requests, past, id, ReadValue(response.body, "job").value, true)
  }

  /** The item at a position of a listing is the job so many before the last one named. */
  ghost predicate ItemShown(config: Config, requests: seq<Request>, past: seq<Response>, item: Json, j: nat)
    requires |requests| == |past|
  {
    var n := NamedCount(past);
    && j < n && AmongNewest(config, n, n - j)
    && ShowsOwn(config, requests, past, n - j, item, FinishedBefore(past, n - j))
  }

  ghost predicate AnswersList(
    config: Config, requests: seq<Request>, past: seq<Response>, limit: Option<string>, response: Response)
    requires |requests| == |past|
  {
    if Malformed(limit) then
      ReadFailure(response) == Some(Failure(400, "bad_request", "limit must be numeric", "limit", "invalid"))
    else
      var items := ReadValue(response.body, "items");
      && Succeeds(response) && items.Some? && items.value.Arr?
      && |items.value.items| <= NumericParam(limit).value
      && (forall j | 0 <= j < |items.value.items| :: ItemShown(config, requests, past, items.value.items[j], j))
      && (|items.value.items| == NumericParam(limit).value
          || !AmongNewest(config, NamedCount(past), NamedCount(past) - |items.value.items|))
  }

  ghost predicate AnswersSubmit(config: Config, past: seq<Response>, kind: Kind, body: string, response: Response) {
    var keys := TopLevelKeys(body);
    var failure := ReadFailure(response);
    if !Braced(body) then
      failure == Some(Failure(400, "bad_request", "request body must be a JSON object", "body", "invalid_shape"))
    else if |body| > config.limits.maxBodyBytes then
      failure == Some(Failure(413, "payload_too_large", "request body too large", "body", "too_large"))
    else if !FieldsFit(kind, keys) then
      exists field :: || (Lacks(kind, keys, field)
                          && failure == Some(Failure(400, "bad_request", "missing required field", field, "required")))
                      || (Exceeds(kind, keys, field)
                          && failure == Some(Failure(400, "bad_request", "unknown field", field, "unknown")))
    else if |ValueOr(ExtractStringValue(body, "modelId"), config.limits.defaultModelId)|
            > config.limits.maxFieldBytes then
      failure == Some(Failure(400, "bad_request", "modelId too large", "modelId", "too_large"))
    else
      && Succeeds(response) && Names(response, NamedCount(past) + 1)
      && ReadResult(response.body, "requestId") == Some(FormatRequestId(NamedCount(past) + 1))
  }

  /** The k-th response answers the k-th request. */
  ghost predicate Answers(config: Config, requests: seq<Request>, responses: seq<Response>, k: nat)
    requires k < |requests| == |responses|
  {
    var before, past, response := requests[..k], responses[..k], responses[k];
    && response.requestId == FormatRequestId(k + 1)
    && if config.maxInflight == 0 then
         ReadFailure(response)
         == Some(Failure(429, "too_many_requests", "too many in-flight requests", "requests", "max_inflight"))
       else if !requests[k].authorized then
         ReadFailure(response)
         == Some(Failure(401, "unauthorized", "api key is required", "X-Api-Key", "missing_or_invalid"))
       else match requests[k].command
         case Submit(kind, body) => AnswersSubmit(config, past, kind, body, response)
         case Get(name) => AnswersGet(config, before, past, name, response)
         case Wait(name, timeoutMs) => AnswersWait(config, before, past, name, timeoutMs, response)
         case Take(name) => AnswersTake(config, before, past, name, response)
         case List(limit) => AnswersList(config, before, past, limit, response)
  }

  // ----- the bytes of each reply

  lemma {:induction false} EnvelopeFailure(status: nat, code: string, message: string, field: string, reason: string)
    ensures FailureIn(status, ErrorEnvelope(code, message, field, reason))
         == Some(Failure(status, code, message, field, reason))
  {
    var details := With(With(Obj([]), "field", Str(field)), "reason", Str(reason));
    var error := With(With(Obj([]), "code", Str(code)), "details", details);
    var full := With(error, "message", Str(message));
    hide With, Ordered, Field;
    ScalarsOrdered(code, message, field, reason);
    TwoFields("field", Str(field), "reason", Str(reason), "field");
    TwoFields("field", Str(field), "reason", Str(reason), "reason");
    TwoFields("code", Str(code), "details", details, "code");
    TwoFields("code", Str(code), "details", details, "details");
    TwoFields("code", Str(code), "details", details, "message");
    WithField(error, "message", Str(message), "code");
    WithField(error, "message", Str(message), "details");
    WithField(error, "message", Str(message), "message");
    TwoFields("error", full, "ok", Bool(false), "error");
  }

  lemma {:induction false} RefusalFailure(refusal: Refusal)
    ensures FailureIn(StatusOf(Refused(refusal)), RefusalBody(refusal)) == Some(
      match refusal
      case BadShape => Failure(400, "bad_request", "request body must be a JSON object", "body", "invalid_shape")
      case BodyTooLarge => Failure(413, "payload_too_large", "request body too large", "body", "too_large")
      case MissingField(field) => Failure(400, "bad_request", "missing required field", field, "required")
      case UnknownField(field) => Failure(400, "bad_request", "unknown field", field, "unknown")
      case ModelTooLarge => Failure(400, "bad_request", "modelId too large", "modelId", "too_large"))
  {
    hide ErrorEnvelope, FailureIn;
    match refusal
    case BadShape =>
      EnvelopeFailure(400, "bad_request", "request body must be a JSON object", "body", "invalid_shape");
    case BodyTooLarge =>
      EnvelopeFailure(413, "payload_too_large", "request body too large", "body", "too_large");
    case MissingField(field) =>
      EnvelopeFailure(400, "bad_request", "missing required field", field, "required");
    case UnknownField(field) =>
      EnvelopeFailure(400, "bad_request", "unknown field", field, "unknown");
    case ModelTooLarge =>
      EnvelopeFailure(400, "bad_request", "modelId too large", "modelId", "too_large");
  }

  lemma {:induction false} ReplyFailure(reply: Reply)
    requires IsError(reply) && !reply.Refused?
    ensures FailureIn(StatusOf(reply), BodyOf(reply)) == Some(
      match reply
      case TooManyRequests =>
        Failure(429, "too_many_requests", "too many in-flight requests", "requests", "max_inflight")
      case Unauthorized => Failure(401, "unauthorized", "api key is required", "X-Api-Key", "missing_or_invalid")
      case BadParameter(name) => Failure(400, "bad_request", name + " must be numeric", name, "invalid")
      case AlreadyTaken => Failure(409, "conflict", "result already taken", "jobId", "already_taken")
      case NotReady => Failure(409, "conflict", "result not ready", "jobId", "not_ready")
      case _ => UnknownJob)
  {
    hide ErrorEnvelope, RefusalBody, FailureIn;
    match reply
    case TooManyRequests =>
      EnvelopeFailure(429, "too_many_requests", "too many in-flight requests", "requests", "max_inflight");
    case Unauthorized =>
      EnvelopeFailure(401, "unauthorized", "api key is required", "X-Api-Key", "missing_or_invalid");
    case BadParameter(name) =>
      EnvelopeFailure(400, "bad_request", name + " must be numeric", name, "invalid");
    case NotFound =>
      EnvelopeFailure(404, "not_found", "job not found", "jobId", "unknown");
    case AlreadyTaken =>
      EnvelopeFailure(409, "conflict", "result already taken", "jobId", "already_taken");
    case NotReady =>
      EnvelopeFailure(409, "conflict", "result not ready", "jobId", "not_ready");
  }

  /** An error response reads as its envelope. */
  lemma {:induction false} ResponseFailure(sequence: nat, reply: Reply)
    ensures ReadFailure(Respond(sequence, reply)) == FailureIn(StatusOf(reply), BodyOf(reply))
  {
    ResponseReadsBack(reply, "");
    hide BodyOf, StatusOf, ParseValue, Print, FailureIn;
  }

  lemma {:induction false} ResponseValue(sequence: nat, reply: Reply, name: string)
    ensures ReadValue(Respond(sequence, reply).body, name)
         == if IsError(reply) then None else Field(ResultOf(reply), name)
  {
    ResponseReadsBack(reply, name);
    BodyFields(reply);
    hide BodyOf, StatusOf, ParseValue, Print, Field, ResultOf;
  }

  lemma {:induction false} FieldAt(ms: seq<Member>, i: nat)
    requires Sorted(ms) && i < |ms|
    ensures Find(ms, ms[i].key) == Some(ms[i].value)
  {
    if i > 0 {
      FieldAt(ms[1..], i - 1);
      assert ms[0].key != ms[i].key by {
        LessDistinct(ms, i);
      }
    }
  }

  lemma {:induction false} LessDistinct(ms: seq<Member>, i: nat)
    requires Sorted(ms) && 0 < i < |ms|
    ensures ms[0].key != ms[i].key
  {
    LessAsymmetric(ms[0].key, ms[i].key);
  }

  lemma {:induction false} JobMembers(job: JobRecord, i: nat)
    requires i < 8
    ensures Field(JobToJson(job), JobFields(job)[i].key) == Some(JobFields(job)[i].value)
  {
    JobToJsonMembers(job);
    assert |JobFields(job)| == 8;
    hide JobFields, Find;
    FieldAt(JobFields(job), i);
  }

  lemma {:induction false} JobReads(job: JobRecord)
    ensures var v := JobToJson(job);
            && Field(v, "createdTick") == Some(Num(job.createdTick))
            && StringAt(v, "jobId") == Some(job.jobId)
            && StringAt(v, "modelId") == Some(job.modelId)
            && StringAt(v, "requestId") == Some(FormatRequestId(job.providerRequestId))
            && StringAt(v, "requestType") == Some(job.requestType)
            && StringAt(v, "status") == Some(StatusName(job.status))
            && StringAt(v, "templateId") == Some(job.templateId)
            && StringAt(v, "toolId") == Some(job.toolId)
  {
    hide JobToJson, Field, FormatRequestId, StatusName;
    JobMembers(job, 0);
    JobMembers(job, 1);
    JobMembers(job, 2);
    JobMembers(job, 3);
    JobMembers(job, 4);
    JobMembers(job, 5);
    JobMembers(job, 6);
    JobMembers(job, 7);
  }

  lemma {:induction false} DescribedIsShown(
    record: JobRecord, limits: Limits, kind: Kind, body: string, id: nat, complete: bool)
    requires Describes(record, id, JobFrom(limits, kind, body), complete)
    ensures ShowsJob(JobToJson(record), limits, kind, body, id, complete)
  {
    JobReads(record);
    hide JobToJson, Field, StringAt, FormatRequestId, ExtractStringValue, ToDecimal, ResultPayload;
  }

  lemma {:induction false} RecordIn(reply: Reply)
    requires reply.Shown? || reply.Taken?
    ensures Field(ResultOf(reply), "job") == Some(JobToJson(reply.record))
  {
    JobToJsonMembers(reply.record);
    hide JobToJson, With, Field;
    if reply.Shown? {
      OneField("job", JobToJson(reply.record), "job");
    } else {
      ScalarsOrdered(reply.record.result, "", "", "");
      TwoFields("job", JobToJson(reply.record), "result", Str(reply.record.result), "job");
    }
  }

  lemma {:induction false} NoRecordIn(reply: Reply)
    requires !IsError(reply) && !reply.Shown? && !reply.Taken?
    ensures Field(ResultOf(reply), "job") == None
  {
    hide With, Field, FormatRequestId;
    match reply
    case Created(jobId, requestId) =>
      ScalarsOrdered(jobId, FormatRequestId(requestId), "", "");
      TwoFields("jobId", Str(jobId), "requestId", Str(FormatRequestId(requestId)), "job");
    case Listed(records) =>
      JobsOrdered(records);
      OneField("items", Arr(JobsToJson(records)), "job");
  }

  lemma {:induction false} ItemsIn(records: seq<JobRecord>)
    ensures Field(ResultOf(Listed(records)), "items") == Some(Arr(JobsToJson(records)))
  {
    hide With, Field;
    JobsOrdered(records);
    OneField("items", Arr(JobsToJson(records)), "items");
  }

  // ----- what each response tells is what its reply says

  /** The record of a shown job is that of a live one. */
  lemma {:induction false} ShownRecord(m: Service, request: Request)
    requires WellFormed(m)
    ensures var reply := Serve(m, request).1;
            reply.Shown? || reply.Taken? ==>
              && reply.record.jobId == ToDecimal(reply.record.providerRequestId)
              && (reply.record.status == Complete || reply.record.status == Waiting)
  {
    GateEffect(m, request);
    hide Serve, ToDecimal, Judge, Newest, NumericParam, Canonical, ResultPayload;
  }

  lemma {:induction false} StatusNames(status: JobStatus)
    requires status == Complete || status == Waiting
    ensures StatusName(status) == "COMPLETE" <==> status == Complete
  {
  }

  lemma {:induction false} FinishesExact(m: Service, request: Request, sequence: nat, id: nat)
    requires WellFormed(m)
    ensures var reply := Serve(m, request).1;
            Finishes(Respond(sequence, reply), id) <==> Completes(reply, id)
  {
    var reply := Serve(m, request).1;
    ShownRecord(m, request);
    hide Serve, Respond, ResultOf, JobToJson, StringAt, ToDecimal, StatusName;
    ResponseValue(sequence, reply, "job");
    if reply.Shown? || reply.Taken? {
      RecordIn(reply);
      JobReads(reply.record);
      StatusNames(reply.record.status);
      DecimalInjective(reply.record.providerRequestId, id);
    } else if !IsError(reply) {
      NoRecordIn(reply);
    }
  }

  lemma {:induction false} NamesExact(m: Service, request: Request, sequence: nat, id: nat)
    ensures var reply := Serve(m, request).1;
            && (Names(Respond(sequence, reply), id) <==> reply == Created(ToDecimal(id), id))
            && (ReadResult(Respond(sequence, reply).body, "jobId").Some? <==> reply.Created?)
  {
    var reply := Serve(m, request).1;
    JobsEffect(m, request);
    hide Serve, BodyOf, Print, ReadResult, ToDecimal;
    ResponseReadsBack(reply, "jobId");
    if reply.Created? {
      DecimalInjective(reply.requestId, id);
    }
  }

  lemma {:induction false} PollsExact(m: Service, request: Request, sequence: nat)
    ensures var reply := Serve(m, request).1;
            Polls(m.config, request, Respond(sequence, reply)) <==> IsPoll(m.config, request.command, reply)
  {
    GateEffect(m, request);
    match request.command {
      case Get(name) =>
        GetCases(m, name);
      case Wait(name, timeoutMs) =>
        WaitCases(m, name, timeoutMs);
      case _ =>
    }
    hide Serve, Handle, BodyOf, Print, LiveId, Describes;
  }

  // ----- the state of a run, read off its responses

  lemma {:induction false} Prefix(m: Service, requests: seq<Request>, responses: seq<Response>, k: nat)
    requires AnsweredBy(m, requests, responses) && k <= |requests|
    ensures AnsweredBy(m, requests[..k], responses[..k])
  {
    hide Respond, Replies, After, Serve;
    if k < |requests| {
      ReplyOf(m, requests, k);
      assert forall j | 0 <= j < k :: Replies(m, requests)[..k][j] == Replies(m, requests)[j];
    } else {
      assert requests[..k] == requests && responses[..k] == responses;
    }
  }

  /** The k-th response is that of a reply of the service its predecessors left. */
  lemma {:induction false} ResponseOf(m: Service, requests: seq<Request>, responses: seq<Response>, k: nat)
    requires AnsweredBy(m, requests, responses) && k < |requests|
    ensures responses[k] == Respond(m.nextSequence + k, Serve(After(m, requests[..k]), requests[k]).1)
    ensures Replies(m, requests)[k] == Serve(After(m, requests[..k]), requests[k]).1
  {
    ReplyOf(m, requests, k);
    hide Respond, Serve, After;
  }

  lemma {:induction false} EventsExact(m: Service, requests: seq<Request>, responses: seq<Response>, k: nat, id: nat)
    requires IsNew(m) && AnsweredBy(m, requests, responses) && k < |requests|
    ensures var replies := Replies(m, requests);
            && (Names(responses[k], id) <==> CreatedAt(replies, k, id))
            && (ReadResult(responses[k].body, "jobId").Some? <==> replies[k].Created?)
            && (Polls(m.config, requests[k], responses[k]) <==> PollsAt(m.config, requests, replies, k))
            && (Finishes(responses[k], id) <==> Completes(replies[k], id))
            && (Delivers(responses[k], id) <==> TakenAt(replies, k, id))
  {
    var before := After(m, requests[..k]);
    RunKeeps(m, requests[..k]);
    ResponseOf(m, requests, responses, k);
    DeliveredIsTaken(m, requests, responses, k);
    hide After, Replies, Serve, Respond, Delivered, ReadResult, Finishes, Completes, Names, Polls, IsPoll, AnsweredBy;
    NamesExact(before, requests[k], m.nextSequence + k, id);
    PollsExact(before, requests[k], m.nextSequence + k);
    FinishesExact(before, requests[k], m.nextSequence + k, id);
  }

  lemma {:induction false} CountExact(m: Service, requests: seq<Request>, responses: seq<Response>)
    requires IsNew(m) && AnsweredBy(m, requests, responses)
    ensures NamedCount(responses) == Creations(Replies(m, requests))
  {
    if requests != [] {
      var n := |requests| - 1;
      Prefix(m, requests, responses, n);
      CountExact(m, requests[..n], responses[..n]);
      EventsExact(m, requests, responses, n, 0);
      LastStep(m, requests);
      hide Serve, After, ReadResult, AnsweredBy;
    }
  }

  /** The service after a run, in terms of the responses. */
  ghost predicate StateTold(config: Config, requests: seq<Request>, responses: seq<Response>, m: Service, id: nat)
    requires |requests| == |responses|
  {
    && |m.jobs| == NamedCount(responses)
    && (id in m.taken <==> DeliveredBefore(responses, id))
    && (id in m.claimed <==> FinishedBefore(responses, id))
    && (1 <= id <= m.polled <==> PolledAfter(config, requests, responses, id))
  }

  /** The same exchanges match in the responses and in the replies. */
  ghost predicate Told(m: Service, requests: seq<Request>, responses: seq<Response>, id: nat)
    requires |responses| == |requests|
  {
    var replies := Replies(m, requests);
    forall k | 0 <= k < |requests| ::
      && (Names(responses[k], id) <==> CreatedAt(replies, k, id))
      && (Polls(m.config, requests[k], responses[k]) <==> PollsAt(m.config, requests, replies, k))
      && (Finishes(responses[k], id) <==> Completes(replies[k], id))
      && (Delivers(responses[k], id) <==> TakenAt(replies, k, id))
  }

  lemma {:induction false} ToldExact(m: Service, requests: seq<Request>, responses: seq<Response>, id: nat)
    requires IsNew(m) && AnsweredBy(m, requests, responses)
    ensures Told(m, requests, responses, id)
  {
    assert |responses| == |requests|;
    hide AnsweredBy, IsNew, Replies, Names, CreatedAt, Polls, PollsAt, Finishes, Completes, Delivers, TakenAt;
    forall k | 0 <= k < |requests|
      ensures (Names(responses[k], id) <==> CreatedAt(Replies(m, requests), k, id))
      ensures (Polls(m.config, requests[k], responses[k]) <==> PollsAt(m.config, requests, Replies(m, requests), k))
      ensures (Finishes(responses[k], id) <==> Completes(Replies(m, requests)[k], id))
      ensures (Delivers(responses[k], id) <==> TakenAt(Replies(m, requests), k, id))
    {
      EventsExact(m, requests, responses, k, id);
    }
  }

  lemma {:induction false} ToldBefore(m: Service, requests: seq<Request>, responses: seq<Response>, id: nat)
    requires |responses| == |requests| && Told(m, requests, responses, id)
    ensures DeliveredBefore(responses, id) <==> TakenBefore(Replies(m, requests), id)
    ensures FinishedBefore(responses, id) <==> CompletedBefore(Replies(m, requests), id)
    ensures PolledAfter(m.config, requests, responses, id)
       <==> PolledSince(m.config, requests, Replies(m, requests), id)
  {
    hide Replies, Names, CreatedAt, Polls, PollsAt, Finishes, Completes, Delivers, TakenAt;
  }

  lemma {:induction false} StateExact(m: Service, requests: seq<Request>, responses: seq<Response>, id: nat)
    requires IsNew(m) && AnsweredBy(m, requests, responses)
    ensures StateTold(m.config, requests, responses, After(m, requests), id)
  {
    hide After, Replies, Told, NamedCount, Creations, IsNew;
    JobCountIsHistory(m, requests);
    CountExact(m, requests, responses);
    TakenIsHistory(m, requests, id);
    CompletedIsHistory(m, requests, id);
    PolledIsHistory(m, requests, id);
    ToldExact(m, requests, responses, id);
    ToldBefore(m, requests, responses, id);
    hide DeliveredBefore, FinishedBefore, PolledAfter, TakenBefore, CompletedBefore, PolledSince;
  }

  /** Each job is kept as the request submitted it whose response named it. */
  lemma {:induction false} OwnerTold(m: Service, requests: seq<Request>, responses: seq<Response>, id: nat)
    returns (p: nat)
    requires IsNew(m) && AnsweredBy(m, requests, responses) && 1 <= id <= |After(m, requests).jobs|
    ensures p < |requests| && requests[p].command.Submit? && Names(responses[p], id)
    ensures After(m, requests).jobs[id - 1]
         == JobFrom(m.config.limits, requests[p].command.kind, requests[p].command.body)
  {
    hide After, Replies, Names, JobFrom, AnsweredBy;
    p := JobHasSubmission(m, requests, id);
    EventsExact(m, requests, responses, p, id);
  }

  lemma {:induction false} RecordShown(
    m: Service, requests: seq<Request>, responses: seq<Response>, id: nat, record: JobRecord, complete: bool)
    requires IsNew(m) && AnsweredBy(m, requests, responses) && 1 <= id <= |After(m, requests).jobs|
    requires Describes(record, id, After(m, requests).jobs[id - 1], complete)
    ensures ShowsOwn(m.config, requests, responses, id, JobToJson(record), complete)
  {
    hide After, Replies, Names, JobFrom, Describes, JobToJson, ShowsJob;
    var p := OwnerTold(m, requests, responses, id);
    DescribedIsShown(record, m.config.limits, requests[p].command.kind, requests[p].command.body, id, complete);
    assert ShownFrom(m.config, requests, responses, p, id, JobToJson(record), complete);
  }

  // ----- every response of a run

  /** The name is live in the service exactly when the responses say so. */
  lemma {:induction false} NewestExact(m: Service, requests: seq<Request>, responses: seq<Response>, name: string)
    requires IsNew(m) && AnsweredBy(m, requests, responses)
    ensures LiveId(After(m, requests), name)
         == if NamesNewest(m.config, responses, name) then Some(DigitsValue(name)) else None
    ensures NamedCount(responses) == |After(m, requests).jobs|
    ensures After(m, requests).config == m.config && WellFormed(After(m, requests))
  {
    StateExact(m, requests, responses, 0);
    RunKeeps(m, requests);
    hide After, NamedCount, LiveId, Canonical, AmongNewest;
    LiveExact(After(m, requests), name);
  }

  lemma {:induction false} LiveInRange(m: Service, name: string)
    ensures LiveId(m, name).Some? ==> 1 <= LiveId(m, name).value <= |m.jobs|
  {
  }

  lemma {:induction false} ErrorAnswer(sequence: nat, reply: Reply)
    requires IsError(reply) && !reply.Refused?
    ensures ReadFailure(Respond(sequence, reply)) == Some(
      match reply
      case TooManyRequests =>
        Failure(429, "too_many_requests", "too many in-flight requests", "requests", "max_inflight")
      case Unauthorized => Failure(401, "unauthorized", "api key is required", "X-Api-Key", "missing_or_invalid")
      case BadParameter(name) => Failure(400, "bad_request", name + " must be numeric", name, "invalid")
      case AlreadyTaken => Failure(409, "conflict", "result already taken", "jobId", "already_taken")
      case NotReady => Failure(409, "conflict", "result not ready", "jobId", "not_ready")
      case _ => UnknownJob)
  {
    hide BodyOf, StatusOf, FailureIn, ReadFailure, Respond;
    ReplyFailure(reply);
    ResponseFailure(sequence, reply);
  }

  lemma {:induction false} SuccessAnswer(sequence: nat, reply: Reply)
    requires !IsError(reply)
    ensures Succeeds(Respond(sequence, reply))
  {
    assert StatusOf(reply) == 200 && BodyOf(reply) == Success(ResultOf(reply));
    hide BodyOf, StatusOf, ResultOf, ReadFailure;
    ResultFields(reply, "");
    NoErrorIn(ResultOf(reply));
    ResponseFailure(sequence, reply);
  }

  lemma {:induction false} NoErrorIn(result: Json)
    requires Ordered(result)
    ensures FailureIn(200, Success(result)) == None
  {
    TwoFields("ok", Bool(true), "result", result, "error");
  }

  lemma {:induction false} JobAnswer(
    m: Service, requests: seq<Request>, responses: seq<Response>, sequence: nat, reply: Reply, id: nat, complete: bool)
    requires IsNew(m) && AnsweredBy(m, requests, responses) && 1 <= id <= |After(m, requests).jobs|
    requires reply.Shown? || reply.Taken?
    requires Describes(reply.record, id, After(m, requests).jobs[id - 1], complete)
    ensures var response := Respond(sequence, reply);
            && Succeeds(response) && ReadValue(response.body, "job").Some?
            && ShowsOwn(m.config, requests, responses, id, ReadValue(response.body, "job").value, complete)
  {
    SuccessAnswer(sequence, reply);
    hide After, AnsweredBy, IsNew, Describes, Succeeds, ResultOf, BodyOf, ReadValue, ShowsOwn, JobToJson, Respond;
    RecordIn(reply);
    ResponseValue(sequence, reply, "job");
    RecordShown(m, requests, responses, id, reply.record, complete);
  }

  lemma {:induction false} GetAnswered(
    m: Service, requests: seq<Request>, responses: seq<Response>, name: string, sequence: nat)
    requires IsNew(m) && AnsweredBy(m, requests, responses)
    ensures AnswersGet(m.config, requests, responses, name,
                       Respond(sequence, Handle(After(m, requests), Get(name)).1))
  {
    hide After, Handle, AnsweredBy, IsNew, NamesNewest, Succeeds, ReadFailure, ReadValue, Respond, LiveId;
    hide Describes, ShowsOwn;
    hide FinishedBefore, DeliveredBefore, PolledAfter, Delivers;
    var s := After(m, requests);
    var reply := Handle(s, Get(name)).1;
    NewestExact(m, requests, responses, name);
    GetCases(s, name);
    LiveInRange(s, name);
    if reply == NotFound {
      ErrorAnswer(sequence, reply);
    } else {
      JobAnswer(m, requests, responses, sequence, reply, LiveId(s, name).value, true);
    }
  }

  lemma {:induction false} WaitAnswered(
    m: Service, requests: seq<Request>, responses: seq<Response>,
    name: string, timeoutMs: Option<string>, sequence: nat)
    requires IsNew(m) && AnsweredBy(m, requests, responses)
    ensures AnswersWait(m.config, requests, responses, name, timeoutMs,
                        Respond(sequence, Handle(After(m, requests), Command.Wait(name, timeoutMs)).1))
  {
    hide TimeToWait, Malformed;
    hide After, Handle, AnsweredBy, IsNew, NamesNewest, Succeeds, ReadFailure, ReadValue, Respond, LiveId;
    hide Describes, ShowsOwn;
    hide FinishedBefore, DeliveredBefore, PolledAfter, Delivers;
    var s := After(m, requests);
    var reply := Handle(s, Command.Wait(name, timeoutMs)).1;
    NewestExact(m, requests, responses, name);
    WaitCases(s, name, timeoutMs);
    LiveInRange(s, name);
    if reply == NotFound || reply.BadParameter? {
      ErrorAnswer(sequence, reply);
      assert "timeout_ms" + " must be numeric" == "timeout_ms must be numeric";
    } else {
      var id := LiveId(s, name).value;
      StateExact(m, requests, responses, id);
      JobAnswer(m, requests, responses, sequence, reply, id, TimeToWait(m.config, timeoutMs) || id in s.claimed);
    }
  }

  lemma {:induction false} TakeAnswered(
    m: Service, requests: seq<Request>, responses: seq<Response>, name: string, sequence: nat)
    requires IsNew(m) && AnsweredBy(m, requests, responses)
    ensures AnswersTake(m.config, requests, responses, name,
                        Respond(sequence, Handle(After(m, requests), Take(name)).1))
  {
    hide After, Handle, AnsweredBy, IsNew, NamesNewest, Succeeds, ReadFailure, ReadValue, Respond, LiveId;
    hide Describes, ShowsOwn;
    hide FinishedBefore, DeliveredBefore, PolledAfter, Delivers;
    var s := After(m, requests);
    var reply := Handle(s, Take(name)).1;
    NewestExact(m, requests, responses, name);
    TakeCases(s, name);
    LiveInRange(s, name);
    if LiveId(s, name).None? {
      ErrorAnswer(sequence, reply);
    } else {
      var id := LiveId(s, name).value;
      StateExact(m, requests, responses, id);
      if reply.Taken? {
        JobAnswer(m, requests, responses, sequence, reply, id, true);
        TakenDelivers(sequence, reply, id, s.jobs[id - 1]);
      } else {
        ErrorAnswer(sequence, reply);
      }
    }
  }

  lemma {:induction false} TakenDelivers(sequence: nat, reply: Reply, id: nat, job: Submission)
    requires reply.Taken? && Describes(reply.record, id, job, true)
    ensures Delivers(Respond(sequence, reply), id)
  {
    hide BodyOf, Print, ReadResult, ReadPayload, ResultPayload;
    ResponseReadsBack(reply, "result");
    PayloadReadsBack(id, job.kind);
  }

  lemma {:induction false} ListRead(sequence: nat, records: seq<JobRecord>)
    ensures var response := Respond(sequence, Listed(records));
            Succeeds(response) && ReadValue(response.body, "items") == Some(Arr(JobsToJson(records)))
  {
    hide Succeeds, ReadValue, Respond, ResultOf;
    var reply := Listed(records);
    ItemsIn(records);
    ResponseValue(sequence, reply, "items");
    SuccessAnswer(sequence, reply);
  }

  lemma {:induction false} SameLength(m: Service, requests: seq<Request>, responses: seq<Response>)
    requires AnsweredBy(m, requests, responses)
    ensures |responses| == |requests|
  {
  }

  lemma {:induction false} ItemsAnswered(
    m: Service, requests: seq<Request>, responses: seq<Response>, records: seq<JobRecord>, limit: nat)
    requires IsNew(m) && AnsweredBy(m, requests, responses) && Lists(After(m, requests), records, limit)
    ensures var n := NamedCount(responses);
            && |records| <= limit
            && (forall j | 0 <= j < |records| :: ItemShown(m.config, requests, responses, JobsToJson(records)[j], j))
            && (|records| == limit || !AmongNewest(m.config, n, n - |records|))
  {
    hide After, AnsweredBy, IsNew, Respond, Replies, ItemShown, ListsAt, JobToJson, NamedCount, AmongNewest;
    SameLength(m, requests, responses);
    NewestExact(m, requests, responses, "");
    forall j | 0 <= j < |records| ensures ItemShown(m.config, requests, responses, JobsToJson(records)[j], j) {
      ItemAnswered(m, requests, responses, records[j], j);
    }
  }

  lemma {:induction false} ListAnswered(
    m: Service, requests: seq<Request>, responses: seq<Response>, limit: Option<string>, sequence: nat)
    requires IsNew(m) && AnsweredBy(m, requests, responses)
    ensures AnswersList(m.config, requests, responses, limit,
                        Respond(sequence, Handle(After(m, requests), List(limit)).1))
  {
    hide After, Handle, AnsweredBy, IsNew, Succeeds, ReadFailure, ReadValue, Respond, Malformed, Lists;
    hide ItemShown, NamedCount, NumericParam, AmongNewest;
    var s := After(m, requests);
    var reply := Handle(s, List(limit)).1;
    SameLength(m, requests, responses);
    ParameterExact(limit);
    ListCases(s, limit);
    if reply.BadParameter? {
      ErrorAnswer(sequence, reply);
      assert "limit" + " must be numeric" == "limit must be numeric";
    } else {
      ListRead(sequence, reply.records);
      ItemsAnswered(m, requests, responses, reply.records, NumericParam(limit).value);
    }
  }

  lemma {:induction false} ItemAnswered(
    m: Service, requests: seq<Request>, responses: seq<Response>, record: JobRecord, j: nat)
    requires IsNew(m) && AnsweredBy(m, requests, responses)
    requires j < |After(m, requests).jobs| && ListsAt(After(m, requests), record, j)
    ensures ItemShown(m.config, requests, responses, JobToJson(record), j)
  {
    hide After, AnsweredBy, IsNew, NamedCount, Describes, JobToJson, ShowsOwn, FinishedBefore, DeliveredBefore;
    hide PolledAfter;
    var id := |After(m, requests).jobs| - j;
    NewestExact(m, requests, responses, "");
    StateExact(m, requests, responses, id);
    RecordShown(m, requests, responses, id, record, id in After(m, requests).claimed);
  }

  lemma {:induction false} SubmitAnswered(
    m: Service, requests: seq<Request>, responses: seq<Response>, kind: Kind, body: string, sequence: nat)
    requires IsNew(m) && AnsweredBy(m, requests, responses)
    ensures AnswersSubmit(m.config, responses, kind, body,
                          Respond(sequence, Handle(After(m, requests), Submit(kind, body)).1))
  {
    hide After, AnsweredBy, IsNew, Judge, JobFrom, Respond, AnswersSubmit, FieldsFit, Lacks, Exceeds, Braced;
    hide TopLevelKeys;
    var s := After(m, requests);
    NewestExact(m, requests, responses, "");
    BodyVerdict(s.config.limits, kind, body, "");
    var reply := Handle(s, Submit(kind, body)).1;
    if reply.Refused? {
      RefusalAnswered(m.config, responses, kind, body, sequence, reply.refusal);
    } else {
      AcceptanceAnswered(m.config, responses, kind, body, sequence, |s.jobs| + 1);
    }
  }

  lemma {:induction false} AcceptanceAnswered(
    config: Config, past: seq<Response>, kind: Kind, body: string, sequence: nat, id: nat)
    requires Judge(config.limits, kind, body).Accept? && id == NamedCount(past) + 1
    ensures AnswersSubmit(config, past, kind, body, Respond(sequence, Created(ToDecimal(id), id)))
  {
    hide Judge, ModelOf, FieldsFit, Lacks, Exceeds, Braced, TopLevelKeys, NamedCount, ReadFailure, ReadResult;
    hide Respond, Names, Succeeds;
    ModelFits(config.limits, body);
    BodyVerdict(config.limits, kind, body, "");
    CreatedRead(sequence, id);
  }

  lemma {:induction false} CreatedRead(sequence: nat, id: nat)
    ensures var response := Respond(sequence, Created(ToDecimal(id), id));
            && Succeeds(response) && Names(response, id)
            && ReadResult(response.body, "requestId") == Some(FormatRequestId(id))
  {
    hide BodyOf, Print, ReadResult, Succeeds, FormatRequestId, ToDecimal;
    var reply := Created(ToDecimal(id), id);
    SuccessAnswer(sequence, reply);
    ResponseReadsBack(reply, "jobId");
    ResponseReadsBack(reply, "requestId");
  }

  lemma {:induction false} ModelFits(limits: Limits, body: string)
    ensures ModelOf(limits, body) == ValueOr(ExtractStringValue(body, "modelId"), limits.defaultModelId)
  {
  }

  lemma {:induction false} RefusalAnswered(
    config: Config, past: seq<Response>, kind: Kind, body: string, sequence: nat, refusal: Refusal)
    requires Judge(config.limits, kind, body) == Refuse(refusal)
    ensures AnswersSubmit(config, past, kind, body, Respond(sequence, Refused(refusal)))
  {
    hide Judge, ModelOf, FieldsFit, Lacks, Exceeds, Braced, TopLevelKeys, ReadFailure, FailureIn, RefusalBody, Respond;
    hide StatusOf, BodyOf, NamedCount, ReadResult;
    var field := if refusal.MissingField? || refusal.UnknownField? then refusal.field else "";
    ModelFits(config.limits, body);
    BodyVerdict(config.limits, kind, body, field);
    RefusalRead(sequence, refusal);
    LacksOrExceeds(kind, TopLevelKeys(body), field);
  }

  lemma {:induction false} RefusalRead(sequence: nat, refusal: Refusal)
    ensures ReadFailure(Respond(sequence, Refused(refusal))) == Some(
      match refusal
      case BadShape => Failure(400, "bad_request", "request body must be a JSON object", "body", "invalid_shape")
      case BodyTooLarge => Failure(413, "payload_too_large", "request body too large", "body", "too_large")
      case MissingField(field) => Failure(400, "bad_request", "missing required field", field, "required")
      case UnknownField(field) => Failure(400, "bad_request", "unknown field", field, "unknown")
      case ModelTooLarge => Failure(400, "bad_request", "modelId too large", "modelId", "too_large"))
  {
    RefusalFailure(refusal);
    hide FailureIn, RefusalBody, StatusOf, ReadFailure, Respond;
    ResponseFailure(sequence, Refused(refusal));
  }

  /** Keys that fit leave no offending field. */
  lemma {:induction false} LacksOrExceeds(kind: Kind, keys: seq<string>, field: string)
    ensures FieldsFit(kind, keys) ==> !Lacks(kind, keys, field) && !Exceeds(kind, keys, field)
  {
  }

  lemma {:induction false} HandlerAnswered(
    m: Service, requests: seq<Request>, responses: seq<Response>, k: nat, sequence: nat)
    requires IsNew(m) && AnsweredBy(m, requests, responses) && k < |requests|
    ensures var before, past := requests[..k], responses[..k];
            var response := Respond(sequence, Handle(After(m, before), requests[k].command).1);
            match requests[k].command
            case Submit(kind, body) => AnswersSubmit(m.config, past, kind, body, response)
            case Get(name) => AnswersGet(m.config, before, past, name, response)
            case Wait(name, timeoutMs) => AnswersWait(m.config, before, past, name, timeoutMs, response)
            case Take(name) => AnswersTake(m.config, before, past, name, response)
            case List(limit) => AnswersList(m.config, before, past, limit, response)
  {
    var before, past := requests[..k], responses[..k];
    Prefix(m, requests, responses, k);
    hide After, Handle, Respond, AnswersSubmit, AnswersGet, AnswersWait, AnswersTake, AnswersList, AnsweredBy;
    match requests[k].command
    case Submit(kind, body) => SubmitAnswered(m, before, past, kind, body, sequence);
    case Get(name) => GetAnswered(m, before, past, name, sequence);
    case Wait(name, timeoutMs) => WaitAnswered(m, before, past, name, timeoutMs, sequence);
    case Take(name) => TakeAnswered(m, before, past, name, sequence);
    case List(limit) => ListAnswered(m, before, past, limit, sequence);
  }

  /** In any run of a new service every response is the one described above. */
  lemma {:induction false} EveryResponse(m: Service, requests: seq<Request>, responses: seq<Response>, k: nat)
    requires IsNew(m) && AnsweredBy(m, requests, responses) && k < |requests|
    ensures Answers(m.config, requests, responses, k)
  {
    hide After, Serve, Handle, ReadFailure, FailureIn, BodyOf, StatusOf, IsNew;
    hide AnswersSubmit, AnswersGet, AnswersWait, AnswersTake, AnswersList, AnsweredBy;
    var before := After(m, requests[..k]);
    NewStart(m);
    ResponseOf(m, requests, responses, k);
    HandlerAnswered(m, requests, responses, k, m.nextSequence + k);
    RunKeeps(m, requests[..k]);
    GateEffect(before, requests[k]);
    if m.config.maxInflight == 0 {
      ErrorAnswer(m.nextSequence + k, TooManyRequests);
    } else if !requests[k].authorized {
      ErrorAnswer(m.nextSequence + k, Unauthorized);
    }
  }

  lemma {:induction false} NewStart(m: Service)
    requires IsNew(m)
    ensures m.nextSequence == 1
  {
  }

  lemma {:induction false} StartsNew(config: Config)
    ensures IsNew(NewService(config)) && NewService(config).jobs == [] && NewService(config).config == config
  {
  }

  /** A host, from its construction on: every response it writes is the one described above. */
  method ServeFromStart(config: Config, requests: seq<Request>) returns (responses: seq<Response>)
    requires |requests| < Host.SubmissionLimit
    ensures |responses| == |requests|
    ensures forall k | 0 <= k < |requests| :: Answers(config, requests, responses, k)
  {
    hide *;
    var app := new Host.AppState(config);
    StartsNew(config);
    responses := app.ServeAll(requests);
    SameLength(NewService(config), requests, responses);
    forall k | 0 <= k < |requests| ensures Answers(config, requests, responses, k) {
      EveryResponse(NewService(config), requests, responses, k);
    }
  }

  predicate FailsFor(response: Response, reason: string) {
    ReadFailure(response).Some? && ReadFailure(response).value.reason == reason
  }

  /** What a client learns from the reason in the answer to an admitted take. */
  lemma {:induction false} TakeReasons(
    config: Config, requests: seq<Request>, past: seq<Response>, name: string, response: Response)
    requires |requests| == |past| && AnswersTake(config, requests, past, name, response)
    ensures FailsFor(response, "unknown") <==> !NamesNewest(config, past, name)
    ensures FailsFor(response, "already_taken")
       <==> NamesNewest(config, past, name) && DeliveredBefore(past, DigitsValue(name))
    ensures FailsFor(response, "not_ready")
       <==> && NamesNewest(config, past, name) && !DeliveredBefore(past, DigitsValue(name))
            && !PolledAfter(config, requests, past, DigitsValue(name))
  {
    hide ReadFailure, NamesNewest, DeliveredBefore, PolledAfter, ShowsOwn, Delivers;
  }
}
