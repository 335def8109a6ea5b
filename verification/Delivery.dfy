/** What a client reads from the bytes of the responses: the results of the service's runs, seen
    from outside. */
module Delivery {
  import opened ByteOrder
  import opened Decimal
  import opened JsonValues
  import opened JsonParser
  import opened Provider
  import opened Jobs
  import opened Envelope
  import opened Responses
  import opened Machine
  import opened History

  /** The string that a response body holds as a field of its result. */
  function ResultString(v: Json, name: string): Option<string> {
    match Field(v, "result")
    case None => None
    case Some(result) =>
      match Field(result, name)
      case Some(Str(text)) => Some(text)
      case _ => None
  }

  function ReadResult(body: string, name: string): Option<string> {
    match ParseValue(body)
    case Fail => None
    case Ok(v, rest) => ResultString(v, name)
  }

  datatype Payload = Payload(requestId: int, requestType: string)

  /** The provider's answer, read from its text. */
  function ReadPayload(text: string): Option<Payload> {
    match ParseValue(text)
    case Fail => None
    case Ok(v, rest) =>
      match Field(v, "requestId")
      case Some(Num(id)) =>
        (match Field(v, "type")
         case Some(Str(name)) => Some(Payload(id, name))
         case _ => None)
      case _ => None
  }

  /** The answer a response body hands out. */
  function Delivered(body: string): Option<Payload> {
    match ReadResult(body, "result")
    case None => None
    case Some(text) => ReadPayload(text)
  }

  // ----- reading one response

  lemma {:induction false} ReadsBack(v: Json)
    requires Ordered(v)
    ensures ParseValue(Print(v)) == Ok(v, "")
  {
    PrintRoundTrip(v, "");
    assert Print(v) + "" == Print(v);
  }

  lemma {:induction false} SuccessReadsBack(result: Json)
    requires Ordered(result)
    ensures var body := Success(result);
            Ordered(body) && Field(body, "ok") == Some(Bool(true)) && Field(body, "result") == Some(result)
  {
    var ok := With(Obj([]), "ok", Bool(true));
    WithField(Obj([]), "ok", Bool(true), "ok");
    WithField(ok, "result", result, "ok");
    WithField(ok, "result", result, "result");
  }

  lemma {:induction false} OneField(key: string, value: Json, name: string)
    requires Ordered(value)
    ensures var v := With(Obj([]), key, value);
            Ordered(v) && Field(v, name) == if name == key then Some(value) else None
  {
    WithField(Obj([]), key, value, name);
  }

  lemma {:induction false} TwoFields(key: string, value: Json, key': string, value': Json, name: string)
    requires Ordered(value) && Ordered(value')
    ensures var v := With(With(Obj([]), key, value), key', value');
            && Ordered(v)
            && Field(v, name) == if name == key' then Some(value') else if name == key then Some(value) else None
  {
    OneField(key, value, name);
    WithField(With(Obj([]), key, value), key', value', name);
  }

  lemma {:induction false} ErrorReadsBack(code: string, message: string, field: string, reason: string)
    ensures var body := ErrorEnvelope(code, message, field, reason);
            Ordered(body) && Field(body, "ok") == Some(Bool(false)) && Field(body, "result") == None
  {
    var details := With(With(Obj([]), "field", Str(field)), "reason", Str(reason));
    var error := With(With(Obj([]), "code", Str(code)), "details", details);
    hide With, Ordered, Field;
    ScalarsOrdered(code, message, field, reason);
    TwoFields("field", Str(field), "reason", Str(reason), "");
    TwoFields("code", Str(code), "details", details, "");
    WithField(error, "message", Str(message), "");
    TwoFields("error", With(error, "message", Str(message)), "ok", Bool(false), "ok");
    TwoFields("error", With(error, "message", Str(message)), "ok", Bool(false), "result");
  }

  lemma {:induction false} ScalarsOrdered(a: string, b: string, c: string, d: string)
    ensures Ordered(Str(a)) && Ordered(Str(b)) && Ordered(Str(c)) && Ordered(Str(d))
    ensures Ordered(Bool(false)) && Ordered(Bool(true))
  {
  }

  /** The result object of a successful reply. */
  function ResultOf(reply: Reply): Json
    requires !IsError(reply)
  {
    match reply
    case Created(jobId, requestId) =>
      With(With(Obj([]), "jobId", Str(jobId)), "requestId", Str(FormatRequestId(requestId)))
    case Shown(record) => With(Obj([]), "job", JobToJson(record))
    case Listed(records) => With(Obj([]), "items", Arr(JobsToJson(records)))
    case Taken(record) => With(With(Obj([]), "job", JobToJson(record)), "result", Str(record.result))
  }

  /** The strings a reply puts into its result. */
  function StringIn(reply: Reply, name: string): Option<string> {
    match reply
    case Created(jobId, requestId) =>
      if name == "jobId" then Some(jobId)
      else if name == "requestId" then Some(FormatRequestId(requestId))
      else None
    case Taken(record) => if name == "result" then Some(record.result) else None
    case _ => None
  }

  lemma {:induction false} RefusalReadsBack(refusal: Refusal)
    ensures var body := RefusalBody(refusal);
            Ordered(body) && Field(body, "ok") == Some(Bool(false)) && Field(body, "result") == None
  {
    hide ErrorEnvelope, Ordered, Field;
    match refusal
    case BadShape =>
      ErrorReadsBack("bad_request", "request body must be a JSON object", "body", "invalid_shape");
    case BodyTooLarge =>
      ErrorReadsBack("payload_too_large", "request body too large", "body", "too_large");
    case MissingField(field) =>
      ErrorReadsBack("bad_request", "missing required field", field, "required");
    case UnknownField(field) =>
      ErrorReadsBack("bad_request", "unknown field", field, "unknown");
    case ModelTooLarge =>
      ErrorReadsBack("bad_request", "modelId too large", "modelId", "too_large");
  }

  lemma {:induction false} ErrorBody(reply: Reply)
    requires IsError(reply)
    ensures var body := BodyOf(reply);
            Ordered(body) && Field(body, "ok") == Some(Bool(false)) && Field(body, "result") == None
  {
    hide ErrorEnvelope, RefusalBody, Ordered, Field;
    match reply
    case TooManyRequests =>
      ErrorReadsBack("too_many_requests", "too many in-flight requests", "requests", "max_inflight");
    case Unauthorized =>
      ErrorReadsBack("unauthorized", "api key is required", "X-Api-Key", "missing_or_invalid");
    case Refused(refusal) =>
      RefusalReadsBack(refusal);
    case BadParameter(name) =>
      ErrorReadsBack("bad_request", name + " must be numeric", name, "invalid");
    case NotFound =>
      ErrorReadsBack("not_found", "job not found", "jobId", "unknown");
    case AlreadyTaken =>
      ErrorReadsBack("conflict", "result already taken", "jobId", "already_taken");
    case NotReady =>
      ErrorReadsBack("conflict", "result not ready", "jobId", "not_ready");
  }

  lemma {:induction false} JobsOrdered(records: seq<JobRecord>)
    ensures Ordered(Arr(JobsToJson(records)))
  {
    forall i | 0 <= i < |records| ensures Ordered(JobsToJson(records)[i]) {
      JobToJsonMembers(records[i]);
    }
  }

  lemma {:induction false} ResultFields(reply: Reply, name: string)
    requires !IsError(reply)
    ensures Ordered(ResultOf(reply))
    ensures var v := Field(ResultOf(reply), name);
            StringIn(reply, name) == if v.Some? && v.value.Str? then Some(v.value.s) else None
  {
    hide With, Field, JobToJson, FormatRequestId;
    match reply
    case Created(jobId, requestId) =>
      TwoFields("jobId", Str(jobId), "requestId", Str(FormatRequestId(requestId)), name);
    case Shown(record) =>
      JobToJsonMembers(record);
      OneField("job", JobToJson(record), name);
    case Listed(records) =>
      JobsOrdered(records);
      OneField("items", Arr(JobsToJson(records)), name);
    case Taken(record) =>
      JobToJsonMembers(record);
      TwoFields("job", JobToJson(record), "result", Str(record.result), name);
  }

  /** Every response body reads back: as JSON it is the value it was printed from, ok says
      whether it is an error, and the strings of its result are those of the reply. */
  lemma {:induction false} ResponseReadsBack(reply: Reply, name: string)
    ensures ParseValue(Print(BodyOf(reply))) == Ok(BodyOf(reply), "")
    ensures Field(BodyOf(reply), "ok") == Some(Bool(!IsError(reply)))
    ensures ReadResult(Print(BodyOf(reply)), name) == StringIn(reply, name)
  {
    BodyFields(reply);
    hide BodyOf, ParseValue, Print, Ordered, Field, ResultOf;
    ReadsBack(BodyOf(reply));
    if !IsError(reply) {
      ResultFields(reply, name);
    }
  }

  lemma {:induction false} BodyFields(reply: Reply)
    ensures Ordered(BodyOf(reply)) && Field(BodyOf(reply), "ok") == Some(Bool(!IsError(reply)))
    ensures Field(BodyOf(reply), "result") == if IsError(reply) then None else Some(ResultOf(reply))
    ensures IsError(reply) ==> forall name :: StringIn(reply, name) == None
  {
    if IsError(reply) {
      NoStringIn(reply);
      hide *;
      ErrorBody(reply);
    } else {
      BodyIsSuccess(reply);
      hide *;
      ResultFields(reply, "");
      SuccessReadsBack(ResultOf(reply));
    }
  }

  lemma {:induction false} NoStringIn(reply: Reply)
    requires IsError(reply)
    ensures forall name :: StringIn(reply, name) == None
  {
  }

  lemma {:induction false} BodyIsSuccess(reply: Reply)
    requires !IsError(reply)
    ensures BodyOf(reply) == Success(ResultOf(reply))
  {
    hide With, Success, JobToJson, FormatRequestId;
  }

  lemma {:induction false} PayloadReadsBack(id: nat, kind: Kind)
    ensures ParseValue(ResultPayload(id, kind))
         == Ok(Obj([Member("requestId", Num(id)), Member("type", Str(TypeName(kind)))]), "")
    ensures ReadPayload(ResultPayload(id, kind)) == Some(Payload(id, TypeName(kind)))
  {
    var v := Obj([Member("requestId", Num(id)), Member("type", Str(TypeName(kind)))]);
    PayloadIsPrintedObject(id, kind);
    PayloadFields(v, id, kind);
    hide ParseValue, Print, Ordered, Field;
    ReadsBack(v);
  }

  lemma {:induction false} PayloadFields(v: Json, id: nat, kind: Kind)
    requires v == Obj([Member("requestId", Num(id)), Member("type", Str(TypeName(kind)))])
    ensures Ordered(v) && Field(v, "requestId") == Some(Num(id)) && Field(v, "type") == Some(Str(TypeName(kind)))
  {
    var a, b := Member("requestId", Num(id)), Member("type", Str(TypeName(kind)));
    assert Less(a.key, b.key);
    hide TypeName, Find, Assign;
    PairOf(a, b);
    TwoFields(a.key, a.value, b.key, b.value, "requestId");
    TwoFields(a.key, a.value, b.key, b.value, "type");
  }

  // ----- reading the responses of a run

  function PayloadIn(record: JobRecord): Payload {
    Payload(record.providerRequestId, record.requestType)
  }

  /** A response hands out an answer exactly when its reply does, and then the answer carries
      the number and the type of the record. */
  lemma {:induction false} DeliveredIsTaken(m: Service, requests: seq<Request>, responses: seq<Response>, k: nat)
    requires AnsweredBy(m, requests, responses) && k < |requests|
    ensures var reply := Replies(m, requests)[k];
            Delivered(responses[k].body) == if reply.Taken? then Some(PayloadIn(reply.record)) else None
  {
    hide Serve, ResultPayload, ReadResult, ReadPayload, BodyOf, Print;
    var reply := Replies(m, requests)[k];
    var before := After(m, requests[..k]);
    ReplyOf(m, requests, k);
    TakenEffect(before, requests[k]);
    ResponseReadsBack(reply, "result");
    if reply.Taken? {
      PayloadReadsBack(reply.record.providerRequestId, before.jobs[reply.record.providerRequestId - 1].kind);
    }
  }

  /** Of all response bodies of a run, from any state, at most one hands out the answer to a
      given request number. */
  lemma {:induction false} DeliveredAtMostOnce(m: Service, requests: seq<Request>, responses: seq<Response>)
    requires AnsweredBy(m, requests, responses)
    ensures forall p, q, id | 0 <= p < |responses| && 0 <= q < |responses| ::
              Delivers(responses[p], id) && Delivers(responses[q], id) ==> p == q
  {
    forall p, q, id | 0 <= p < |responses| && 0 <= q < |responses|
      ensures Delivers(responses[p], id) && Delivers(responses[q], id) ==> p == q
    {
      hide Replies, Delivered;
      DeliveredIsTaken(m, requests, responses, p);
      DeliveredIsTaken(m, requests, responses, q);
      if Delivers(responses[p], id) && Delivers(responses[q], id) {
        TakenAtMostOnce(m, requests, p, q, id);
      }
    }
  }

  predicate Delivers(response: Response, id: int) {
    Delivered(response.body).Some? && Delivered(response.body).value.requestId == id
  }

  lemma {:induction false} CreatorAnswered(
    m: Service, requests: seq<Request>, responses: seq<Response>, p: nat, record: JobRecord)
    requires AnsweredBy(m, requests, responses) && p < |requests|
    ensures MadeFor(m.config.limits, requests, Replies(m, requests), p, record) ==>
              SubmittedAs(requests, responses, p, PayloadIn(record))
  {
    hide Replies, BodyOf, ReadResult, Print, ResultPayload;
    ResponseReadsBack(Replies(m, requests)[p], "jobId");
  }

  /** In a run of a new service the answer belongs to an earlier submission: its response named
      the job by that number, and the type is the one submitted. */
  lemma {:induction false} DeliveredToItsSubmission(m: Service, requests: seq<Request>, responses: seq<Response>)
    requires IsNew(m) && AnsweredBy(m, requests, responses)
    ensures forall q | 0 <= q < |responses| && Delivered(responses[q].body).Some? ::
              exists p | 0 <= p < q :: SubmittedAs(requests, responses, p, Delivered(responses[q].body).value)
  {
    forall q | 0 <= q < |responses| && Delivered(responses[q].body).Some?
      ensures exists p | 0 <= p < q :: SubmittedAs(requests, responses, p, Delivered(responses[q].body).value)
    {
      DeliveredIsTaken(m, requests, responses, q);
      hide *;
      var replies := Replies(m, requests);
      TakenCarriesOwnResult(m, requests, q);
      var p :| 0 <= p < q && MadeFor(m.config.limits, requests, replies, p, replies[q].record);
      CreatorAnswered(m, requests, responses, p, replies[q].record);
    }
  }

  /** The p-th request submitted what the answer is to. */
  predicate SubmittedAs(requests: seq<Request>, responses: seq<Response>, p: nat, answer: Payload)
    requires p < |requests| == |responses|
  {
    && requests[p].command.Submit?
    && answer.requestId >= 0
    && ReadResult(responses[p].body, "jobId") == Some(ToDecimal(answer.requestId))
    && answer.requestType == TypeName(requests[p].command.kind)
  }
}
