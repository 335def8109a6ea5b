/** The job service as an abstract machine: what was submitted, how far the provider was
    polled, which results were claimed into their jobs and which were handed out. Job and
    provider request numbers coincide, and a number says everything about its job. */
module Machine {
  import opened Decimal
  import opened JsonValues
  import opened Provider
  import opened Jobs
  import opened Admission
  import opened Envelope
  import opened Responses

  datatype Config = Config(limits: Limits, maxJobs: nat, maxInflight: nat, requestTimeoutMs: nat, pollCadenceMs: nat)

  datatype Submission = Submission(kind: Kind, body: string, modelId: string, toolId: string, templateId: string)

  datatype Service = Service(
    config: Config,
    jobs: seq<Submission>,    // job i is jobs[i - 1]
    polled: nat,              // exactly the jobs up to here were polled
    claimed: set<nat>,        // jobs that hold their result
    taken: set<nat>,          // jobs whose result was handed out
    metrics: HostMetrics,
    nextSequence: nat)

  function NewService(config: Config): Service {
    Service(config, [], 0, {}, {}, NoRequests, 1)
  }

  ghost predicate WellFormed(m: Service) {
    && m.polled <= |m.jobs|
    && (forall id | id in m.claimed :: 1 <= id <= m.polled)
    && m.taken <= m.claimed
  }

  function Capacity(config: Config): nat {
    if config.maxJobs == 0 then 1 else config.maxJobs
  }

  /** The window of the newest jobs. */
  predicate Live(m: Service, id: int) {
    1 <= id <= |m.jobs| && id > |m.jobs| - Capacity(m.config)
  }

  /** The live job a string names. */
  function LiveId(m: Service, name: string): (r: Option<nat>)
    ensures r.Some? ==> Live(m, r.value)
  {
    if Canonical(name) && Live(m, DigitsValue(name)) then Some(DigitsValue(name)) else None
  }

  function RecordOf(m: Service, id: int): JobRecord
    requires 1 <= id <= |m.jobs|
  {
    var job := m.jobs[id - 1];
    var done := id in m.claimed;
    JobRecord(ToDecimal(id), TypeName(job.kind), job.modelId, job.toolId, job.templateId, id, id,
              if done then Complete else Waiting,
              if done then ResultPayload(id, job.kind) else "",
              id in m.taken)
  }

  // ----- commands and replies

  datatype Command =
    | Submit(kind: Kind, body: string)
    | Get(jobId: string)
    | Wait(jobId: string, timeoutMs: Option<string>)
    | Take(jobId: string)
    | List(limit: Option<string>)

  datatype Request = Request(authorized: bool, command: Command)

  datatype Reply =
    | TooManyRequests
    | Unauthorized
    | Refused(refusal: Refusal)
    | BadParameter(name: string)
    | NotFound
    | AlreadyTaken
    | NotReady
    | Created(jobId: string, requestId: nat)
    | Shown(record: JobRecord)
    | Listed(records: seq<JobRecord>)
    | Taken(record: JobRecord)

  predicate IsError(reply: Reply) {
    !(reply.Created? || reply.Shown? || reply.Listed? || reply.Taken?)
  }

  function PollAll(m: Service): Service {
    m.(polled := |m.jobs|)
  }

  /** A polled result moves into its job. */
  function Claim(m: Service, id: nat): Service {
    if id <= m.polled then m.(claimed := m.claimed + {id}) else m
  }

  function EffectiveTimeout(config: Config, requested: nat): nat {
    if requested > config.requestTimeoutMs then config.requestTimeoutMs else requested
  }

  function LiveCount(m: Service): nat {
    if |m.jobs| < Capacity(m.config) then |m.jobs| else Capacity(m.config)
  }

  function NewestCount(m: Service, limit: nat): nat {
    if limit < LiveCount(m) then limit else LiveCount(m)
  }

  function Newest(m: Service, limit: nat): (r: seq<JobRecord>)
    ensures |r| == NewestCount(m, limit)
    ensures forall k | 0 <= k < |r| :: r[k] == RecordOf(m, |m.jobs| - k)
  {
    seq(NewestCount(m, limit), k requires 0 <= k < NewestCount(m, limit) => RecordOf(m, |m.jobs| - k))
  }

  // ----- an admitted and authorised command

  function OnSubmit(m: Service, kind: Kind, body: string): (Service, Reply) {
    match Judge(m.config.limits, kind, body)
    case Refuse(refusal) => (m, Refused(refusal))
    case Accept(modelId, toolId, templateId) =>
      var id := |m.jobs| + 1;
      (m.(jobs := m.jobs + [Submission(kind, body, modelId, toolId, templateId)]), Created(ToDecimal(id), id))
  }

  function OnGet(m: Service, jobId: string): (Service, Reply) {
    var p := PollAll(m);
    match LiveId(p, jobId)
    case None => (p, NotFound)
    case Some(id) => var c := Claim(p, id); (c, Shown(RecordOf(c, id)))
  }

  function OnWait(m: Service, jobId: string, timeoutMs: Option<string>): (Service, Reply) {
    match LiveId(m, jobId)
    case None => (m, NotFound)
    case Some(id) =>
      match NumericParam(timeoutMs)
      case None => (m, BadParameter("timeout_ms"))
      case Some(requested) =>
        var c := if EffectiveTimeout(m.config, requested) > 0 then Claim(PollAll(m), id) else m;
        (c, Shown(RecordOf(c, id)))
  }

  function OnTake(m: Service, jobId: string): (Service, Reply) {
    match LiveId(m, jobId)
    case None => (m, NotFound)
    case Some(id) =>
      var c := Claim(m, id);
      if id in c.taken then (c, AlreadyTaken)
      else if id !in c.claimed then (c, NotReady)
      else (c.(taken := c.taken + {id}), Taken(RecordOf(c, id)))
  }

  function OnList(m: Service, limit: Option<string>): (Service, Reply) {
    match NumericParam(limit)
    case None => (m, BadParameter("limit"))
    case Some(n) => (m, Listed(Newest(m, n)))
  }

  function Handle(m: Service, command: Command): (Service, Reply) {
    match command
    case Submit(kind, body) => OnSubmit(m, kind, body)
    case Get(jobId) => OnGet(m, jobId)
    case Wait(jobId, timeoutMs) => OnWait(m, jobId, timeoutMs)
    case Take(jobId) => OnTake(m, jobId)
    case List(limit) => OnList(m, limit)
  }

  /** A whole request: its scope opens, the command runs if it gets that far, one response is
      written and the scope closes. */
  function Serve(m: Service, request: Request): (Service, Reply) {
    var accepted := Admits(m.metrics, m.config.maxInflight);
    var (after, reply) :=
      if !accepted then (m, TooManyRequests)
      else if !request.authorized then (m, Unauthorized)
      else Handle(m, request.command);
    (after.(metrics := Ended(Started(m.metrics, m.config.maxInflight), IsError(reply), accepted),
            nextSequence := m.nextSequence + 1),
     reply)
  }

  /** The service after some requests. */
  function After(m: Service, requests: seq<Request>): Service {
    if requests == [] then m
    else Serve(After(m, requests[..|requests| - 1]), requests[|requests| - 1]).0
  }

  /** The replies to some requests. */
  function Replies(m: Service, requests: seq<Request>): (r: seq<Reply>)
    ensures |r| == |requests|
  {
    if requests == [] then []
    else var front := requests[..|requests| - 1];
         Replies(m, front) + [Serve(After(m, front), requests[|requests| - 1]).1]
  }

  /** Each reply is that of the service its predecessors left. */
  lemma {:induction false} ReplyOf(m: Service, requests: seq<Request>, k: nat)
    requires k < |requests|
    ensures Replies(m, requests)[k] == Serve(After(m, requests[..k]), requests[k]).1
    ensures Replies(m, requests[..k]) == Replies(m, requests)[..k]
  {
    hide Serve;
    var n := |requests| - 1;
    if k < n {
      assert requests[..n][..k] == requests[..k];
      ReplyOf(m, requests[..n], k);
    }
  }

  function ResponseTo(m: Service, request: Request): Response {
    Respond(m.nextSequence, Serve(m, request).1)
  }

  lemma {:induction false} ServeCounts(m: Service, request: Request)
    ensures |Serve(m, request).0.jobs| <= |m.jobs| + 1
    ensures Serve(m, request).0.nextSequence == m.nextSequence + 1
  {
  }

  /** Polling and claiming a live job keeps its name and completes it. */
  lemma {:induction false} PolledIsComplete(m: Service, name: string)
    requires LiveId(m, name).Some?
    ensures var id := LiveId(m, name).value;
            var c := Claim(PollAll(m), id);
            && LiveId(PollAll(m), name) == LiveId(c, name) == LiveId(m, name)
            && 1 <= id <= |c.jobs| && RecordOf(c, id).status == Complete
  {
    hide Canonical;
  }

  function StatusOf(reply: Reply): nat {
    match reply
    case TooManyRequests => 429
    case Unauthorized => 401
    case Refused(BodyTooLarge) => 413
    case Refused(_) => 400
    case BadParameter(_) => 400
    case NotFound => 404
    case AlreadyTaken => 409
    case NotReady => 409
    case _ => 200
  }

  function RefusalBody(refusal: Refusal): Json {
    match refusal
    case BadShape => ErrorEnvelope("bad_request", "request body must be a JSON object", "body", "invalid_shape")
    case BodyTooLarge => ErrorEnvelope("payload_too_large", "request body too large", "body", "too_large")
    case MissingField(field) => ErrorEnvelope("bad_request", "missing required field", field, "required")
    case UnknownField(field) => ErrorEnvelope("bad_request", "unknown field", field, "unknown")
    case ModelTooLarge => ErrorEnvelope("bad_request", "modelId too large", "modelId", "too_large")
  }

  function BodyOf(reply: Reply): Json {
    match reply
    case TooManyRequests =>
      ErrorEnvelope("too_many_requests", "too many in-flight requests", "requests", "max_inflight")
    case Unauthorized => ErrorEnvelope("unauthorized", "api key is required", "X-Api-Key", "missing_or_invalid")
    case Refused(refusal) => RefusalBody(refusal)
    case BadParameter(name) => ErrorEnvelope("bad_request", name + " must be numeric", name, "invalid")
    case NotFound => ErrorEnvelope("not_found", "job not found", "jobId", "unknown")
    case AlreadyTaken => ErrorEnvelope("conflict", "result already taken", "jobId", "already_taken")
    case NotReady => ErrorEnvelope("conflict", "result not ready", "jobId", "not_ready")
    case Created(jobId, requestId) =>
      Success(With(With(Obj([]), "jobId", Str(jobId)), "requestId", Str(FormatRequestId(requestId))))
    case Shown(record) => Success(With(Obj([]), "job", JobToJson(record)))
    case Listed(records) => Success(With(Obj([]), "items", Arr(JobsToJson(records))))
    case Taken(record) => Success(With(With(Obj([]), "job", JobToJson(record)), "result", Str(record.result)))
  }

  function Respond(sequence: nat, reply: Reply): Response {
    Response(StatusOf(reply), FormatRequestId(sequence), Print(BodyOf(reply)))
  }

  /** The responses are those of the run, with consecutive request ids. */
  ghost predicate AnsweredBy(m: Service, requests: seq<Request>, responses: seq<Response>) {
    && |responses| == |requests|
    && forall k | 0 <= k < |requests| :: responses[k] == Respond(m.nextSequence + k, Replies(m, requests)[k])
  }
}
