/** AppState and the request handlers over the job store and the provider bridge. Handlers run
    one at a time; Finish ends the scope that ServeRequest opens. */
module Host {
  import opened Decimal
  import opened JsonValues
  import opened Provider
  import opened Jobs
  import opened Admission
  import opened Envelope
  import opened Responses
  import opened Machine
  import opened Coupling

  /** The bound under which 64-bit counters, and the cast of a creation tick to long long,
      are exact. */
  const SubmissionLimit: nat := 0x8000_0000_0000_0000

  class AppState {
    const config: Config
    const jobs: JobStore
    const provider: ProviderBridge
    var metrics: HostMetrics
    var nextRequestSequence: nat
    var lastReadyState: bool
    /** The abstract service this state represents. */
    ghost var service: Service

    /** The stores represent the service, whose counters may be in the middle of a request. */
    ghost predicate Represents()
      reads this, jobs, provider
    {
      && Coupled(service, jobs.State(), provider.State())
      && service.config == config
      && |service.jobs| < SubmissionLimit
    }

    ghost predicate Valid()
      reads this, jobs, provider
    {
      && Represents()
      && service.metrics == metrics && service.nextSequence == nextRequestSequence
      && provider.initialized && lastReadyState
    }

    constructor (config: Config)
      ensures Valid() && fresh(jobs) && fresh(provider)
      ensures service == NewService(config)
    {
      this.config := config;
      var store := new JobStore(config.maxJobs);
      var bridge := new ProviderBridge();
      jobs, provider := store, bridge;
      metrics, nextRequestSequence, lastReadyState := NoRequests, 1, false;
      service := NewService(config);
      new;
      provider.Initialize();
      lastReadyState := provider.initialized;
      CoupledNew(config);
    }

    // ----- the counters

    method NextRequestSequence() returns (sequence: nat)
      modifies this`nextRequestSequence
      ensures sequence == old(nextRequestSequence) && nextRequestSequence == sequence + 1
    {
      sequence := nextRequestSequence;
      nextRequestSequence := nextRequestSequence + 1;
    }

    method OnRequestStart() returns (accepted: bool)
      modifies this`metrics
      ensures accepted == Admits(old(metrics), config.maxInflight)
      ensures metrics == Started(old(metrics), config.maxInflight)
    {
      if metrics.requestsInflight >= config.maxInflight {
        metrics := metrics.(rejectedInflightTotal := metrics.rejectedInflightTotal + 1);
        return false;
      }
      metrics := metrics.(requestsTotal := metrics.requestsTotal + 1);
      metrics := metrics.(requestsInflight := metrics.requestsInflight + 1);
      return true;
    }

    method OnRequestEnd(isError: bool, wasAccepted: bool)
      modifies this`metrics
      ensures metrics == Ended(old(metrics), isError, wasAccepted)
    {
      if wasAccepted && metrics.requestsInflight > 0 {
        metrics := metrics.(requestsInflight := metrics.requestsInflight - 1);
      }
      if isError {
        metrics := metrics.(errorsTotal := metrics.errorsTotal + 1);
      }
    }

    method MarkReadyState(ready: bool)
      modifies this`metrics, this`lastReadyState
      ensures lastReadyState == ready
      ensures metrics == if ready != old(lastReadyState)
                         then old(metrics).(readyTransitionsTotal := old(metrics).readyTransitionsTotal + 1)
                         else old(metrics)
    {
      if ready != lastReadyState {
        metrics := metrics.(readyTransitionsTotal := metrics.readyTransitionsTotal + 1);
        lastReadyState := ready;
      }
    }

    // ----- the commands, once admitted

    /** Moves a ready result into its live job. */
    method ApplyProviderResult(jobId: string)
      requires Represents()
      modifies jobs`jobs, provider`ready, this`service
      ensures Represents()
      ensures service == var id := LiveId(old(service), jobId);
                         if id.Some? then Claim(old(service), id.value) else old(service)
    {
      LookupMatches(service, jobs.State(), jobId);
      var current := jobs.Get(jobId);
      if current.None? {
        return;
      }
      CoupledClaim(service, jobs.State(), provider.State(), LiveId(service, jobId).value);
      var providerResult := provider.TakeResult(current.value.providerRequestId);
      if providerResult.Some? {
        var found := jobs.SetResult(jobId, providerResult.value.payload, false);
      }
      service := Claim(service, LiveId(service, jobId).value);
    }

    method PollProvider()
      requires Represents()
      modifies provider`pending, provider`ready, this`service
      ensures Represents() && service == PollAll(old(service))
    {
      CoupledPoll(service, jobs.State(), provider.State());
      provider.Poll();
      service := PollAll(service);
    }

    /** The record a job id finds is the one the service describes. */
    method FindJob(jobId: string) returns (job: Option<JobRecord>)
      requires Represents()
      ensures job.Some? <==> LiveId(service, jobId).Some?
      ensures job.Some? ==> job.value == RecordOf(service, LiveId(service, jobId).value)
    {
      LookupMatches(service, jobs.State(), jobId);
      job := jobs.Get(jobId);
    }

    /** Hands the body to the provider and records the job, waiting: the store and the provider,
        which know nothing of each other, give the same number. */
    method CreateJob(kind: Kind, body: string, modelId: string, toolId: string, templateId: string)
      returns (record: JobRecord, requestId: nat)
      requires Represents() && |service.jobs| + 1 < SubmissionLimit
      modifies jobs, provider`nextRequestId, provider`pending, this`service
      ensures Represents()
      ensures service == Submitted(old(service), Submission(kind, body, modelId, toolId, templateId))
      ensures requestId == |service.jobs| && record.jobId == ToDecimal(requestId)
    {
      hide Coupled, Consistent, AfterCreate, AfterSubmit;
      CoupledNumbers(service, jobs.State(), provider.State());
      ghost var job := Submission(kind, body, modelId, toolId, templateId);
      ghost var store := jobs.State();
      CoupledSubmit(service, store, provider.State(), job);
      if kind == Chat {
        requestId := provider.SubmitChat(body);
      } else if kind == Tool {
        requestId := provider.SubmitTool(body);
      } else {
        requestId := provider.SubmitBuild(body);
      }
      record := jobs.Create(TypeName(kind), modelId, toolId, templateId, requestId);
      assert record == RecordFor(store, job, requestId);
      var updated := jobs.UpdateStatus(record.jobId, Waiting);
      assert jobs.State() == Enqueued(store, record);
      service := Submitted(service, job);
    }

    method HandleSubmit(kind: Kind, body: string) returns (reply: Reply)
      requires Represents() && |service.jobs| + 1 < SubmissionLimit
      modifies jobs, provider`nextRequestId, provider`pending, this`service
      ensures Represents()
      ensures (service, reply) == OnSubmit(old(service), kind, body)
    {
      hide Judge, Coupled;
      var verdict := Validate(config.limits, kind, body);
      if verdict.Refuse? {
        return Refused(verdict.refusal);
      }
      var record, requestId := CreateJob(kind, body, verdict.modelId, verdict.toolId, verdict.templateId);
      reply := Created(record.jobId, requestId);
    }

    method HandleGet(jobId: string) returns (reply: Reply)
      requires Represents()
      modifies jobs`jobs, provider`pending, provider`ready, this`service
      ensures Represents()
      ensures (service, reply) == OnGet(old(service), jobId)
    {
      hide Coupled, Canonical;
      PollProvider();
      var job := FindJob(jobId);
      if job.None? {
        return NotFound;
      }
      ApplyProviderResult(jobId);
      var updated := FindJob(jobId);
      reply := Shown(updated.value);
    }

    method HandleTake(jobId: string) returns (reply: Reply)
      requires Represents()
      modifies jobs`jobs, provider`ready, this`service
      ensures Represents()
      ensures (service, reply) == OnTake(old(service), jobId)
    {
      hide Coupled, Canonical;
      var job := FindJob(jobId);
      if job.None? {
        return NotFound;
      }
      ApplyProviderResult(jobId);
      var refreshed := FindJob(jobId);
      if refreshed.Some? && refreshed.value.resultTaken {
        return AlreadyTaken;
      }
      var taken := TakeResult(jobId);
      if taken.None? {
        return NotReady;
      }
      reply := Taken(taken.value);
    }

    /** JobStore::TakeResult on a live job. */
    method TakeResult(jobId: string) returns (taken: Option<JobRecord>)
      requires Represents() && LiveId(service, jobId).Some?
      modifies jobs`jobs, this`service
      ensures Represents()
      ensures var id := LiveId(old(service), jobId).value;
              && taken == (if id in old(service).claimed && id !in old(service).taken
                           then Some(RecordOf(old(service), id)) else None)
              && service == if taken.Some? then old(service).(taken := old(service).taken + {id}) else old(service)
    {
      hide Coupled, Consistent, LiveId, RecordOf;
      CoupledNumbers(service, jobs.State(), provider.State());
      ghost var id := LiveId(service, jobId).value;
      TakeMatches(service, jobs.State(), provider.State(), jobId);
      taken := jobs.TakeResult(jobId);
      if taken.Some? {
        service := service.(taken := service.taken + {id});
      }
    }

    method HandleList(limitParam: Option<string>) returns (reply: Reply)
      requires Represents()
      ensures (service, reply) == OnList(service, limitParam)
    {
      var numeric, limit := ParseNumericParam(limitParam);
      if !numeric {
        return BadParameter("limit");
      }
      ListingMatches(service, jobs.State(), limit);
      var records := jobs.ListRecent(limit);
      reply := Listed(records);
    }

    predicate IsTerminal(job: Option<JobRecord>) {
      job.Some? && (job.value.status == Complete || job.value.status == Failed)
    }

    function NextElapsed(elapsed: int): int {
      (elapsed + config.pollCadenceMs) % U64
    }

    /** One round of waiting: polling completes any live job. */
    method PollRound(jobId: string) returns (current: Option<JobRecord>)
      requires Represents() && LiveId(service, jobId).Some?
      modifies jobs`jobs, provider`pending, provider`ready, this`service
      ensures Represents()
      ensures service == Claim(PollAll(old(service)), LiveId(old(service), jobId).value)
      ensures IsTerminal(current)
    {
      PolledIsComplete(service, jobId);
      hide Represents, LiveId, Claim, PollAll, RecordOf;
      PollProvider();
      ApplyProviderResult(jobId);
      current := FindJob(jobId);
    }

    /** Every live job is complete after one poll, so the loop is left in its first round. */
    method WaitForResult(jobId: string, timeoutMs: nat)
      requires Represents() && LiveId(service, jobId).Some?
      modifies jobs`jobs, provider`pending, provider`ready, this`service
      ensures Represents()
      ensures service == if timeoutMs > 0
                         then Claim(PollAll(old(service)), LiveId(old(service), jobId).value)
                         else old(service)
    {
      var elapsed: int := 0;
      var finished := false;
      while !finished && elapsed < timeoutMs
        invariant Represents()
        invariant service == if finished
                             then Claim(PollAll(old(service)), LiveId(old(service), jobId).value)
                             else old(service)
        invariant if finished then timeoutMs > 0 else elapsed == 0
        decreases !finished
      {
        var current := PollRound(jobId);
        if IsTerminal(current) {
          finished := true;
        } else {
          elapsed := NextElapsed(elapsed);
        }
      }
    }

    method HandleWait(jobId: string, timeoutParam: Option<string>) returns (reply: Reply)
      requires Represents()
      modifies jobs`jobs, provider`pending, provider`ready, this`service
      ensures Represents()
      ensures (service, reply) == OnWait(old(service), jobId, timeoutParam)
    {
      hide Represents, NumericParam, Canonical;
      var job := FindJob(jobId);
      if job.None? {
        return NotFound;
      }
      var numeric, timeoutMs := ParseNumericParam(timeoutParam);
      if !numeric {
        return BadParameter("timeout_ms");
      }
      if timeoutMs > config.requestTimeoutMs {
        timeoutMs := config.requestTimeoutMs;
      }
      WaitForResult(jobId, timeoutMs);
      var current := FindJob(jobId);
      reply := Shown(current.value);
    }

    method HandleCommand(command: Command) returns (reply: Reply)
      requires Represents() && |service.jobs| + 1 < SubmissionLimit
      modifies jobs, provider`nextRequestId, provider`pending, provider`ready, this`service
      ensures Represents()
      ensures (service, reply) == Handle(old(service), command)
    {
      match command
      case Submit(kind, body) => reply := HandleSubmit(kind, body);
      case Get(jobId) => reply := HandleGet(jobId);
      case Wait(jobId, timeoutMs) => reply := HandleWait(jobId, timeoutMs);
      case Take(jobId) => reply := HandleTake(jobId);
      case List(limit) => reply := HandleList(limit);
    }

    // ----- whole requests

    method RefusalResponse(refusal: Refusal) returns (body: JsonValue)
      ensures body.Valid() && body.Contents() == RefusalBody(refusal)
    {
      match refusal
      case BadShape =>
        body := MakeErrorEnvelope("bad_request", "request body must be a JSON object", "body", "invalid_shape");
      case BodyTooLarge =>
        body := MakeErrorEnvelope("payload_too_large", "request body too large", "body", "too_large");
      case MissingField(field) =>
        body := MakeErrorEnvelope("bad_request", "missing required field", field, "required");
      case UnknownField(field) =>
        body := MakeErrorEnvelope("bad_request", "unknown field", field, "unknown");
      case ModelTooLarge =>
        body := MakeErrorEnvelope("bad_request", "modelId too large", "modelId", "too_large");
    }

    method ErrorResponse(reply: Reply) returns (body: JsonValue)
      requires IsError(reply)
      ensures body.Valid() && body.Contents() == BodyOf(reply)
    {
      match reply
      case TooManyRequests =>
        body := MakeErrorEnvelope("too_many_requests", "too many in-flight requests", "requests", "max_inflight");
      case Unauthorized =>
        body := MakeErrorEnvelope("unauthorized", "api key is required", "X-Api-Key", "missing_or_invalid");
      case Refused(refusal) =>
        body := RefusalResponse(refusal);
      case BadParameter(name) =>
        body := MakeErrorEnvelope("bad_request", name + " must be numeric", name, "invalid");
      case NotFound =>
        body := MakeErrorEnvelope("not_found", "job not found", "jobId", "unknown");
      case AlreadyTaken =>
        body := MakeErrorEnvelope("conflict", "result already taken", "jobId", "already_taken");
      case NotReady =>
        body := MakeErrorEnvelope("conflict", "result not ready", "jobId", "not_ready");
    }

    method SuccessResponse(reply: Reply) returns (body: JsonValue)
      requires !IsError(reply)
      ensures body.Valid() && body.Contents() == BodyOf(reply)
    {
      hide With, Success, JobToJson;
      var result := JsonValue.Object();
      match reply {
        case Created(jobId, requestId) =>
          result.SetString("jobId", jobId);
          result.SetString("requestId", FormatRequestId(requestId));
        case Shown(record) =>
          var job := MakeJob(record);
          result.Set("job", job.Contents());
        case Listed(records) =>
          var items := MakeItems(records);
          result.Set("items", items.Contents());
        case Taken(record) =>
          var job := MakeJob(record);
          result.Set("job", job.Contents());
          result.SetString("result", record.result);
      }
      body := MakeSuccess(result);
    }

    /** Writes the response and closes the request's scope. */
    method Finish(reply: Reply, accepted: bool) returns (response: Response)
      requires provider.initialized && lastReadyState
      modifies this`metrics, this`nextRequestSequence, this`lastReadyState
      ensures lastReadyState
      ensures response == Respond(old(nextRequestSequence), reply)
      ensures nextRequestSequence == old(nextRequestSequence) + 1
      ensures metrics == Ended(old(metrics), IsError(reply), accepted)
    {
      hide BodyOf, StatusOf, FormatRequestId;
      MarkReadyState(provider.initialized);
      var sequence := NextRequestSequence();
      var value;
      if IsError(reply) {
        value := ErrorResponse(reply);
      } else {
        value := SuccessResponse(reply);
      }
      var body := value.Serialize();
      response := Response(StatusOf(reply), FormatRequestId(sequence), body);
      OnRequestEnd(IsError(reply), accepted);
    }

    /** One request, from the opening of its scope to its closing. */
    method ServeRequest(request: Request) returns (response: Response)
      requires Valid() && |service.jobs| + 1 < SubmissionLimit
      modifies this, jobs, provider
      ensures Valid()
      ensures service == Serve(old(service), request).0
      ensures response == ResponseTo(old(service), request)
      ensures !request.authorized ==> jobs.State() == old(jobs.State()) && provider.State() == old(provider.State())
    {
      hide Coupled, Handle, Respond;
      var accepted := OnRequestStart();
      var reply;
      if !accepted {
        reply := TooManyRequests;
      } else if !request.authorized {
        reply := Unauthorized;
      } else {
        reply := HandleCommand(request.command);
      }
      response := Finish(reply, accepted);
      CoupledCounters(service, jobs.State(), provider.State(), metrics, nextRequestSequence);
      service := service.(metrics := metrics, nextSequence := nextRequestSequence);
    }

    /** Any run: the stores answer every request as the abstract service does, with
        consecutive request ids. */
    method ServeAll(requests: seq<Request>) returns (responses: seq<Response>)
      requires Valid() && |service.jobs| + |requests| < SubmissionLimit
      modifies this, jobs, provider
      ensures Valid() && service == After(old(service), requests)
      ensures AnsweredBy(old(service), requests, responses)
    {
      hide Serve, Respond, Represents;
      responses := [];
      for i := 0 to |requests|
        invariant Valid() && service == After(old(service), requests[..i])
        invariant |service.jobs| <= |old(service.jobs)| + i
        invariant service.nextSequence == old(service).nextSequence + i
        invariant |responses| == i
        invariant forall k | 0 <= k < i ::
                    responses[k] == Respond(old(service).nextSequence + k, Replies(old(service), requests[..i])[k])
      {
        ServeCounts(service, requests[i]);
        var response := ServeRequest(requests[i]);
        responses := responses + [response];
        assert requests[..i + 1][..i] == requests[..i];
      }
      assert requests[..|requests|] == requests;
    }
  }
}
