/** What a client can rely on over whole runs of the service, in terms of the requests and
    replies alone. */
module History {
  import opened Decimal
  import opened JsonValues
  import opened Provider
  import opened Jobs
  import opened Admission
  import opened Machine
  import opened KeyScanner
  import opened Layout
  import opened KeyWalk
  import opened KeyStrings
  import opened FieldSearch
  import opened Envelope

  // ----- one request

  /** The command polled the provider: an admitted GET, even of an unknown job, or a wait on a
      live job with time to wait. */
  predicate IsPoll(config: Config, command: Command, reply: Reply) {
    match command
    case Get(_) => reply.Shown? || reply.NotFound?
    case Wait(_, timeoutMs) => reply.Shown? && TimeToWait(config, timeoutMs)
    case _ => false
  }

  /** The parameter is a positive number, and so is the configured limit. */
  predicate TimeToWait(config: Config, timeoutMs: Option<string>) {
    NumericParam(timeoutMs).Some? && NumericParam(timeoutMs).value > 0 && config.requestTimeoutMs > 0
  }

  lemma {:induction false} PollEffect(m: Service, request: Request)
    ensures var (after, reply) := Serve(m, request);
            && after.config == m.config
            && after.polled == if IsPoll(m.config, request.command, reply) then |m.jobs| else m.polled
  {
  }

  /** What is kept of an accepted submission. */
  function JobFrom(limits: Limits, kind: Kind, body: string): Submission {
    Submission(kind, body,
               ValueOr(ExtractStringValue(body, "modelId"), limits.defaultModelId),
               ValueOr(ExtractStringValue(body, "toolId"), ""),
               ValueOr(ExtractStringValue(body, "templateId"), ""))
  }

  lemma {:induction false} JobsEffect(m: Service, request: Request)
    ensures var (after, reply) := Serve(m, request);
            if reply.Created? then
              && request.command.Submit? && reply == Created(ToDecimal(|m.jobs| + 1), |m.jobs| + 1)
              && after.jobs == m.jobs + [JobFrom(m.config.limits, request.command.kind, request.command.body)]
            else after.jobs == m.jobs
  {
    hide RecordOf, NumericParam, Canonical, Newest;
  }

  /** The job numbers in use grow by the one that the reply reports. */
  lemma {:induction false} CreatedEffect(m: Service, request: Request, id: nat)
    ensures var (after, reply) := Serve(m, request);
            1 <= id <= |after.jobs| <==> 1 <= id <= |m.jobs| || reply == Created(ToDecimal(id), id)
  {
    JobsEffect(m, request);
    hide Serve, ToDecimal;
  }

  /** The record is that of the given job, as far as a client can see. */
  predicate Describes(record: JobRecord, id: nat, job: Submission, complete: bool) {
    && record.jobId == ToDecimal(id) && record.createdTick == id && record.providerRequestId == id
    && record.requestType == TypeName(job.kind)
    && record.modelId == job.modelId && record.toolId == job.toolId && record.templateId == job.templateId
    && record.status == (if complete then Complete else Waiting)
    && record.result == if complete then ResultPayload(id, job.kind) else ""
  }

  lemma {:induction false} RecordDescribes(m: Service, id: nat)
    requires 1 <= id <= |m.jobs|
    ensures Describes(RecordOf(m, id), id, m.jobs[id - 1], id in m.claimed)
  {
  }

  lemma {:induction false} TakenEffect(m: Service, request: Request)
    ensures var (after, reply) := Serve(m, request);
            if reply.Taken? then
              var id := reply.record.providerRequestId;
              && Live(m, id) && id !in m.taken && after.taken == m.taken + {id}
              && Describes(reply.record, id, m.jobs[id - 1], true)
            else after.taken == m.taken
  {
    if request.command.Take? {
      TakeEffect(m, request.command.jobId);
    } else {
      NothingTaken(m, request.command);
    }
    hide Handle, RecordOf, ResultPayload;
  }

  lemma {:induction false} TakeEffect(m: Service, jobId: string)
    ensures var (after, reply) := Handle(m, Take(jobId));
            if reply.Taken? then
              var id := reply.record.providerRequestId;
              && Live(m, id) && id !in m.taken && after.taken == m.taken + {id}
              && Describes(reply.record, id, m.jobs[id - 1], true)
            else after.taken == m.taken
  {
    hide Canonical, ResultPayload;
  }

  lemma {:induction false} NothingTaken(m: Service, command: Command)
    requires !command.Take?
    ensures Handle(m, command).0.taken == m.taken && !Handle(m, command).1.Taken?
  {
    hide Judge, NumericParam, LiveId, RecordOf, Newest;
  }

  lemma {:induction false} ClaimedEffect(m: Service, request: Request)
    requires WellFormed(m)
    ensures var after := Serve(m, request).0;
            && WellFormed(after) && m.claimed <= after.claimed
            && forall id | id in after.claimed && id !in m.claimed :: Live(m, id)
  {
    HandleClaims(m, request.command);
    hide Handle;
  }

  lemma {:induction false} HandleClaims(m: Service, command: Command)
    requires WellFormed(m)
    ensures var after := Handle(m, command).0;
            && WellFormed(after) && m.claimed <= after.claimed
            && forall id | id in after.claimed && id !in m.claimed :: Live(m, id)
  {
    hide Judge, RecordOf, Newest, NumericParam, Canonical;
  }

  lemma {:induction false} InflightEffect(m: Service, request: Request)
    ensures Serve(m, request).0.metrics.requestsInflight == m.metrics.requestsInflight
  {
  }

  // ----- what a history records

  predicate CreatedAt(replies: seq<Reply>, p: nat, id: nat)
    requires p < |replies|
  {
    replies[p] == Created(ToDecimal(id), id)
  }

  predicate PollsAt(config: Config, requests: seq<Request>, replies: seq<Reply>, q: nat)
    requires q < |requests| == |replies|
  {
    IsPoll(config, requests[q].command, replies[q])
  }

  predicate TakenAt(replies: seq<Reply>, q: nat, id: nat)
    requires q < |replies|
  {
    replies[q].Taken? && replies[q].record.providerRequestId == id
  }

  ghost predicate CreatedBefore(replies: seq<Reply>, id: nat) {
    exists p | 0 <= p < |replies| :: CreatedAt(replies, p, id)
  }

  ghost predicate TakenBefore(replies: seq<Reply>, id: nat) {
    exists q | 0 <= q < |replies| :: TakenAt(replies, q, id)
  }

  /** Some request after the job's creation polled the provider. */
  ghost predicate PolledSince(config: Config, requests: seq<Request>, replies: seq<Reply>, id: nat)
    requires |requests| == |replies|
  {
    exists p, q | 0 <= p < q < |replies| :: CreatedAt(replies, p, id) && PollsAt(config, requests, replies, q)
  }

  /** How many submissions were accepted. */
  function Creations(replies: seq<Reply>): nat {
    if replies == [] then 0
    else Creations(replies[..|replies| - 1]) + (if replies[|replies| - 1].Created? then 1 else 0)
  }

  /** The name is the canonical decimal of one of the newest jobs. */
  predicate NamesLiveJob(config: Config, replies: seq<Reply>, name: string) {
    Canonical(name) && AmongNewest(config, Creations(replies), DigitsValue(name))
  }

  /** Of n jobs, the last one and any with fewer than maxJobs behind it. */
  predicate AmongNewest(config: Config, n: nat, id: int) {
    1 <= id <= n && (id == n || n - id < config.maxJobs)
  }

  lemma {:induction false} CreatedExtend(replies: seq<Reply>, id: nat)
    requires replies != []
    ensures var n := |replies| - 1;
            CreatedBefore(replies, id) <==> CreatedBefore(replies[..n], id) || CreatedAt(replies, n, id)
  {
    var front := replies[..|replies| - 1];
    assert forall p | 0 <= p < |front| :: CreatedAt(front, p, id) <==> CreatedAt(replies, p, id);
  }

  lemma {:induction false} TakenExtend(replies: seq<Reply>, id: nat)
    requires replies != []
    ensures var n := |replies| - 1;
            TakenBefore(replies, id) <==> TakenBefore(replies[..n], id) || TakenAt(replies, n, id)
  {
    var front := replies[..|replies| - 1];
    assert forall p | 0 <= p < |front| :: TakenAt(front, p, id) <==> TakenAt(replies, p, id);
  }

  lemma {:induction false} PolledExtend(config: Config, requests: seq<Request>, replies: seq<Reply>, id: nat)
    requires |requests| == |replies| > 0
    ensures var n := |replies| - 1;
            PolledSince(config, requests, replies, id) <==>
            PolledSince(config, requests[..n], replies[..n], id)
            || (CreatedBefore(replies[..n], id) && PollsAt(config, requests, replies, n))
  {
    var n := |replies| - 1;
    assert forall p | 0 <= p < n :: CreatedAt(replies[..n], p, id) <==> CreatedAt(replies, p, id);
    assert forall q | 0 <= q < n ::
        PollsAt(config, requests[..n], replies[..n], q) <==> PollsAt(config, requests, replies, q);
  }

  // ----- the service's state, read off the history

  /** A service nothing has happened to yet. */
  predicate IsNew(m: Service) {
    m == NewService(m.config)
  }

  lemma {:induction false} RunKeeps(m: Service, requests: seq<Request>)
    requires IsNew(m)
    ensures var after := After(m, requests);
            WellFormed(after) && after.config == m.config && after.metrics.requestsInflight == 0
  {
    if requests != [] {
      var front := requests[..|requests| - 1];
      RunKeeps(m, front);
      var before, last := After(m, front), requests[|requests| - 1];
      ClaimedEffect(before, last);
      PollEffect(before, last);
      InflightEffect(before, last);
    }
  }

  /** The last request of a run. */
  lemma {:induction false} LastStep(m: Service, requests: seq<Request>)
    requires requests != []
    ensures var n := |requests| - 1;
            var step := Serve(After(m, requests[..n]), requests[n]);
            && After(m, requests) == step.0 && Replies(m, requests)[n] == step.1
            && Replies(m, requests)[..n] == Replies(m, requests[..n])
  {
    ReplyOf(m, requests, |requests| - 1);
  }

  lemma {:induction false} CreatedIsHistory(m: Service, requests: seq<Request>, id: nat)
    requires IsNew(m)
    ensures 1 <= id <= |After(m, requests).jobs| <==> CreatedBefore(Replies(m, requests), id)
  {
    if requests != [] {
      var n := |requests| - 1;
      CreatedIsHistory(m, requests[..n], id);
      hide Serve, After, Replies, ToDecimal, CreatedBefore;
      LastStep(m, requests);
      CreatedExtend(Replies(m, requests), id);
      CreatedEffect(After(m, requests[..n]), requests[n], id);
    }
  }

  lemma {:induction false} PolledIsHistory(m: Service, requests: seq<Request>, id: nat)
    requires IsNew(m)
    ensures 1 <= id <= After(m, requests).polled <==>
            PolledSince(m.config, requests, Replies(m, requests), id)
  {
    if requests != [] {
      hide Serve;
      var n := |requests| - 1;
      PolledIsHistory(m, requests[..n], id);
      CreatedIsHistory(m, requests[..n], id);
      LastStep(m, requests);
      PolledExtend(m.config, requests, Replies(m, requests), id);
      RunKeeps(m, requests[..n]);
      PollEffect(After(m, requests[..n]), requests[n]);
    }
  }

  lemma {:induction false} TakenIsHistory(m: Service, requests: seq<Request>, id: nat)
    requires IsNew(m)
    ensures id in After(m, requests).taken <==> TakenBefore(Replies(m, requests), id)
  {
    if requests != [] {
      hide Serve;
      var n := |requests| - 1;
      TakenIsHistory(m, requests[..n], id);
      LastStep(m, requests);
      TakenExtend(Replies(m, requests), id);
      TakenEffect(After(m, requests[..n]), requests[n]);
    }
  }

  lemma {:induction false} JobCountIsHistory(m: Service, requests: seq<Request>)
    requires IsNew(m)
    ensures |After(m, requests).jobs| == Creations(Replies(m, requests))
  {
    if requests != [] {
      hide Serve;
      var n := |requests| - 1;
      JobCountIsHistory(m, requests[..n]);
      LastStep(m, requests);
      JobsEffect(After(m, requests[..n]), requests[n]);
    }
  }

  /** In a sequential run every authorised request is admitted, unless the limit is 0. */
  lemma {:induction false} AdmittedInRun(m: Service, requests: seq<Request>, command: Command)
    requires IsNew(m)
    ensures Serve(After(m, requests), Request(true, command)).1
         == if m.config.maxInflight > 0 then Handle(After(m, requests), command).1 else TooManyRequests
  {
    hide Handle;
    RunKeeps(m, requests);
  }

  /** In a sequential run a request is refused as unauthorised exactly when it is not
      authorised, unless the limit is 0, and such a request leaves every job, and with them both
      stores, as they were. */
  lemma {:induction false} UnauthorizedInRun(m: Service, requests: seq<Request>, k: nat)
    requires IsNew(m) && k < |requests|
    ensures Replies(m, requests)[k] == Unauthorized <==> !requests[k].authorized && m.config.maxInflight > 0
    ensures Replies(m, requests)[k] == TooManyRequests <==> m.config.maxInflight == 0
    ensures !requests[k].authorized || m.config.maxInflight == 0 ==>
              SameJobs(After(m, requests[..k]), After(m, requests[..k + 1]))
  {
    hide Replies, After;
    ReplyOf(m, requests, k);
    AfterStep(m, requests, k);
    RunKeeps(m, requests[..k]);
    GateEffect(After(m, requests[..k]), requests[k]);
    hide Serve;
  }

  predicate SameJobs(m: Service, after: Service) {
    after.jobs == m.jobs && after.polled == m.polled && after.claimed == m.claimed && after.taken == m.taken
  }

  /** From any state: only a request within the limit reaches a handler, and only an authorised
      one. */
  lemma {:induction false} GateEffect(m: Service, request: Request)
    ensures var (after, reply) := Serve(m, request);
            var admitted := m.metrics.requestsInflight < m.config.maxInflight;
            && (reply == TooManyRequests <==> !admitted)
            && (reply == Unauthorized <==> admitted && !request.authorized)
            && (!admitted || !request.authorized ==> SameJobs(m, after))
            && (admitted && request.authorized ==>
                  SameJobs(Handle(m, request.command).0, after) && reply == Handle(m, request.command).1)
  {
    HandlerReplies(m, request.command);
    hide Handle;
  }

  lemma {:induction false} HandlerReplies(m: Service, command: Command)
    ensures Handle(m, command).1 != TooManyRequests && Handle(m, command).1 != Unauthorized
  {
    hide Judge, NumericParam, LiveId, RecordOf, Newest;
  }

  /** How many replies are no success. */
  function Errors(replies: seq<Reply>): nat {
    if replies == [] then 0
    else Errors(replies[..|replies| - 1]) + (if StatusOf(replies[|replies| - 1]) != 200 then 1 else 0)
  }

  /** The counters after a sequential run: every request is counted once, as served or as
      rejected, and every reply that is no success as an error. */
  lemma {:induction false} CountersInRun(m: Service, requests: seq<Request>)
    requires IsNew(m)
    ensures After(m, requests).metrics
         == HostMetrics(if m.config.maxInflight > 0 then |requests| else 0, 0, Errors(Replies(m, requests)), 0,
                        if m.config.maxInflight > 0 then 0 else |requests|)
    ensures After(m, requests).nextSequence == |requests| + 1
  {
    if requests != [] {
      var n := |requests| - 1;
      CountersInRun(m, requests[..n]);
      LastStep(m, requests);
      RunKeeps(m, requests[..n]);
      CounterEffect(After(m, requests[..n]), requests[n]);
      hide Serve, After, Replies, StatusOf;
    }
  }

  lemma {:induction false} CounterEffect(m: Service, request: Request)
    requires m.metrics.requestsInflight == 0
    ensures var (after, reply) := Serve(m, request);
            var error := if StatusOf(reply) != 200 then 1 else 0;
            after.metrics == if m.config.maxInflight > 0
                             then m.metrics.(requestsTotal := m.metrics.requestsTotal + 1,
                                             errorsTotal := m.metrics.errorsTotal + error)
                             else m.metrics.(rejectedInflightTotal := m.metrics.rejectedInflightTotal + 1,
                                             errorsTotal := m.metrics.errorsTotal + error)
    ensures Serve(m, request).0.nextSequence == m.nextSequence + 1
  {
    hide Handle;
    ErrorStatus(Serve(m, request).1);
  }

  lemma {:induction false} ErrorStatus(reply: Reply)
    ensures IsError(reply) <==> StatusOf(reply) != 200
  {
  }

  /** An admitted take finds exactly the newest jobs, by their canonical decimals. */
  lemma {:induction false} TakeFindsNewestJobs(m: Service, requests: seq<Request>, name: string)
    requires IsNew(m)
    ensures OnTake(After(m, requests), name).1 == NotFound <==> !NamesLiveJob(m.config, Replies(m, requests), name)
  {
    hide Serve, Replies, RecordOf, Canonical;
    RunKeeps(m, requests);
    JobCountIsHistory(m, requests);
  }

  /** A take of a live job is decided by the history: the result was taken before, or the job
      was not polled for since its creation, or its result is handed out. */
  lemma {:induction false} TakeDecidedByHistory(m: Service, requests: seq<Request>, name: string)
    requires IsNew(m) && NamesLiveJob(m.config, Replies(m, requests), name)
    ensures var replies := Replies(m, requests);
            var id := DigitsValue(name);
            match OnTake(After(m, requests), name).1
            case AlreadyTaken => TakenBefore(replies, id)
            case NotReady => !TakenBefore(replies, id) && !PolledSince(m.config, requests, replies, id)
            case Taken(record) =>
              && !TakenBefore(replies, id) && PolledSince(m.config, requests, replies, id)
              && record.providerRequestId == id
            case _ => false
  {
    RunKeeps(m, requests);
    JobCountIsHistory(m, requests);
    TakeReply(After(m, requests), name);
    TakenIsHistory(m, requests, DigitsValue(name));
    PolledIsHistory(m, requests, DigitsValue(name));
  }

  lemma {:induction false} TakeReply(m: Service, name: string)
    requires WellFormed(m)
    ensures var reply := OnTake(m, name).1;
            match LiveId(m, name)
            case None => reply == NotFound
            case Some(id) =>
              if id in m.taken then reply == AlreadyTaken
              else if id <= m.polled then reply.Taken? && reply.record.providerRequestId == id
              else reply == NotReady
  {
  }

  // ----- exactly once, and the right result

  lemma {:induction false} TakenStays(m: Service, requests: seq<Request>, k: nat, id: nat)
    requires k <= |requests| && id in After(m, requests[..k]).taken
    ensures id in After(m, requests).taken
  {
    if k == |requests| {
      assert requests[..k] == requests;
    } else {
      var n := |requests| - 1;
      assert requests[..n][..k] == requests[..k];
      hide After, Serve, Replies, Describes;
      TakenStays(m, requests[..n], k, id);
      LastStep(m, requests);
      TakenEffect(After(m, requests[..n]), requests[n]);
    }
  }

  lemma {:induction false} AfterStep(m: Service, requests: seq<Request>, k: nat)
    requires k < |requests|
    ensures After(m, requests[..k + 1]) == Serve(After(m, requests[..k]), requests[k]).0
  {
    hide Serve;
    assert requests[..k + 1][..k] == requests[..k];
  }

  /** A handed out result was not taken before and is taken after. */
  lemma {:induction false} TakenStep(m: Service, requests: seq<Request>, q: nat, id: nat)
    requires q < |requests| && TakenAt(Replies(m, requests), q, id)
    ensures id !in After(m, requests[..q]).taken && id in After(m, requests[..q + 1]).taken
  {
    hide Serve, Replies, After, ResultPayload;
    ReplyOf(m, requests, q);
    AfterStep(m, requests, q);
    TakenEffect(After(m, requests[..q]), requests[q]);
  }

  lemma {:induction false} TakenOnceOrdered(m: Service, requests: seq<Request>, p: nat, q: nat, id: nat)
    requires p < q < |requests| && TakenAt(Replies(m, requests), p, id)
    ensures !TakenAt(Replies(m, requests), q, id)
  {
    hide Serve, Replies, After, TakenAt;
    TakenStep(m, requests, p, id);
    assert requests[..q][..p + 1] == requests[..p + 1];
    TakenStays(m, requests[..q], p + 1, id);
    if TakenAt(Replies(m, requests), q, id) {
      TakenStep(m, requests, q, id);
    }
  }

  /** Each job's result is handed out at most once, in any run from any state. */
  lemma {:induction false} TakenAtMostOnce(m: Service, requests: seq<Request>, p: nat, q: nat, id: nat)
    requires p < |requests| && q < |requests|
    requires TakenAt(Replies(m, requests), p, id) && TakenAt(Replies(m, requests), q, id)
    ensures p == q
  {
    if p < q {
      TakenOnceOrdered(m, requests, p, q, id);
    } else if q < p {
      TakenOnceOrdered(m, requests, q, p, id);
    }
  }

  lemma {:induction false} JobsStay(m: Service, requests: seq<Request>, k: nat)
    requires k <= |requests|
    ensures After(m, requests[..k]).jobs <= After(m, requests).jobs
  {
    if k == |requests| {
      assert requests[..k] == requests;
    } else {
      var n := |requests| - 1;
      assert requests[..n][..k] == requests[..k];
      hide After, Serve, Replies, JobFrom;
      JobsStay(m, requests[..n], k);
      LastStep(m, requests);
      JobsEffect(After(m, requests[..n]), requests[n]);
    }
  }

  /** Every job of a run goes back to the submission that was told its number. */
  lemma {:induction false} JobHasSubmission(m: Service, requests: seq<Request>, id: nat) returns (p: nat)
    requires IsNew(m)
    requires 1 <= id <= |After(m, requests).jobs|
    ensures p < |requests| && CreatedAt(Replies(m, requests), p, id)
    ensures requests[p].command.Submit?
    ensures After(m, requests).jobs[id - 1]
         == JobFrom(m.config.limits, requests[p].command.kind, requests[p].command.body)
  {
    hide Serve, JobFrom;
    var replies := Replies(m, requests);
    CreatedIsHistory(m, requests, id);
    p :| 0 <= p < |replies| && CreatedAt(replies, p, id);
    ReplyOf(m, requests, p);
    RunKeeps(m, requests[..p]);
    JobsEffect(After(m, requests[..p]), requests[p]);
    assert requests[..p + 1][..p] == requests[..p];
    JobsStay(m, requests, p + 1);
  }

  /** The record is that of the job the p-th request created, complete: its ids are the ones
      found in that request's body, and its result answers the job's number and kind. */
  predicate MadeFor(limits: Limits, requests: seq<Request>, replies: seq<Reply>, p: nat, record: JobRecord)
    requires p < |requests| == |replies|
  {
    && CreatedAt(replies, p, record.providerRequestId) && requests[p].command.Submit?
    && Describes(record, record.providerRequestId,
                 JobFrom(limits, requests[p].command.kind, requests[p].command.body), true)
  }

  /** A result that is handed out belongs to an earlier submission, the one that created its
      job. */
  lemma {:induction false} TakenCarriesOwnResult(m: Service, requests: seq<Request>, q: nat)
    requires IsNew(m)
    requires q < |requests| && Replies(m, requests)[q].Taken?
    ensures exists p | 0 <= p < q ::
              MadeFor(m.config.limits, requests, Replies(m, requests), p, Replies(m, requests)[q].record)
  {
    hide Serve, ResultPayload;
    ReplyOf(m, requests, q);
    TakenEffect(After(m, requests[..q]), requests[q]);
    var record := Replies(m, requests)[q].record;
    var p := JobHasSubmission(m, requests[..q], record.providerRequestId);
    assert MadeFor(m.config.limits, requests, Replies(m, requests), p, record);
  }

  /** A GET that finds a job reports that very job, complete, with the answer to its own
      submission. */
  lemma {:induction false} GetShowsOwnJob(m: Service, requests: seq<Request>, q: nat)
    requires IsNew(m)
    requires q < |requests| && requests[q].command.Get? && Replies(m, requests)[q].Shown?
    ensures var record := Replies(m, requests)[q].record;
            && record.jobId == requests[q].command.jobId && record.status == Complete
            && exists p | 0 <= p < q :: MadeFor(m.config.limits, requests, Replies(m, requests), p, record)
  {
    hide Serve, ResultPayload;
    ReplyOf(m, requests, q);
    var record := Replies(m, requests)[q].record;
    var id := GetEffect(After(m, requests[..q]), requests[q]);
    var p := JobHasSubmission(m, requests[..q], id);
    assert MadeFor(m.config.limits, requests, Replies(m, requests), p, record);
  }

  lemma {:induction false} GetEffect(m: Service, request: Request) returns (id: nat)
    requires request.command.Get? && Serve(m, request).1.Shown?
    ensures Live(m, id) && request.command.jobId == ToDecimal(id)
    ensures var record := Serve(m, request).1.record;
            record.providerRequestId == id && Describes(record, id, m.jobs[id - 1], true)
  {
    hide Judge, NumericParam, Canonical, ResultPayload;
    id := LiveId(PollAll(m), request.command.jobId).value;
    LiveName(PollAll(m), request.command.jobId);
  }

  lemma {:induction false} LiveName(m: Service, name: string)
    requires LiveId(m, name).Some?
    ensures ToDecimal(LiveId(m, name).value) == name
  {
    CanonicalRoundTrip(name);
  }

  // ----- submissions

  /** What a submission does whose body has the given keys: it creates the next job exactly when
      these are the fields of the endpoint and the sizes fit, and the job keeps the body and the
      ids found in it. Any refusal leaves the service, and so both stores, as they were, and a
      field error names the first offending field. */
  ghost predicate SubmitDecidedBy(m: Service, kind: Kind, body: string, keys: seq<string>, field: string) {
    var limits := m.config.limits;
    var (after, reply) := OnSubmit(m, kind, body);
    var id := |m.jobs| + 1;
    var fits := Braced(body) && |body| <= limits.maxBodyBytes;
    && (if fits && FieldsFit(kind, keys) && |ModelOf(limits, body)| <= limits.maxFieldBytes
        then reply == Created(ToDecimal(id), id) && after == m.(jobs := m.jobs + [JobFrom(limits, kind, body)])
        else reply.Refused? && after == m)
    && (reply == Refused(MissingField(field)) <==> fits && Lacks(kind, keys, field))
    && (reply == Refused(UnknownField(field)) <==> fits && Exceeds(kind, keys, field))
  }

  lemma {:induction false} SubmitVerdict(m: Service, kind: Kind, body: string, keys: seq<string>, field: string)
    requires DecidedBy(m.config.limits, kind, body, keys, field)
    ensures SubmitDecidedBy(m, kind, body, keys, field)
  {
    AcceptedSubmission(m.config.limits, kind, body);
    hide Judge, ModelOf, JobFrom, Braced, FieldsFit, Lacks, Exceeds;
  }

  lemma {:induction false} AcceptedSubmission(limits: Limits, kind: Kind, body: string)
    ensures match Judge(limits, kind, body)
            case Accept(modelId, toolId, templateId) =>
              Submission(kind, body, modelId, toolId, templateId) == JobFrom(limits, kind, body)
            case Refuse(_) => true
  {
  }

  /** A printed object is judged by the keys of the walk, unless a brace in one of its strings
      takes the scan to the top level there. */
  lemma {:induction false} SubmitPrintedBody(m: Service, kind: Kind, ms: seq<Member>, field: string)
    requires FoundKeys(ms).Some?
    ensures SubmitDecidedBy(m, kind, Print(Obj(ms)), FoundKeys(ms).value, field)
  {
    hide *;
    PrintedBodyVerdict(m.config.limits, kind, ms, field);
    SubmitVerdict(m, kind, Print(Obj(ms)), FoundKeys(ms).value, field);
  }

  /** The same with whitespace between its tokens. */
  lemma {:induction false} SubmitSpacedBody(
    m: Service, kind: Kind, ms: seq<Member>, gaps: seq<string>, field: string)
    requires FoundKeys(ms).Some? && Gaps(gaps, Tokens(Obj(ms)))
    ensures SubmitDecidedBy(m, kind, Spaced(Tokens(Obj(ms)), gaps), FoundKeys(ms).value, field)
  {
    var body := Spaced(Tokens(Obj(ms)), gaps);
    hide *;
    SpacedBodyVerdict(m.config.limits, kind, ms, gaps, field);
    SubmitVerdict(m, kind, body, FoundKeys(ms).value, field);
  }

  /** With paired strings in the objects inside it is judged by all its keys, as scanned. */
  lemma {:induction false} SubmitPairedBody(m: Service, kind: Kind, ms: seq<Member>, field: string)
    requires forall i | 0 <= i < |ms| :: Scannable(ms[i].value)
    ensures SubmitDecidedBy(m, kind, Print(Obj(ms)), ReadKeys(ms, []), field)
  {
    hide *;
    PairedBodyVerdict(m.config.limits, kind, ms, field);
    SubmitVerdict(m, kind, Print(Obj(ms)), ReadKeys(ms, []), field);
  }

  /** A plain object, with no control characters in its keys besides, is judged by its own
      fields. */
  lemma {:induction false} SubmitPlainBody(m: Service, kind: Kind, ms: seq<Member>, field: string)
    requires PlainBody(ms)
    ensures SubmitDecidedBy(m, kind, Print(Obj(ms)), KeysOf(ms), field)
  {
    hide *;
    PlainBodyVerdict(m.config.limits, kind, ms, field);
    SubmitVerdict(m, kind, Print(Obj(ms)), KeysOf(ms), field);
  }

  // ----- evicted jobs

  /** A job that left the window unclaimed is never claimed: its result stays behind. */
  lemma {:induction false} EvictedNeverClaimed(m: Service, requests: seq<Request>, id: nat)
    requires WellFormed(m) && 1 <= id <= |m.jobs| && !Live(m, id) && id !in m.claimed
    ensures var after := After(m, requests);
            && WellFormed(after) && |m.jobs| <= |after.jobs| && after.config == m.config
            && id !in after.claimed && id !in after.taken
  {
    if requests != [] {
      var n := |requests| - 1;
      EvictedNeverClaimed(m, requests[..n], id);
      var before := After(m, requests[..n]);
      ClaimedEffect(before, requests[n]);
      JobsEffect(before, requests[n]);
      PollEffect(before, requests[n]);
    }
  }

  // ----- what GET and wait report

  /** A GET of a live job reports it complete with its result, and so does a wait with time to
      wait; a wait without any leaves the service as it is. */
  lemma {:induction false} PollingShowsComplete(m: Service, name: string, timeoutMs: Option<string>)
    requires LiveId(m, name).Some?
    ensures var id := LiveId(m, name).value;
            && OnGet(m, name).1.Shown? && OnGet(m, name).1.record.status == Complete
            && OnGet(m, name).1.record.result == ResultPayload(id, m.jobs[id - 1].kind)
            && (NumericParam(timeoutMs).Some? ==>
                  && OnWait(m, name, timeoutMs).1.Shown?
                  && if NumericParam(timeoutMs).value > 0 && m.config.requestTimeoutMs > 0
                     then && OnWait(m, name, timeoutMs).0.polled == |m.jobs|
                          && OnWait(m, name, timeoutMs).1.record.status == Complete
                     else OnWait(m, name, timeoutMs) == (m, Shown(RecordOf(m, id))))
  {
  }

  /** An absent parameter counts as 0, not as the configured default: the listing is empty and
      the wait does not poll. */
  lemma {:induction false} AbsentParameterIsZero(m: Service, name: string)
    ensures OnList(m, None) == (m, Listed([]))
    ensures LiveId(m, name).Some? ==> OnWait(m, name, None) == (m, Shown(RecordOf(m, LiveId(m, name).value)))
  {
  }
}
