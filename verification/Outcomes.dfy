/** The reply to every command of a run, as a function of the requests and replies before it. */
module Outcomes {
  import opened Decimal
  import opened Jobs
  import opened Envelope
  import opened Machine
  import opened History

  // ----- which jobs are complete

  /** The reply shows the job complete, or hands it out. */
  predicate Completes(reply: Reply, id: nat) {
    && (reply.Shown? || reply.Taken?)
    && reply.record.providerRequestId == id && reply.record.status == Complete
  }

  ghost predicate CompletedBefore(replies: seq<Reply>, id: nat) {
    exists q | 0 <= q < |replies| :: Completes(replies[q], id)
  }

  lemma {:induction false} CompletedExtend(replies: seq<Reply>, id: nat)
    requires replies != []
    ensures var n := |replies| - 1;
            CompletedBefore(replies, id) <==> CompletedBefore(replies[..n], id) || Completes(replies[n], id)
  {
    var front := replies[..|replies| - 1];
    assert forall p | 0 <= p < |front| :: Completes(front[p], id) <==> Completes(replies[p], id);
  }

  lemma {:induction false} HandleCompletes(m: Service, command: Command, id: nat)
    requires WellFormed(m)
    ensures var (after, reply) := Handle(m, command);
            id in after.claimed <==> id in m.claimed || Completes(reply, id)
  {
    hide Judge, Newest, NumericParam, Canonical;
  }

  lemma {:induction false} CompleteEffect(m: Service, request: Request, id: nat)
    requires WellFormed(m)
    ensures var (after, reply) := Serve(m, request);
            id in after.claimed <==> id in m.claimed || Completes(reply, id)
  {
    GateEffect(m, request);
    HandleCompletes(m, request.command, id);
    hide Serve, Handle;
  }

  /** A job holds its result exactly when an earlier reply showed it complete or handed it out. */
  lemma {:induction false} CompletedIsHistory(m: Service, requests: seq<Request>, id: nat)
    requires IsNew(m)
    ensures id in After(m, requests).claimed <==> CompletedBefore(Replies(m, requests), id)
  {
    if requests != [] {
      var n := |requests| - 1;
      CompletedIsHistory(m, requests[..n], id);
      LastStep(m, requests);
      RunKeeps(m, requests[..n]);
      hide Serve, After, Replies, WellFormed;
      CompletedExtend(Replies(m, requests), id);
      CompleteEffect(After(m, requests[..n]), requests[n], id);
    }
  }

  // ----- the handlers, case by case

  /** The parameter is given and is no digit string. */
  predicate Malformed(raw: Option<string>) {
    raw.Some? && (raw.value == "" || !AllDigits(raw.value))
  }

  lemma {:induction false} ParameterExact(raw: Option<string>)
    ensures NumericParam(raw).None? <==> Malformed(raw)
  {
  }

  lemma {:induction false} GetCases(m: Service, name: string)
    ensures var reply := Handle(m, Get(name)).1;
            match LiveId(m, name)
            case None => reply == NotFound
            case Some(id) => reply.Shown? && Describes(reply.record, id, m.jobs[id - 1], true)
  {
    hide Canonical;
  }

  lemma {:induction false} WaitCases(m: Service, name: string, timeoutMs: Option<string>)
    ensures var reply := Handle(m, Command.Wait(name, timeoutMs)).1;
            match LiveId(m, name)
            case None => reply == NotFound
            case Some(id) =>
              if Malformed(timeoutMs) then reply == BadParameter("timeout_ms")
              else && reply.Shown?
                   && Describes(reply.record, id, m.jobs[id - 1], TimeToWait(m.config, timeoutMs) || id in m.claimed)
  {
    hide Canonical;
  }

  lemma {:induction false} TakeCases(m: Service, name: string)
    requires WellFormed(m)
    ensures var reply := Handle(m, Take(name)).1;
            match LiveId(m, name)
            case None => reply == NotFound
            case Some(id) =>
              if id in m.taken then reply == AlreadyTaken
              else if id > m.polled then reply == NotReady
              else reply.Taken? && Describes(reply.record, id, m.jobs[id - 1], true)
  {
    hide Canonical;
  }

  /** The record at a position of a listing is that of the job so many before the last. */
  ghost predicate ListsAt(m: Service, record: JobRecord, j: nat)
    requires j < |m.jobs|
  {
    var id := |m.jobs| - j;
    AmongNewest(m.config, |m.jobs|, id) && Describes(record, id, m.jobs[id - 1], id in m.claimed)
  }

  /** The newest jobs, downwards, as many as asked for if there are that many. */
  ghost predicate Lists(m: Service, records: seq<JobRecord>, limit: nat) {
    var n := |m.jobs|;
    && |records| <= limit && |records| <= n
    && (forall j | 0 <= j < |records| :: ListsAt(m, records[j], j))
    && (|records| == limit || !AmongNewest(m.config, n, n - |records|))
  }

  lemma {:induction false} ListCases(m: Service, limit: Option<string>)
    ensures var reply := Handle(m, List(limit)).1;
            if Malformed(limit) then reply == BadParameter("limit")
            else reply.Listed? && Lists(m, reply.records, NumericParam(limit).value)
  {
    if !Malformed(limit) {
      var n := NumericParam(limit).value;
      var records := Newest(m, n);
      forall j | 0 <= j < |records| ensures ListsAt(m, records[j], j) {
        RecordDescribes(m, |m.jobs| - j);
      }
      assert |records| == n || !AmongNewest(m.config, |m.jobs|, |m.jobs| - |records|);
    }
  }

  lemma {:induction false} LiveExact(m: Service, name: string)
    ensures LiveId(m, name) == if Canonical(name) && AmongNewest(m.config, |m.jobs|, DigitsValue(name))
                               then Some(DigitsValue(name)) else None
  {
    hide Canonical;
  }
}
