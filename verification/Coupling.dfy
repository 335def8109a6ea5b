/** How the job table and the provider's two lists represent a service, and that every step
    of the service is what the stores do. */
module Coupling {
  import opened Decimal
  import opened Provider
  import opened Jobs
  import opened Admission
  import opened Machine

  // ----- the two stores that represent a service

  function PendingOf(m: Service): seq<PendingRequest>
    requires m.polled <= |m.jobs|
  {
    seq(|m.jobs| - m.polled, k requires 0 <= k < |m.jobs| - m.polled =>
      PendingRequest(m.polled + k + 1, m.jobs[m.polled + k].kind, m.jobs[m.polled + k].body))
  }

  function ResultOf(jobs: seq<Submission>, id: nat): ProviderResult
    requires 1 <= id <= |jobs|
  {
    ProviderResult(id, "application/json", ResultPayload(id, jobs[id - 1].kind))
  }

  /** The polled results nobody claimed, in the order of their numbers. */
  function ReadyOf(jobs: seq<Submission>, polled: nat, claimed: set<nat>): seq<ProviderResult>
    requires polled <= |jobs|
  {
    if polled == 0 then []
    else ReadyOf(jobs, polled - 1, claimed) + if polled in claimed then [] else [ResultOf(jobs, polled)]
  }

  ghost predicate StoreMatches(m: Service, s: StoreState) {
    && Consistent(s) && s.maxJobs == Capacity(m.config) && s.nextJobId == |m.jobs| + 1
    && (forall id: int | Live(m, id) :: ToDecimal(id) in s.jobs && s.jobs[ToDecimal(id)] == RecordOf(m, id))
  }

  ghost predicate ProviderMatches(m: Service, p: ProviderState)
    requires m.polled <= |m.jobs|
  {
    && p.nextRequestId == |m.jobs| + 1
    && p.pending == PendingOf(m)
    && p.ready == ReadyOf(m.jobs, m.polled, m.claimed)
  }

  ghost predicate Coupled(m: Service, s: StoreState, p: ProviderState) {
    WellFormed(m) && StoreMatches(m, s) && ProviderMatches(m, p)
  }

  lemma {:induction false} CoupledNumbers(m: Service, s: StoreState, p: ProviderState)
    requires Coupled(m, s, p)
    ensures Consistent(s) && s.nextJobId == p.nextRequestId == |m.jobs| + 1
  {
  }

  // ----- finding a job

  lemma {:induction false} LiveIsWindow(m: Service, s: StoreState, id: int)
    requires StoreMatches(m, s)
    ensures Live(m, id) <==> Oldest(s) <= id < s.nextJobId
  {
  }

  /** The map finds a string exactly when it names a live job, and then that job's record. */
  lemma {:induction false} LookupMatches(m: Service, s: StoreState, name: string)
    requires StoreMatches(m, s)
    ensures name in s.jobs <==> LiveId(m, name).Some?
    ensures name in s.jobs ==> var id := LiveId(m, name).value;
                               ToDecimal(id) == name && s.jobs[name] == RecordOf(m, id)
  {
    LookupExact(s, name);
    if Canonical(name) {
      LiveIsWindow(m, s, DigitsValue(name));
      CanonicalRoundTrip(name);
    }
  }

  lemma {:induction false} ListingMatches(m: Service, s: StoreState, limit: nat)
    requires StoreMatches(m, s)
    ensures Recent(s, limit) == Newest(m, limit)
  {
    hide Block, Recent, Newest;
    forall k | 0 <= k < NewestCount(m, limit) ensures Recent(s, limit)[k] == Newest(m, limit)[k] {
      var id := |m.jobs| - k;
      StoredNumber(s, id);
      assert Live(m, id);
    }
  }

  // ----- the ready list

  lemma {:induction false} ReadyStep(jobs: seq<Submission>, polled: nat, claimed: set<nat>)
    requires 1 <= polled <= |jobs|
    ensures var front := ReadyOf(jobs, polled - 1, claimed);
            ReadyOf(jobs, polled, claimed) == if polled in claimed then front else front + [ResultOf(jobs, polled)]
  {
  }

  ghost predicate ListsUnclaimed(ready: seq<ProviderResult>, polled: nat, claimed: set<nat>) {
    && (forall i | 0 <= i < |ready| :: 1 <= ready[i].requestId <= polled && ready[i].requestId !in claimed)
    && (forall i, j | 0 <= i < j < |ready| :: ready[i].requestId < ready[j].requestId)
  }

  lemma {:induction false} ReadyIds(jobs: seq<Submission>, polled: nat, claimed: set<nat>)
    requires polled <= |jobs|
    ensures ListsUnclaimed(ReadyOf(jobs, polled, claimed), polled, claimed)
  {
    if polled > 0 {
      ReadyIds(jobs, polled - 1, claimed);
      ReadyStep(jobs, polled, claimed);
    }
  }

  lemma {:induction false} ReadyHas(jobs: seq<Submission>, polled: nat, claimed: set<nat>, id: nat)
    requires 1 <= id <= polled <= |jobs| && id !in claimed
    ensures ResultOf(jobs, id) in ReadyOf(jobs, polled, claimed)
  {
    ReadyStep(jobs, polled, claimed);
    hide ReadyOf, ResultOf;
    if id < polled {
      ReadyHas(jobs, polled - 1, claimed, id);
    }
  }

  /** Later submissions and claims of other numbers leave a prefix of the list alone. */
  lemma {:induction false} ReadyFrame(jobs: seq<Submission>, more: seq<Submission>, polled: nat,
      claimed: set<nat>, claimed': set<nat>)
    requires polled <= |jobs| && jobs <= more
    requires forall id | 1 <= id <= polled :: id in claimed <==> id in claimed'
    ensures ReadyOf(more, polled, claimed') == ReadyOf(jobs, polled, claimed)
  {
    if polled > 0 {
      ReadyFrame(jobs, more, polled - 1, claimed, claimed');
    }
  }

  lemma {:induction false} ResultAppend(a: seq<ProviderResult>, x: ProviderResult, id: nat)
    ensures ResultFor(a + [x], id)
         == if ResultFor(a, id).Some? then ResultFor(a, id) else if x.requestId == id then Some(x) else None
  {
    if a == [] {
      assert a + [x] == [x];
    } else {
      ResultAppend(a[1..], x, id);
      assert (a + [x])[0] == a[0] && (a + [x])[1..] == a[1..] + [x];
    }
  }

  lemma {:induction false} WithoutAppend(a: seq<ProviderResult>, x: ProviderResult, id: nat)
    ensures Without(a + [x], id)
         == if ResultFor(a, id).Some? then Without(a, id) + [x] else if x.requestId == id then a else a + [x]
  {
    if a == [] {
      assert a + [x] == [x];
    } else {
      assert (a + [x])[0] == a[0] && (a + [x])[1..] == a[1..] + [x];
      if a[0].requestId != id {
        WithoutAppend(a[1..], x, id);
        assert a == [a[0]] + a[1..];
      }
    }
  }

  /** A number not polled, or claimed before, has no result in the list. */
  lemma {:induction false} TakeAbsent(jobs: seq<Submission>, polled: nat, claimed: set<nat>, id: nat)
    requires polled <= |jobs| && (id > polled || id in claimed)
    ensures var ready := ReadyOf(jobs, polled, claimed);
            ResultFor(ready, id) == None && Without(ready, id) == ready
  {
    var ready := ReadyOf(jobs, polled, claimed);
    ReadyIds(jobs, polled, claimed);
    FirstResult(ready, id, |ready|);
  }

  /** A polled and unclaimed number has one, and taking it out leaves the list of a service
      that has claimed it. */
  lemma {:induction false} TakePresent(jobs: seq<Submission>, polled: nat, claimed: set<nat>, id: nat)
    requires 1 <= id <= polled <= |jobs| && id !in claimed
    ensures var ready := ReadyOf(jobs, polled, claimed);
            && ResultFor(ready, id) == Some(ResultOf(jobs, id))
            && Without(ready, id) == ReadyOf(jobs, polled, claimed + {id})
  {
    var front := ReadyOf(jobs, polled - 1, claimed);
    ReadyStep(jobs, polled, claimed);
    ReadyStep(jobs, polled, claimed + {id});
    ResultAppend(front, ResultOf(jobs, polled), id);
    WithoutAppend(front, ResultOf(jobs, polled), id);
    if id == polled {
      TakeAbsent(jobs, polled - 1, claimed, id);
      ReadyFrame(jobs, jobs, polled - 1, claimed, claimed + {id});
    } else {
      TakePresent(jobs, polled - 1, claimed, id);
    }
  }

  /** The answers a poll produces for the jobs after p up to n. */
  function Fresh(jobs: seq<Submission>, p: nat, n: nat): (r: seq<ProviderResult>)
    requires p <= n <= |jobs|
    ensures |r| == n - p && forall k | 0 <= k < |r| :: r[k] == ResultOf(jobs, p + 1 + k)
  {
    if n == p then [] else Fresh(jobs, p, n - 1) + [ResultOf(jobs, n)]
  }

  lemma {:induction false} ReadyGrows(jobs: seq<Submission>, p: nat, n: nat, claimed: set<nat>)
    requires p <= n <= |jobs| && forall id | p < id <= n :: id !in claimed
    ensures ReadyOf(jobs, n, claimed) == ReadyOf(jobs, p, claimed) + Fresh(jobs, p, n)
  {
    if n > p {
      ReadyStep(jobs, n, claimed);
      ReadyGrows(jobs, p, n - 1, claimed);
    }
  }

  lemma {:induction false} PollReady(m: Service)
    requires WellFormed(m)
    ensures ReadyOf(m.jobs, |m.jobs|, m.claimed) == ReadyOf(m.jobs, m.polled, m.claimed) + Answers(PendingOf(m))
  {
    ReadyGrows(m.jobs, m.polled, |m.jobs|, m.claimed);
    assert Answers(PendingOf(m)) == Fresh(m.jobs, m.polled, |m.jobs|);
  }

  // ----- each step keeps the coupling

  lemma {:induction false} CoupledNew(config: Config)
    ensures Coupled(NewService(config), StoreState(Capacity(config), 1, 1, [], map[]), ProviderState(1, [], []))
  {
  }

  /** The counters have no part in the coupling. */
  lemma {:induction false} CoupledCounters(m: Service, s: StoreState, p: ProviderState,
      metrics: HostMetrics, nextSequence: nat)
    requires Coupled(m, s, p)
    ensures Coupled(m.(metrics := metrics, nextSequence := nextSequence), s, p)
  {
  }

  function Submitted(m: Service, job: Submission): Service {
    m.(jobs := m.jobs + [job])
  }

  function RecordFor(s: StoreState, job: Submission, requestId: nat): JobRecord {
    NewRecord(s, TypeName(job.kind), job.modelId, job.toolId, job.templateId, requestId)
  }

  /** The store after Create and the move to WAITING. */
  function Enqueued(s: StoreState, record: JobRecord): StoreState {
    Update(AfterCreate(s, record), record.jobId, record.(status := Waiting))
  }

  /** A created job and the surviving older ones have the records of the longer service. */
  lemma {:induction false} CreatedMatches(m: Service, s: StoreState, job: Submission, id: int)
    requires WellFormed(m) && StoreMatches(m, s) && Live(Submitted(m, job), id)
    ensures var record := RecordFor(s, job, |m.jobs| + 1);
            var created := AfterCreate(s, record);
            && Consistent(created) && created.nextJobId == |m.jobs| + 2 && created.maxJobs == s.maxJobs
            && ToDecimal(id) in created.jobs
            && created.jobs[ToDecimal(id)] == if id == |m.jobs| + 1 then record else RecordOf(Submitted(m, job), id)
  {
    var record := RecordFor(s, job, |m.jobs| + 1);
    var created := AfterCreate(s, record);
    hide Block;
    CreateConsistent(s, record);
    StoredNumber(created, id);
    DecimalInjective(id, |m.jobs| + 1);
    if id <= |m.jobs| {
      assert Live(m, id);
      OlderRecord(m, job, id);
      hide RecordOf, RecordFor, NewRecord, AfterCreate;
      assert created.jobs[ToDecimal(id)] == s.jobs[ToDecimal(id)];
    }
  }

  lemma {:induction false} OlderRecord(m: Service, job: Submission, id: int)
    requires 1 <= id <= |m.jobs|
    ensures RecordOf(Submitted(m, job), id) == RecordOf(m, id)
  {
  }

  lemma {:induction false} SubmitStore(m: Service, s: StoreState, job: Submission)
    requires WellFormed(m) && StoreMatches(m, s)
    ensures StoreMatches(Submitted(m, job), Enqueued(s, RecordFor(s, job, |m.jobs| + 1)))
  {
    var record := RecordFor(s, job, |m.jobs| + 1);
    var created := AfterCreate(s, record);
    var m' := Submitted(m, job);
    CreatedMatches(m, s, job, |m.jobs| + 1);
    UpdateConsistent(created, record.jobId, record.(status := Waiting));
    forall id: int | Live(m', id)
      ensures ToDecimal(id) in Enqueued(s, record).jobs && Enqueued(s, record).jobs[ToDecimal(id)] == RecordOf(m', id)
    {
      CreatedMatches(m, s, job, id);
      DecimalInjective(id, |m.jobs| + 1);
    }
  }

  lemma {:induction false} SubmitProvider(m: Service, p: ProviderState, job: Submission)
    requires WellFormed(m) && ProviderMatches(m, p)
    ensures WellFormed(Submitted(m, job)) && ProviderMatches(Submitted(m, job), AfterSubmit(p, job.kind, job.body))
  {
    ReadyFrame(m.jobs, Submitted(m, job).jobs, m.polled, m.claimed, m.claimed);
    var request := PendingRequest(p.nextRequestId, job.kind, job.body);
    assert PendingOf(Submitted(m, job)) == PendingOf(m) + [request];
  }

  lemma {:induction false} CoupledSubmit(m: Service, s: StoreState, p: ProviderState, job: Submission)
    requires Coupled(m, s, p)
    ensures Coupled(Submitted(m, job), Enqueued(s, RecordFor(s, job, p.nextRequestId)),
                    AfterSubmit(p, job.kind, job.body))
  {
    SubmitStore(m, s, job);
    SubmitProvider(m, p, job);
  }

  lemma {:induction false} CoupledPoll(m: Service, s: StoreState, p: ProviderState)
    requires Coupled(m, s, p)
    ensures Coupled(PollAll(m), s, AfterPoll(p))
  {
    PollReady(m);
    assert PendingOf(PollAll(m)) == [];
    forall id: int | Live(PollAll(m), id) ensures RecordOf(PollAll(m), id) == RecordOf(m, id) && Live(m, id) {
    }
  }

  /** What ApplyProviderResult makes of a record. */
  function Filled(record: JobRecord, payload: string): JobRecord {
    record.(result := payload, status := Complete)
  }

  lemma {:induction false} UpdateMatches(m: Service, m': Service, s: StoreState, id: int)
    requires StoreMatches(m, s) && Live(m, id)
    requires m'.config == m.config && m'.jobs == m.jobs
    requires forall other: nat | other != id ::
               (other in m'.claimed <==> other in m.claimed) && (other in m'.taken <==> other in m.taken)
    ensures StoreMatches(m', Update(s, ToDecimal(id), RecordOf(m', id)))
  {
    var t := Update(s, ToDecimal(id), RecordOf(m', id));
    assert s.jobs[ToDecimal(id)] == RecordOf(m, id);
    UpdateConsistent(s, ToDecimal(id), RecordOf(m', id));
    forall other: int | Live(m', other)
      ensures ToDecimal(other) in t.jobs && t.jobs[ToDecimal(other)] == RecordOf(m', other)
    {
      assert Live(m, other);
      DecimalInjective(id, other);
    }
  }

  lemma {:induction false} ClaimStore(m: Service, s: StoreState, id: nat)
    requires WellFormed(m) && StoreMatches(m, s) && Live(m, id) && id <= m.polled && id !in m.claimed
    ensures ToDecimal(id) in s.jobs
    ensures var filled := Filled(s.jobs[ToDecimal(id)], ResultPayload(id, m.jobs[id - 1].kind));
            StoreMatches(Claim(m, id), Update(s, ToDecimal(id), filled))
  {
    assert s.jobs[ToDecimal(id)] == RecordOf(m, id);
    UpdateMatches(m, Claim(m, id), s, id);
  }

  lemma {:induction false} ClaimProvider(m: Service, p: ProviderState, id: nat)
    requires WellFormed(m) && ProviderMatches(m, p) && 1 <= id <= m.polled && id !in m.claimed
    ensures ResultFor(p.ready, id) == Some(ResultOf(m.jobs, id))
    ensures WellFormed(Claim(m, id)) && ProviderMatches(Claim(m, id), AfterTake(p, id))
  {
    TakePresent(m.jobs, m.polled, m.claimed, id);
    assert PendingOf(Claim(m, id)) == PendingOf(m);
  }

  /** The store after a found result was put into its job. */
  function Applied(s: StoreState, name: string, found: Option<ProviderResult>): StoreState
    requires name in s.jobs
  {
    if found.Some? then Update(s, name, Filled(s.jobs[name], found.value.payload)) else s
  }

  lemma {:induction false} NothingToClaim(m: Service, p: ProviderState, id: nat)
    requires WellFormed(m) && ProviderMatches(m, p) && (id > m.polled || id in m.claimed)
    ensures ResultFor(p.ready, id) == None && AfterTake(p, id) == p && Claim(m, id) == m
  {
    TakeAbsent(m.jobs, m.polled, m.claimed, id);
    assert id in m.claimed ==> m.claimed + {id} == m.claimed;
  }

  lemma {:induction false} CoupledClaim(m: Service, s: StoreState, p: ProviderState, id: nat)
    requires Coupled(m, s, p) && Live(m, id)
    ensures ToDecimal(id) in s.jobs
    ensures Coupled(Claim(m, id), Applied(s, ToDecimal(id), ResultFor(p.ready, id)), AfterTake(p, id))
  {
    if id <= m.polled && id !in m.claimed {
      ClaimStore(m, s, id);
      ClaimProvider(m, p, id);
    } else {
      NothingToClaim(m, p, id);
    }
  }

  lemma {:induction false} CoupledTake(m: Service, s: StoreState, p: ProviderState, id: nat)
    requires Coupled(m, s, p)
    ensures Live(m, id) && id in m.claimed ==>
              && ToDecimal(id) in s.jobs
              && var record := s.jobs[ToDecimal(id)].(resultTaken := true);
                 Coupled(m.(taken := m.taken + {id}), Update(s, ToDecimal(id), record), p)
  {
    if Live(m, id) && id in m.claimed {
      var m' := m.(taken := m.taken + {id});
      assert s.jobs[ToDecimal(id)] == RecordOf(m, id);
      UpdateMatches(m, m', s, id);
      assert PendingOf(m') == PendingOf(m);
    }
  }

  lemma {:induction false} RecordResult(m: Service, id: int)
    requires 1 <= id <= |m.jobs|
    ensures RecordOf(m, id).result != "" <==> id in m.claimed
  {
  }

  /** TakeResult on a live job succeeds exactly on a claimed and untaken one. */
  lemma {:induction false} TakeMatches(m: Service, s: StoreState, p: ProviderState, name: string)
    requires Coupled(m, s, p) && LiveId(m, name).Some?
    ensures name in s.jobs
    ensures var id := LiveId(m, name).value;
            var job := s.jobs[name];
            && job == RecordOf(m, id)
            && (job.result != "" && !job.resultTaken <==> id in m.claimed && id !in m.taken)
            && (id in m.claimed ==>
                  Coupled(m.(taken := m.taken + {id}), Update(s, name, job.(resultTaken := true)), p))
  {
    var id := LiveId(m, name).value;
    LookupMatches(m, s, name);
    RecordResult(m, id);
    if id in m.claimed {
      CoupledTake(m, s, p, id);
    }
  }

  // ----- what the coupling says about the stores

  lemma {:induction false} SameOrder(s: StoreState, s': StoreState)
    requires Consistent(s) && Consistent(s') && s.nextJobId == s'.nextJobId && s.maxJobs == s'.maxJobs
    ensures s.order == s'.order && s.nextTick == s'.nextTick
  {
    hide ToDecimal;
  }

  /** A service has one representation: whatever leaves the service unchanged leaves every
      field of both stores unchanged. */
  lemma {:induction false} StoresDetermined(m: Service, s: StoreState, p: ProviderState,
      s': StoreState, p': ProviderState)
    requires Coupled(m, s, p) && Coupled(m, s', p')
    ensures s == s' && p == p'
  {
    SameOrder(s, s');
    hide ToDecimal, Consistent, RecordOf, LiveId, ReadyOf, PendingOf;
    forall id ensures (id in s.jobs <==> id in s'.jobs) && (id in s.jobs ==> s.jobs[id] == s'.jobs[id]) {
      LookupMatches(m, s, id);
      LookupMatches(m, s', id);
    }
    assert s.jobs == s'.jobs;
  }

  ghost predicate HasRequest(pending: seq<PendingRequest>, id: nat) {
    exists i | 0 <= i < |pending| :: pending[i].requestId == id
  }

  ghost predicate HasResult(ready: seq<ProviderResult>, id: nat) {
    exists i | 0 <= i < |ready| :: ready[i].requestId == id
  }

  /** Pending, ready and claimed numbers partition the numbers handed out; ready followed by
      pending is in ascending order. */
  lemma {:induction false} ProviderPartition(m: Service, s: StoreState, p: ProviderState, id: nat)
    requires Coupled(m, s, p)
    ensures HasRequest(p.pending, id) || HasResult(p.ready, id) || id in m.claimed <==> 1 <= id < p.nextRequestId
    ensures !(HasRequest(p.pending, id) && HasResult(p.ready, id))
    ensures id in m.claimed ==> !HasRequest(p.pending, id) && !HasResult(p.ready, id)
    ensures forall i, j | 0 <= i < j < |p.ready| :: p.ready[i].requestId < p.ready[j].requestId
    ensures forall i, j | 0 <= i < j < |p.pending| :: p.pending[i].requestId < p.pending[j].requestId
    ensures forall i, j | 0 <= i < |p.ready| && 0 <= j < |p.pending| :: p.ready[i].requestId < p.pending[j].requestId
  {
    ReadyIds(m.jobs, m.polled, m.claimed);
    if 1 <= id <= m.polled && id !in m.claimed {
      ReadyHas(m.jobs, m.polled, m.claimed, id);
    }
    if m.polled < id <= |m.jobs| {
      assert p.pending[id - m.polled - 1].requestId == id;
    }
  }

  /** Every stored job: its id, creation tick and provider request are one number, it waits
      exactly while the provider holds that number, it is complete otherwise, exactly the
      complete ones have a result, and no other status occurs. */
  lemma {:induction false} StoredJobShape(m: Service, s: StoreState, p: ProviderState, name: string)
    requires Coupled(m, s, p) && name in s.jobs
    ensures var job := s.jobs[name];
            var held := HasRequest(p.pending, job.providerRequestId) || HasResult(p.ready, job.providerRequestId);
            && job.jobId == name == ToDecimal(job.createdTick)
            && job.providerRequestId == job.createdTick
            && (job.status == Waiting <==> held)
            && (job.status == Complete <==> !held)
            && (job.result != "" <==> job.status == Complete)
            && (job.resultTaken ==> job.status == Complete)
  {
    LookupMatches(m, s, name);
    ProviderPartition(m, s, p, LiveId(m, name).value);
  }
}
