/** JobStore: the bounded job table, a queue of ids in creation order over a map of records. */
module Jobs {
  import opened Decimal

  datatype JobStatus = Queued | Running | Waiting | Complete | Failed

  function StatusName(status: JobStatus): string {
    match status
    case Queued => "QUEUED"
    case Running => "RUNNING"
    case Waiting => "WAITING"
    case Complete => "COMPLETE"
    case Failed => "FAILED"
  }

  datatype JobRecord = JobRecord(
    jobId: string, requestType: string, modelId: string, toolId: string, templateId: string,
    providerRequestId: nat, createdTick: nat, status: JobStatus, result: string, resultTaken: bool)

  /** The fields of a store. */
  datatype StoreState = StoreState(
    maxJobs: nat, nextJobId: nat, nextTick: nat, order: seq<string>, jobs: map<string, JobRecord>)

  /** The number of the oldest stored job. */
  function Oldest(s: StoreState): int {
    s.nextJobId - |s.order|
  }

  /** The queue names consecutive numbers up to the last one handed out, the map has exactly
      these keys, and each record carries its own number. */
  ghost predicate Block(s: StoreState) {
    && s.nextTick == s.nextJobId && Oldest(s) >= 1
    && (forall k | 0 <= k < |s.order| :: s.order[k] == ToDecimal(Oldest(s) + k))
    && (forall id :: id in s.jobs <==> id in s.order)
    && (forall k | 0 <= k < |s.order| ::
          s.jobs[s.order[k]].jobId == s.order[k] && s.jobs[s.order[k]].createdTick == Oldest(s) + k)
  }

  /** What holds between calls: a block of the last maxJobs numbers, or of all of them. */
  ghost predicate Consistent(s: StoreState) {
    && s.maxJobs >= 1 && Block(s)
    && |s.order| == if s.nextJobId - 1 < s.maxJobs then s.nextJobId - 1 else s.maxJobs
  }

  lemma {:induction false} StoredNumber(s: StoreState, id: nat)
    requires Consistent(s) && Oldest(s) <= id < s.nextJobId
    ensures s.order[id - Oldest(s)] == ToDecimal(id) && ToDecimal(id) in s.jobs
  {
  }

  lemma {:induction false} FoundIsNumber(s: StoreState, id: string)
    requires Consistent(s) && id in s.jobs
    ensures Canonical(id) && Oldest(s) <= DigitsValue(id) < s.nextJobId
  {
    var k :| 0 <= k < |s.order| && s.order[k] == id;
    DecimalIsCanonical(Oldest(s) + k);
    DecimalRoundTrip(Oldest(s) + k);
  }

  /** A string finds a record exactly when it is the canonical decimal of a stored number. */
  lemma {:induction false} LookupExact(s: StoreState, id: string)
    requires Consistent(s)
    ensures id in s.jobs <==> Canonical(id) && Oldest(s) <= DigitsValue(id) < s.nextJobId
  {
    hide Block;
    if id in s.jobs {
      FoundIsNumber(s, id);
    } else if Canonical(id) && Oldest(s) <= DigitsValue(id) < s.nextJobId {
      CanonicalRoundTrip(id);
      StoredNumber(s, DigitsValue(id));
    }
  }

  // ----- the calls, as functions of the fields

  /** Drops the k oldest jobs. */
  function DropOldest(s: StoreState, k: nat): StoreState
    requires k <= |s.order|
  {
    s.(order := s.order[k..], jobs := s.jobs - (set id | id in s.order[..k]))
  }

  function AfterEvict(s: StoreState): StoreState {
    if |s.order| > s.maxJobs then DropOldest(s, |s.order| - s.maxJobs) else s
  }

  function NewRecord(s: StoreState, requestType: string, modelId: string, toolId: string, templateId: string,
      providerRequestId: nat): JobRecord
  {
    JobRecord(ToDecimal(s.nextJobId), requestType, modelId, toolId, templateId,
              providerRequestId, s.nextTick, Queued, "", false)
  }

  function Appended(s: StoreState, record: JobRecord): StoreState {
    StoreState(s.maxJobs, s.nextJobId + 1, s.nextTick + 1, s.order + [record.jobId], s.jobs[record.jobId := record])
  }

  function AfterCreate(s: StoreState, record: JobRecord): StoreState {
    AfterEvict(Appended(s, record))
  }

  function Update(s: StoreState, id: string, record: JobRecord): StoreState {
    s.(jobs := s.jobs[id := record])
  }

  lemma {:induction false} AppendBlock(s: StoreState, record: JobRecord)
    requires Block(s) && record.jobId == ToDecimal(s.nextJobId) && record.createdTick == s.nextTick
    ensures record.jobId !in s.order
    ensures Block(Appended(s, record))
  {
    hide ToDecimal;
    NewIdIsNew(s);
    var t := Appended(s, record);
    forall k | 0 <= k < |t.order| ensures t.order[k] == ToDecimal(Oldest(t) + k) {
      assert t.order[k] == if k < |s.order| then s.order[k] else record.jobId;
    }
  }

  lemma {:induction false} NewIdIsNew(s: StoreState)
    requires Block(s)
    ensures ToDecimal(s.nextJobId) !in s.order
  {
    hide ToDecimal;
    forall k | 0 <= k < |s.order| ensures s.order[k] != ToDecimal(s.nextJobId) {
      DecimalInjective(Oldest(s) + k, s.nextJobId);
    }
  }

  lemma {:induction false} DropBlock(s: StoreState)
    requires Block(s) && s.order != []
    ensures Block(DropOldest(s, 1))
    ensures DropOldest(s, 1).jobs == s.jobs - {s.order[0]}
  {
    hide ToDecimal;
    var t := DropOldest(s, 1);
    DropKeys(s);
    forall k | 0 <= k < |t.order| ensures t.order[k] == s.order[k + 1] && t.jobs[t.order[k]] == s.jobs[s.order[k + 1]] {
      assert t.order[k] in t.order;
    }
    hide DropOldest;
  }

  lemma {:induction false} DropKeys(s: StoreState)
    requires Block(s) && s.order != []
    ensures var t := DropOldest(s, 1);
            t.jobs == s.jobs - {s.order[0]} && forall id :: id in t.jobs <==> id in t.order
  {
    hide ToDecimal;
    forall k | 0 < k < |s.order| ensures s.order[k] != s.order[0] {
      DecimalInjective(Oldest(s) + k, Oldest(s));
    }
    assert s.order == [s.order[0]] + s.order[1..] && s.order[..1] == [s.order[0]];
  }

  /** Creating a job keeps the store consistent, stores the new job, whatever the bound, and
      keeps the records that stay as they are. */
  lemma {:induction false} CreateConsistent(s: StoreState, record: JobRecord)
    requires Consistent(s)
    requires record.jobId == ToDecimal(s.nextJobId) && record.createdTick == s.nextTick
    ensures var t := AfterCreate(s, record);
            && Consistent(t) && t.nextJobId == s.nextJobId + 1 && t.maxJobs == s.maxJobs
            && record.jobId in t.jobs && t.jobs[record.jobId] == record
            && (forall id | id in t.jobs && id != record.jobId :: id in s.jobs && t.jobs[id] == s.jobs[id])
  {
    hide Block;
    AppendBlock(s, record);
    var all := Appended(s, record);
    if |all.order| > s.maxJobs {
      assert all.order[0] == s.order[0];
      DropBlock(all);
    }
  }

  /** Replacing a record by one with the same number keeps the store consistent. */
  lemma {:induction false} UpdateConsistent(s: StoreState, id: string, record: JobRecord)
    requires Consistent(s) && id in s.jobs
    requires record.jobId == s.jobs[id].jobId && record.createdTick == s.jobs[id].createdTick
    ensures Consistent(Update(s, id, record))
  {
  }

  // ----- listing

  function RecentCount(s: StoreState, limit: nat): nat {
    if limit < |s.order| then limit else |s.order|
  }

  /** The newest min(limit, stored) records, newest first. */
  function Recent(s: StoreState, limit: nat): (r: seq<JobRecord>)
    requires Consistent(s)
    ensures |r| == RecentCount(s, limit)
    ensures forall k | 0 <= k < |r| :: r[k] == s.jobs[s.order[|s.order| - 1 - k]]
  {
    seq(RecentCount(s, limit), k requires 0 <= k < RecentCount(s, limit) => s.jobs[s.order[|s.order| - 1 - k]])
  }

  /** A listing runs through consecutive creation ticks downwards from the newest, and a
      smaller limit lists a prefix of it. */
  lemma {:induction false} RecentIsNewestFirst(s: StoreState, limit: nat, smaller: nat)
    requires Consistent(s) && smaller <= limit
    ensures var r := Recent(s, limit);
            && (forall k | 0 <= k < |r| ::
                  r[k].createdTick == s.nextTick - 1 - k && r[k].jobId == ToDecimal(s.nextTick - 1 - k))
            && Recent(s, smaller) <= r
  {
  }

  class JobStore {
    const maxJobs: nat
    var nextJobId: nat
    var nextTick: nat
    var order: seq<string>
    var jobs: map<string, JobRecord>

    function State(): StoreState
      reads this
    {
      StoreState(maxJobs, nextJobId, nextTick, order, jobs)
    }

    ghost predicate Valid()
      reads this
    {
      Consistent(State())
    }

    constructor (maxJobs: nat)
      ensures Valid()
      ensures State() == StoreState(if maxJobs == 0 then 1 else maxJobs, 1, 1, [], map[])
    {
      this.maxJobs := if maxJobs == 0 then 1 else maxJobs;
      nextJobId, nextTick, order, jobs := 1, 1, [], map[];
    }

    method Create(requestType: string, modelId: string, toolId: string, templateId: string, providerRequestId: nat)
      returns (record: JobRecord)
      requires Valid()
      modifies this
      ensures record == NewRecord(old(State()), requestType, modelId, toolId, templateId, providerRequestId)
      ensures State() == AfterCreate(old(State()), record)
      ensures Valid() && record.jobId in jobs && jobs[record.jobId] == record
    {
      record := JobRecord(ToDecimal(nextJobId), requestType, modelId, toolId, templateId,
                          providerRequestId, nextTick, Queued, "", false);
      hide Block;
      ghost var before := State();
      CreateConsistent(before, record);
      nextJobId := nextJobId + 1;
      nextTick := nextTick + 1;
      order := order + [record.jobId];
      jobs := jobs[record.jobId := record];
      assert State() == Appended(before, record);
      EvictIfNeeded();
    }

    method EvictIfNeeded()
      modifies this`order, this`jobs
      ensures State() == AfterEvict(old(State()))
    {
      ghost var dropped := 0;
      while |order| > maxJobs
        invariant dropped <= |old(order)| && State() == DropOldest(old(State()), dropped)
        invariant dropped == 0 || |order| >= maxJobs
      {
        var oldest := order[0];
        order := order[1..];
        jobs := jobs - {oldest};
        assert old(order)[..dropped + 1] == old(order)[..dropped] + [oldest];
        dropped := dropped + 1;
      }
    }

    method UpdateStatus(id: string, status: JobStatus) returns (found: bool)
      requires Valid()
      modifies this`jobs
      ensures Valid() && found == (id in old(jobs))
      ensures State() == if found then Update(old(State()), id, old(jobs)[id].(status := status)) else old(State())
    {
      if id !in jobs {
        return false;
      }
      UpdateConsistent(State(), id, jobs[id].(status := status));
      jobs := jobs[id := jobs[id].(status := status)];
      return true;
    }

    method SetResult(id: string, result: string, failed: bool) returns (found: bool)
      requires Valid()
      modifies this`jobs
      ensures Valid() && found == (id in old(jobs))
      ensures State() == if found
                         then Update(old(State()), id,
                                     old(jobs)[id].(result := result, status := if failed then Failed else Complete))
                         else old(State())
    {
      if id !in jobs {
        return false;
      }
      var record := jobs[id].(result := result);
      record := record.(status := if failed then Failed else Complete);
      UpdateConsistent(State(), id, record);
      jobs := jobs[id := record];
      return true;
    }

    function Get(id: string): Option<JobRecord>
      reads this
    {
      if id in jobs then Some(jobs[id]) else None
    }

    /** Hands the record out as it was before it is marked as taken. */
    method TakeResult(id: string) returns (taken: Option<JobRecord>)
      requires Valid()
      modifies this`jobs
      ensures Valid()
      ensures taken == if id in old(jobs) && old(jobs)[id].result != "" && !old(jobs)[id].resultTaken
                       then Some(old(jobs)[id]) else None
      ensures State() == if taken.Some?
                         then Update(old(State()), id, taken.value.(resultTaken := true))
                         else old(State())
    {
      if id !in jobs || jobs[id].result == "" || jobs[id].resultTaken {
        return None;
      }
      taken := Some(jobs[id]);
      UpdateConsistent(State(), id, jobs[id].(resultTaken := true));
      jobs := jobs[id := jobs[id].(resultTaken := true)];
    }

    method ListRecent(limit: nat) returns (out: seq<JobRecord>)
      requires Valid()
      ensures out == Recent(State(), limit)
    {
      out := [];
      var cappedLimit := if limit < |order| then limit else |order|;
      var it := |order|;
      while it > 0 && |out| < cappedLimit
        invariant 0 <= it <= |order| && |out| == |order| - it <= cappedLimit
        invariant out == Recent(State(), limit)[..|out|]
      {
        it := it - 1;
        if order[it] in jobs {
          out := out + [jobs[order[it]]];
        }
      }
    }
  }
}
