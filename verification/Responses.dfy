/** The JSON bodies of responses. */
module Responses {
  import opened ByteOrder
  import opened Decimal
  import opened JsonValues
  import opened Jobs

  datatype Response = Response(status: nat, requestId: string, body: string)

  function Success(result: Json): Json {
    With(With(Obj([]), "ok", Bool(true)), "result", result)
  }

  function ErrorEnvelope(code: string, message: string, field: string, reason: string): Json {
    var details := With(With(Obj([]), "field", Str(field)), "reason", Str(reason));
    var error := With(With(With(Obj([]), "code", Str(code)), "details", details), "message", Str(message));
    With(With(Obj([]), "error", error), "ok", Bool(false))
  }

  function JobToJson(job: JobRecord): Json {
    var a := With(Obj([]), "createdTick", Num(job.createdTick));
    var b := With(a, "jobId", Str(job.jobId));
    var c := With(b, "modelId", Str(job.modelId));
    var d := With(c, "requestId", Str(FormatRequestId(job.providerRequestId)));
    var e := With(d, "requestType", Str(job.requestType));
    var f := With(e, "status", Str(StatusName(job.status)));
    var g := With(f, "templateId", Str(job.templateId));
    With(g, "toolId", Str(job.toolId))
  }

  function JobsToJson(jobs: seq<JobRecord>): (items: seq<Json>)
    ensures |items| == |jobs| && forall i | 0 <= i < |jobs| :: items[i] == JobToJson(jobs[i])
  {
    seq(|jobs|, i requires 0 <= i < |jobs| => JobToJson(jobs[i]))
  }

  // ----- how the server builds them

  method MakeErrorEnvelope(code: string, message: string, field: string, reason: string) returns (body: JsonValue)
    ensures body.Valid() && body.Contents() == ErrorEnvelope(code, message, field, reason)
  {
    hide With;
    var details := JsonValue.Object();
    details.SetString("field", field);
    details.SetString("reason", reason);
    var error := JsonValue.Object();
    error.SetString("code", code);
    error.Set("details", details.Contents());
    error.SetString("message", message);
    body := JsonValue.Object();
    body.Set("error", error.Contents());
    body.SetBool("ok", false);
  }

  method MakeSuccess(result: JsonValue) returns (body: JsonValue)
    ensures body.Valid() && body.Contents() == Success(result.Contents())
  {
    hide With;
    body := JsonValue.Object();
    body.SetBool("ok", true);
    body.Set("result", result.Contents());
  }

  method MakeJob(job: JobRecord) returns (out: JsonValue)
    ensures fresh(out) && out.Valid() && out.Contents() == JobToJson(job)
  {
    hide With, FormatRequestId, StatusName;
    out := JsonValue.Object();
    out.SetNumber("createdTick", job.createdTick);
    out.SetString("jobId", job.jobId);
    out.SetString("modelId", job.modelId);
    out.SetString("requestId", FormatRequestId(job.providerRequestId));
    out.SetString("requestType", job.requestType);
    out.SetString("status", StatusName(job.status));
    out.SetString("templateId", job.templateId);
    out.SetString("toolId", job.toolId);
  }

  method MakeItems(jobs: seq<JobRecord>) returns (items: JsonValue)
    ensures items.Valid() && items.Contents() == Arr(JobsToJson(jobs))
  {
    hide JobToJson;
    items := JsonValue.Array();
    for i := 0 to |jobs|
      invariant fresh(items) && items.Valid() && items.Contents() == Arr(JobsToJson(jobs[..i]))
    {
      var job := MakeJob(jobs[i]);
      items.Push(job.Contents());
      assert JobsToJson(jobs[..i + 1]) == JobsToJson(jobs[..i]) + [JobToJson(jobs[i])];
    }
    assert jobs[..|jobs|] == jobs;
  }

  // ----- the bodies, spelled out

  lemma {:induction false} WithLast(ms: seq<Member>, key: string, value: Json)
    requires Sorted(ms) && (ms == [] || Less(ms[|ms| - 1].key, key))
    ensures With(Obj(ms), key, value) == Obj(ms + [Member(key, value)])
    ensures Sorted(ms + [Member(key, value)])
  {
    forall i | 0 <= i < |ms| ensures Less(ms[i].key, key) {
      if i < |ms| - 1 {
        LessTransitive(ms[i].key, ms[|ms| - 1].key, key);
      }
    }
    AssignLast(ms, key, value);
  }

  lemma {:induction false} FieldOrder()
    ensures Less("createdTick", "jobId") && Less("jobId", "modelId") && Less("modelId", "requestId")
    ensures Less("requestId", "requestType") && Less("requestType", "status")
    ensures Less("status", "templateId") && Less("templateId", "toolId")
  {
  }

  function JobFields(job: JobRecord): seq<Member> {
    [ Member("createdTick", Num(job.createdTick)),
      Member("jobId", Str(job.jobId)),
      Member("modelId", Str(job.modelId)),
      Member("requestId", Str(FormatRequestId(job.providerRequestId))),
      Member("requestType", Str(job.requestType)),
      Member("status", Str(StatusName(job.status))),
      Member("templateId", Str(job.templateId)),
      Member("toolId", Str(job.toolId))]
  }

  /** The first k members, set one after the other. */
  function Built(ms: seq<Member>, k: nat): Json
    requires k <= |ms|
  {
    if k == 0 then Obj([]) else With(Built(ms, k - 1), ms[k - 1].key, ms[k - 1].value)
  }

  lemma {:induction false} BuiltInOrder(ms: seq<Member>, k: nat)
    requires k <= |ms| && forall i | 0 < i < |ms| :: Less(ms[i - 1].key, ms[i].key)
    ensures Built(ms, k) == Obj(ms[..k]) && Sorted(ms[..k])
  {
    if k > 0 {
      BuiltInOrder(ms, k - 1);
      hide With, Less;
      WithLast(ms[..k - 1], ms[k - 1].key, ms[k - 1].value);
      assert ms[..k - 1] + [Member(ms[k - 1].key, ms[k - 1].value)] == ms[..k];
    }
  }

  lemma {:induction false} JobIsBuilt(job: JobRecord)
    ensures |JobFields(job)| == 8 && JobToJson(job) == Built(JobFields(job), 8)
  {
    var ms := JobFields(job);
    hide With, FormatRequestId, StatusName;
    assert Built(ms, 0) == Obj([]);
    BuiltStep(ms, 1);
    BuiltStep(ms, 2);
    BuiltStep(ms, 3);
    BuiltStep(ms, 4);
    BuiltStep(ms, 5);
    BuiltStep(ms, 6);
    BuiltStep(ms, 7);
    BuiltStep(ms, 8);
  }

  lemma {:induction false} BuiltStep(ms: seq<Member>, k: nat)
    requires 0 < k <= |ms|
    ensures Built(ms, k) == With(Built(ms, k - 1), ms[k - 1].key, ms[k - 1].value)
  {
  }

  lemma {:induction false} JobFieldsInOrder(job: JobRecord)
    ensures forall i | 0 < i < |JobFields(job)| :: Less(JobFields(job)[i - 1].key, JobFields(job)[i].key)
    ensures forall i | 0 <= i < |JobFields(job)| ::
              JobFields(job)[i].value.Num? || JobFields(job)[i].value.Str?
  {
    FieldOrder();
    hide Less, FormatRequestId, StatusName;
  }

  /** A job's eight fields in their printed order. */
  lemma {:induction false} JobToJsonMembers(job: JobRecord)
    ensures JobToJson(job) == Obj(JobFields(job))
    ensures Ordered(JobToJson(job))
  {
    hide *;
    var ms := JobFields(job);
    JobIsBuilt(job);
    JobFieldsInOrder(job);
    BuiltInOrder(ms, 8);
    assert ms[..8] == ms;
    ScalarFieldsOrdered(ms);
  }

  lemma {:induction false} ScalarFieldsOrdered(ms: seq<Member>)
    requires Sorted(ms) && forall i | 0 <= i < |ms| :: ms[i].value.Num? || ms[i].value.Str?
    ensures Ordered(Obj(ms))
  {
  }

  lemma {:induction false} EnvelopeOrder()
    ensures Less("ok", "result") && Less("field", "reason") && Less("error", "ok")
    ensures Less("code", "details") && Less("details", "message")
  {
  }

  lemma {:induction false} PairOf(a: Member, b: Member)
    requires Less(a.key, b.key)
    ensures With(With(Obj([]), a.key, a.value), b.key, b.value) == Obj([a, b])
  {
    WithLast([], a.key, a.value);
    assert [] + [Member(a.key, a.value)] == [a];
    WithLast([a], b.key, b.value);
    assert [a] + [Member(b.key, b.value)] == [a, b];
  }

  /** The success envelope of the contract. */
  lemma {:induction false} SuccessMembers(result: Json)
    ensures Success(result) == Obj([Member("ok", Bool(true)), Member("result", result)])
  {
    EnvelopeOrder();
    hide With, Less;
    PairOf(Member("ok", Bool(true)), Member("result", result));
  }

  /** The error envelope of the contract. */
  lemma {:induction false} ErrorMembers(code: string, message: string, field: string, reason: string)
    ensures ErrorEnvelope(code, message, field, reason) == Obj([
      Member("error", Obj([
        Member("code", Str(code)),
        Member("details", Obj([Member("field", Str(field)), Member("reason", Str(reason))])),
        Member("message", Str(message))])),
      Member("ok", Bool(false))])
  {
    var details := Obj([Member("field", Str(field)), Member("reason", Str(reason))]);
    var ms := [Member("code", Str(code)), Member("details", details), Member("message", Str(message))];
    EnvelopeOrder();
    hide With, Less;
    PairOf(Member("field", Str(field)), Member("reason", Str(reason)));
    PairOf(ms[0], ms[1]);
    WithLast([ms[0], ms[1]], "message", Str(message));
    assert [ms[0], ms[1]] + [ms[2]] == ms;
    PairOf(Member("error", Obj(ms)), Member("ok", Bool(false)));
  }
}
