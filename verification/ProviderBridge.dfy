/** ProviderBridge: the in-memory provider that answers submitted requests when polled. */
module Provider {
  import opened Decimal
  import opened JsonValues

  datatype Kind = Chat | Tool | Build

  function TypeName(kind: Kind): string {
    match kind
    case Chat => "chat"
    case Tool => "tool"
    case Build => "build"
  }

  datatype PendingRequest = PendingRequest(requestId: nat, kind: Kind, payload: string)
  datatype ProviderResult = ProviderResult(requestId: nat, contentType: string, payload: string)

  /** The reply text, as the bridge assembles it from pieces. */
  function ResultPayload(requestId: nat, kind: Kind): string {
    "{\"requestId\":" + ToDecimal(requestId) + ",\"type\":\"" + TypeName(kind) + "\"}"
  }

  lemma {:induction false} PayloadText(id: string, name: string)
    ensures "{" + ("\"" + "requestId" + "\"" + ":" + id
                   + ("," + ("\"" + "type" + "\"" + ":" + ("\"" + name + "\"")))) + "}"
         == "{\"requestId\":" + id + ",\"type\":\"" + name + "\"}"
  {
  }

  lemma {:induction false} PlainPairText(key: string, n: nat, other: string, text: string)
    requires Escape(key) == key && Escape(other) == other && Escape(text) == text
    ensures Print(Obj([Member(key, Num(n)), Member(other, Str(text))]))
         == "{" + ("\"" + key + "\"" + ":" + ToDecimal(n)
                   + ("," + ("\"" + other + "\"" + ":" + ("\"" + text + "\"")))) + "}"
  {
    PairText([Member(key, Num(n)), Member(other, Str(text))]);
  }

  lemma {:induction false} PlainNames(kind: Kind)
    ensures Escape("requestId") == "requestId" && Escape("type") == "type" && Escape(TypeName(kind)) == TypeName(kind)
  {
    hide Escape;
    AlphabeticEscape("requestId");
    AlphabeticEscape("type");
    AlphabeticEscape(TypeName(kind));
  }

  /** The reply is the object it is meant to be. */
  lemma {:induction false} PayloadIsPrintedObject(requestId: nat, kind: Kind)
    ensures ResultPayload(requestId, kind)
         == Print(Obj([Member("requestId", Num(requestId)), Member("type", Str(TypeName(kind)))]))
  {
    PlainNames(kind);
    assert ResultPayload(requestId, kind)
        == "{\"requestId\":" + ToDecimal(requestId) + ",\"type\":\"" + TypeName(kind) + "\"}";
    hide *;
    PayloadText(ToDecimal(requestId), TypeName(kind));
    PlainPairText("requestId", requestId, "type", TypeName(kind));
  }

  lemma {:induction false} PairText(ms: seq<Member>)
    requires |ms| == 2
    ensures Print(Obj(ms)) == "{" + (PrintMember(ms[0]) + ("," + PrintMember(ms[1]))) + "}"
  {
    var tail := ms[1..];
    assert PrintMembers(tail[1..], false) == "";
    assert PrintMembers(tail, false) == "," + PrintMember(tail[0]);
    assert PrintMembers(ms, true) == PrintMember(ms[0]) + PrintMembers(tail, false);
  }

  function Answer(request: PendingRequest): ProviderResult {
    ProviderResult(request.requestId, "application/json", ResultPayload(request.requestId, request.kind))
  }

  function Answers(requests: seq<PendingRequest>): (r: seq<ProviderResult>)
    ensures |r| == |requests| && forall i | 0 <= i < |r| :: r[i] == Answer(requests[i])
  {
    seq(|requests|, i requires 0 <= i < |requests| => Answer(requests[i]))
  }

  /** The first result for a request, if any. */
  function ResultFor(ready: seq<ProviderResult>, requestId: nat): Option<ProviderResult> {
    if ready == [] then None
    else if ready[0].requestId == requestId then Some(ready[0])
    else ResultFor(ready[1..], requestId)
  }

  function Without(ready: seq<ProviderResult>, requestId: nat): seq<ProviderResult> {
    if ready == [] then []
    else if ready[0].requestId == requestId then ready[1..]
    else [ready[0]] + Without(ready[1..], requestId)
  }

  lemma {:induction false} FirstResult(ready: seq<ProviderResult>, requestId: nat, at: nat)
    requires at <= |ready| && forall i | 0 <= i < at :: ready[i].requestId != requestId
    requires at < |ready| ==> ready[at].requestId == requestId
    ensures ResultFor(ready, requestId) == if at < |ready| then Some(ready[at]) else None
    ensures Without(ready, requestId) == if at < |ready| then ready[..at] + ready[at + 1..] else ready
  {
    if at > 0 {
      FirstResult(ready[1..], requestId, at - 1);
    }
  }

  /** The fields of a bridge. */
  datatype ProviderState = ProviderState(nextRequestId: nat, pending: seq<PendingRequest>, ready: seq<ProviderResult>)

  function AfterSubmit(p: ProviderState, kind: Kind, payload: string): ProviderState {
    ProviderState(p.nextRequestId + 1, p.pending + [PendingRequest(p.nextRequestId, kind, payload)], p.ready)
  }

  function AfterPoll(p: ProviderState): ProviderState {
    ProviderState(p.nextRequestId, [], p.ready + Answers(p.pending))
  }

  function AfterTake(p: ProviderState, requestId: nat): ProviderState {
    p.(ready := Without(p.ready, requestId))
  }

  class ProviderBridge {
    var initialized: bool
    var nextRequestId: nat
    var pending: seq<PendingRequest>
    var ready: seq<ProviderResult>

    function State(): ProviderState
      reads this
    {
      ProviderState(nextRequestId, pending, ready)
    }

    constructor ()
      ensures State() == ProviderState(1, [], []) && !initialized
    {
      initialized, nextRequestId, pending, ready := false, 1, [], [];
    }

    method Initialize()
      modifies this`initialized
      ensures initialized
    {
      if initialized {
        return;
      }
      initialized := true;
    }

    method SubmitChat(payload: string) returns (requestId: nat)
      modifies this`nextRequestId, this`pending
      ensures State() == AfterSubmit(old(State()), Chat, payload) && requestId == old(nextRequestId)
    {
      pending := pending + [PendingRequest(nextRequestId, Chat, payload)];
      requestId := nextRequestId;
      nextRequestId := nextRequestId + 1;
    }

    method SubmitTool(payload: string) returns (requestId: nat)
      modifies this`nextRequestId, this`pending
      ensures State() == AfterSubmit(old(State()), Tool, payload) && requestId == old(nextRequestId)
    {
      pending := pending + [PendingRequest(nextRequestId, Tool, payload)];
      requestId := nextRequestId;
      nextRequestId := nextRequestId + 1;
    }

    method SubmitBuild(payload: string) returns (requestId: nat)
      modifies this`nextRequestId, this`pending
      ensures State() == AfterSubmit(old(State()), Build, payload) && requestId == old(nextRequestId)
    {
      pending := pending + [PendingRequest(nextRequestId, Build, payload)];
      requestId := nextRequestId;
      nextRequestId := nextRequestId + 1;
    }

    method Poll()
      modifies this`pending, this`ready
      ensures State() == AfterPoll(old(State()))
      ensures forall i | |old(ready)| <= i < |ready| :: ready[i].contentType == "application/json"
    {
      for i := 0 to |pending|
        invariant pending == old(pending)
        invariant ready == old(ready) + Answers(pending)[..i]
      {
        var request := pending[i];
        var result := ProviderResult(request.requestId, "application/json",
          "{\"requestId\":" + ToDecimal(request.requestId) + ",\"type\":\"" + TypeName(request.kind) + "\"}");
        ready := ready + [result];
      }
      assert Answers(pending)[..|pending|] == Answers(pending);
      pending := [];
    }

    method TakeResult(requestId: nat) returns (result: Option<ProviderResult>)
      modifies this`ready
      ensures result == ResultFor(old(ready), requestId)
      ensures State() == AfterTake(old(State()), requestId)
    {
      var it := 0;
      while it < |ready| && ready[it].requestId != requestId
        invariant it <= |ready| && forall i | 0 <= i < it :: ready[i].requestId != requestId
      {
        it := it + 1;
      }
      FirstResult(ready, requestId, it);
      if it == |ready| {
        return None;
      }
      result := Some(ready[it]);
      ready := ready[..it] + ready[it + 1..];
    }
  }
}
