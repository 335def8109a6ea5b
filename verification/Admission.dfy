/** The admission counters of AppState under request scopes that open and close in any
    interleaving. Each AppState call is one atomic step. */
module Admission {
  import opened Decimal

  datatype HostMetrics = HostMetrics(
    requestsTotal: nat, requestsInflight: nat, errorsTotal: nat, readyTransitionsTotal: nat, rejectedInflightTotal: nat)

  const NoRequests := HostMetrics(0, 0, 0, 0, 0)

  predicate Admits(m: HostMetrics, maxInflight: nat) {
    m.requestsInflight < maxInflight
  }

  /** The counters after OnRequestStart. */
  function Started(m: HostMetrics, maxInflight: nat): HostMetrics {
    if Admits(m, maxInflight)
    then m.(requestsTotal := m.requestsTotal + 1, requestsInflight := m.requestsInflight + 1)
    else m.(rejectedInflightTotal := m.rejectedInflightTotal + 1)
  }

  /** The counters after OnRequestEnd. */
  function Ended(m: HostMetrics, isError: bool, wasAccepted: bool): HostMetrics {
    m.(requestsInflight := if wasAccepted && m.requestsInflight > 0 then m.requestsInflight - 1 else m.requestsInflight,
       errorsTotal := if isError then m.errorsTotal + 1 else m.errorsTotal)
  }

  /** One RequestScope; checked says that EnsureAccepted has run. */
  datatype Scope = Scope(accepted: bool, checked: bool, isError: bool, open: bool)

  /** The atomic steps of handlers, each naming the scope it works for by opening order. */
  datatype Event =
    | Open
    | Check(i: nat)     // EnsureAccepted; a refused scope writes its error response
    | Fail(i: nat)      // WriteError in an accepted scope
    | Reply(i: nat)     // WriteJson in an accepted scope
    | Status(i: nat)    // the sequence number /status puts in its body
    | Close(i: nat)

  datatype Gate = Gate(
    maxInflight: nat, metrics: HostMetrics, scopes: seq<Scope>, nextSequence: nat, attached: seq<nat>)

  function NewGate(maxInflight: nat): Gate {
    Gate(maxInflight, NoRequests, [], 1, [])
  }

  /** A response takes the next sequence number for its X-Request-Id. */
  function Attach(g: Gate): Gate {
    g.(nextSequence := g.nextSequence + 1, attached := g.attached + [g.nextSequence])
  }

  /** Program order inside a handler: open, check, anything, close. */
  predicate Enabled(g: Gate, e: Event) {
    match e
    case Open => true
    case Check(i) => i < |g.scopes| && g.scopes[i].open && !g.scopes[i].checked
    case Close(i) => i < |g.scopes| && g.scopes[i].open && g.scopes[i].checked
    case _ => e.i < |g.scopes| && g.scopes[e.i].open && g.scopes[e.i].checked && g.scopes[e.i].accepted
  }

  function Step(g: Gate, e: Event): Gate
    requires Enabled(g, e)
  {
    match e
    case Open =>
      g.(metrics := Started(g.metrics, g.maxInflight),
         scopes := g.scopes + [Scope(Admits(g.metrics, g.maxInflight), false, false, true)])
    case Check(i) =>
      var s := g.scopes[i];
      var checked := g.(scopes := g.scopes[i := s.(checked := true, isError := s.isError || !s.accepted)]);
      if s.accepted then checked else Attach(checked)
    case Fail(i) => Attach(g.(scopes := g.scopes[i := g.scopes[i].(isError := true)]))
    case Reply(i) => Attach(g)
    case Status(i) => g.(nextSequence := g.nextSequence + 1)
    case Close(i) =>
      var s := g.scopes[i];
      g.(metrics := Ended(g.metrics, s.isError, s.accepted), scopes := g.scopes[i := s.(open := false)])
  }

  /** Any interleaving; an event that program order forbids does nothing. */
  function Run(g: Gate, events: seq<Event>): Gate {
    if events == [] then g
    else var before := Run(g, events[..|events| - 1]);
         var e := events[|events| - 1];
         if Enabled(before, e) then Step(before, e) else before
  }

  // ----- counting scopes

  function Count(scopes: seq<Scope>, p: Scope -> bool): nat {
    if scopes == [] then 0
    else Count(scopes[..|scopes| - 1], p) + if p(scopes[|scopes| - 1]) then 1 else 0
  }

  lemma {:induction false} CountUpdate(scopes: seq<Scope>, p: Scope -> bool, i: nat, s: Scope)
    requires i < |scopes|
    ensures Count(scopes[i := s], p) + (if p(scopes[i]) then 1 else 0) == Count(scopes, p) + (if p(s) then 1 else 0)
  {
    var n := |scopes| - 1;
    if i == n {
      assert scopes[i := s][..n] == scopes[..n];
    } else {
      assert scopes[i := s][..n] == scopes[..n][i := s];
      CountUpdate(scopes[..n], p, i, s);
    }
  }

  lemma {:induction false} CountSplit(scopes: seq<Scope>)
    ensures Count(scopes, IsAccepted) + Count(scopes, IsRejected) == |scopes|
    ensures Count(scopes, IsAccepted) == Count(scopes, IsInflight) + Count(scopes, IsAcceptedClosed)
  {
    if scopes != [] {
      CountSplit(scopes[..|scopes| - 1]);
    }
  }

  lemma {:induction false} CountPositive(scopes: seq<Scope>, p: Scope -> bool, i: nat)
    requires i < |scopes| && p(scopes[i])
    ensures Count(scopes, p) > 0
  {
    if i < |scopes| - 1 {
      CountPositive(scopes[..|scopes| - 1], p, i);
    }
  }

  predicate IsAccepted(s: Scope) { s.accepted }
  predicate IsRejected(s: Scope) { !s.accepted }
  predicate IsInflight(s: Scope) { s.accepted && s.open }
  predicate IsAcceptedClosed(s: Scope) { s.accepted && !s.open }
  predicate IsClosedError(s: Scope) { s.isError && !s.open }

  // ----- what every interleaving keeps

  ghost predicate Accounted(g: Gate) {
    && g.metrics.requestsInflight == Count(g.scopes, IsInflight)
    && g.metrics.requestsInflight <= g.maxInflight
    && g.metrics.requestsTotal == Count(g.scopes, IsAccepted)
    && g.metrics.rejectedInflightTotal == Count(g.scopes, IsRejected)
    && g.metrics.errorsTotal == Count(g.scopes, IsClosedError)
    && (forall i | 0 <= i < |g.scopes| :: (!g.scopes[i].open ==> g.scopes[i].checked)
                                       && (g.scopes[i].checked && !g.scopes[i].accepted ==> g.scopes[i].isError))
  }

  /** Sequence numbers on responses increase. */
  ghost predicate Increasing(g: Gate) {
    && (forall i, j | 0 <= i < j < |g.attached| :: g.attached[i] < g.attached[j])
    && (forall i | 0 <= i < |g.attached| :: g.attached[i] < g.nextSequence)
  }

  lemma {:induction false} OpenKeeps(g: Gate)
    requires Accounted(g)
    ensures Accounted(Step(g, Open))
  {
  }

  lemma {:induction false} UpdateKeeps(g: Gate, i: nat, s: Scope)
    requires i < |g.scopes|
    requires s.accepted == g.scopes[i].accepted
    ensures var scopes := g.scopes[i := s];
            && Count(scopes, IsAccepted) == Count(g.scopes, IsAccepted)
            && Count(scopes, IsRejected) == Count(g.scopes, IsRejected)
            && (s.open == g.scopes[i].open ==> Count(scopes, IsInflight) == Count(g.scopes, IsInflight))
            && (s.open == g.scopes[i].open && s.open ==> Count(scopes, IsClosedError) == Count(g.scopes, IsClosedError))
  {
    CountUpdate(g.scopes, IsAccepted, i, s);
    CountUpdate(g.scopes, IsRejected, i, s);
    CountUpdate(g.scopes, IsInflight, i, s);
    CountUpdate(g.scopes, IsClosedError, i, s);
  }

  /** In an accounted gate the guard in OnRequestEnd never suppresses a decrement. */
  lemma {:induction false} DecrementNeverSuppressed(g: Gate, i: nat)
    requires Accounted(g) && i < |g.scopes| && g.scopes[i].open && g.scopes[i].accepted
    ensures g.metrics.requestsInflight > 0
    ensures Ended(g.metrics, g.scopes[i].isError, true).requestsInflight == g.metrics.requestsInflight - 1
  {
    CountPositive(g.scopes, IsInflight, i);
  }

  lemma {:induction false} CloseKeeps(g: Gate, i: nat)
    requires Accounted(g) && Enabled(g, Close(i))
    ensures Accounted(Step(g, Close(i)))
  {
    var s := g.scopes[i].(open := false);
    UpdateKeeps(g, i, s);
    CountUpdate(g.scopes, IsInflight, i, s);
    CountUpdate(g.scopes, IsClosedError, i, s);
    if s.accepted {
      DecrementNeverSuppressed(g, i);
    }
  }

  lemma {:induction false} StepKeeps(g: Gate, e: Event)
    requires Accounted(g) && Enabled(g, e)
    ensures Accounted(Step(g, e))
  {
    match e
    case Open => OpenKeeps(g);
    case Check(i) =>
      var s := g.scopes[i];
      UpdateKeeps(g, i, s.(checked := true, isError := s.isError || !s.accepted));
    case Fail(i) => UpdateKeeps(g, i, g.scopes[i].(isError := true));
    case Reply(i) =>
    case Status(i) =>
    case Close(i) => CloseKeeps(g, i);
  }

  lemma {:induction false} RunKeeps(maxInflight: nat, events: seq<Event>)
    ensures var g := Run(NewGate(maxInflight), events);
            Accounted(g) && Increasing(g) && g.maxInflight == maxInflight
  {
    if events != [] {
      RunKeeps(maxInflight, events[..|events| - 1]);
      var before := Run(NewGate(maxInflight), events[..|events| - 1]);
      var e := events[|events| - 1];
      if Enabled(before, e) {
        StepKeeps(before, e);
      }
    }
  }

  /** Under every interleaving: requests_inflight is the number of open accepted scopes and
      within the limit, a scope opened next is accepted exactly when there is room,
      requests_total is the closed accepted scopes plus the inflight ones,
      every opening is counted once, errors_total counts the closed scopes marked as errors,
      and a rejected scope that is closed is one of them. */
  lemma {:induction false} CountersExact(maxInflight: nat, events: seq<Event>)
    ensures var g := Run(NewGate(maxInflight), events);
            && g.metrics.requestsInflight == Count(g.scopes, IsInflight) <= maxInflight
            && (Admits(g.metrics, maxInflight) <==> Count(g.scopes, IsInflight) < maxInflight)
            && g.metrics.requestsTotal == Count(g.scopes, IsAcceptedClosed) + g.metrics.requestsInflight
            && g.metrics.requestsTotal + g.metrics.rejectedInflightTotal == |g.scopes|
            && g.metrics.errorsTotal == Count(g.scopes, IsClosedError)
            && forall i | 0 <= i < |g.scopes| && IsRejected(g.scopes[i]) && !g.scopes[i].open ::
                 IsClosedError(g.scopes[i])
  {
    RunKeeps(maxInflight, events);
    CountSplit(Run(NewGate(maxInflight), events).scopes);
  }

  /** No two responses of a run carry the same X-Request-Id. */
  lemma {:induction false} RequestIdsDistinct(maxInflight: nat, events: seq<Event>, i: nat, j: nat)
    requires i < j < |Run(NewGate(maxInflight), events).attached|
    ensures var ids := Run(NewGate(maxInflight), events).attached;
            FormatRequestId(ids[i]) != FormatRequestId(ids[j])
  {
    RunKeeps(maxInflight, events);
    var ids := Run(NewGate(maxInflight), events).attached;
    RequestIdInjective(ids[i], ids[j]);
  }
}
