/** The engine lifecycle of gosession.go (`Init`, `CloseEngine`) as a state
    machine over the two flags of `EngineState`, for an arbitrary storage
    engine whose own `Init` result is a parameter. */
module Lifecycle {
  import opened Values

  /** The errors the session layer reports: the closed-engine error of
      `Init`, and whatever the engine's own `Init` returns. */
  datatype Error = Closed | EngineInit(reason: string)

  /** The `initialised` and `closed` flags of `EngineState`. */
  datatype Flags = Flags(initialised: bool, closed: bool)

  const Fresh := Flags(false, false)

  /** The flags after one `Init` call, what it returns, and whether it called
      the engine's own `Init`. */
  datatype InitOutcome = InitOutcome(flags: Flags, err: Option<Error>, attempted: bool)

  /** One `Init` call: refused when closed, a no-op once initialised, and
      otherwise the flag is raised BEFORE the engine's `Init` runs, so the
      flag stays up even when that call fails. */
  function InitStep(f: Flags, engineResult: Option<Error>): (o: InitOutcome)
    ensures o.attempted <==> !f.initialised && !f.closed
    ensures o.flags.closed == f.closed
    ensures o.flags.initialised <==> f.initialised || !f.closed
    ensures o.err == (if f.closed then Some(Closed) else if o.attempted then engineResult else None)
  {
    if f.closed then InitOutcome(f, Some(Closed), false)
    else if f.initialised then InitOutcome(f, None, false)
    else InitOutcome(f.(initialised := true), engineResult, true)
  }

  /** `CloseEngine` raises `closed` unconditionally. */
  function CloseStep(f: Flags): (g: Flags)
    ensures g.closed && g.initialised == f.initialised
  {
    f.(closed := true)
  }

  /** A sequence of lifecycle calls; `CallInit` carries what the engine's
      `Init` would return if it were called. */
  datatype Call = CallInit(engineResult: Option<Error>) | CallClose

  /** The final flags, how many times the engine's `Init` ran, and the
      result of every `Init` call in order. */
  datatype Trace = Trace(flags: Flags, attempts: nat, results: seq<Option<Error>>)

  function Run(f: Flags, calls: seq<Call>): Trace
    decreases calls
  {
    if calls == [] then Trace(f, 0, [])
    else match calls[0]
      case CallClose => Run(CloseStep(f), calls[1..])
      case CallInit(e) =>
        var o := InitStep(f, e);
        var t := Run(o.flags, calls[1..]);
        Trace(t.flags, t.attempts + (if o.attempted then 1 else 0), [o.err] + t.results)
  }

  function InitCalls(calls: seq<Call>): nat
  {
    if calls == [] then 0 else (if calls[0].CallInit? then 1 else 0) + InitCalls(calls[1..])
  }

  /** Every `Init` call yields exactly one result. */
  lemma {:induction false} ResultsPerInitCall(f: Flags, calls: seq<Call>)
    ensures |Run(f, calls).results| == InitCalls(calls)
    decreases calls
  {
    if calls != [] {
      match calls[0]
      case CallClose => ResultsPerInitCall(CloseStep(f), calls[1..]);
      case CallInit(e) => ResultsPerInitCall(InitStep(f, e).flags, calls[1..]);
    }
  }

  /** Running two call sequences one after the other. */
  lemma {:induction false} RunAppend(f: Flags, a: seq<Call>, b: seq<Call>)
    ensures var ta := Run(f, a); var tb := Run(ta.flags, b);
      Run(f, a + b) == Trace(tb.flags, ta.attempts + tb.attempts, ta.results + tb.results)
    decreases a
  {
    if a == [] {
      assert a + b == b;
    } else {
      assert (a + b)[0] == a[0] && (a + b)[1..] == a[1..] + b;
      match a[0]
      case CallClose => RunAppend(CloseStep(f), a[1..], b);
      case CallInit(e) => RunAppend(InitStep(f, e).flags, a[1..], b);
    }
  }

  /** Once closed, every later `Init` reports the closed error, never calls
      the engine's `Init`, and leaves both flags as they are. */
  lemma {:induction false} ClosedRejectsEveryInit(f: Flags, calls: seq<Call>)
    requires f.closed
    ensures Run(f, calls).flags == f
    ensures Run(f, calls).attempts == 0
    ensures forall j :: 0 <= j < |Run(f, calls).results| ==> Run(f, calls).results[j] == Some(Closed)
    decreases calls
  {
    if calls != [] {
      match calls[0]
      case CallClose => ClosedRejectsEveryInit(CloseStep(f), calls[1..]);
      case CallInit(e) => ClosedRejectsEveryInit(f, calls[1..]);
    }
  }

  /** Once initialised, the flag stays up, the engine's `Init` is never
      called again, and every `Init` returns nil or the closed error. */
  lemma {:induction false} InitialisedStaysInitialised(f: Flags, calls: seq<Call>)
    requires f.initialised
    ensures Run(f, calls).flags.initialised
    ensures Run(f, calls).attempts == 0
    ensures forall j :: 0 <= j < |Run(f, calls).results| ==>
      Run(f, calls).results[j] == None || Run(f, calls).results[j] == Some(Closed)
    decreases calls
  {
    if calls != [] {
      match calls[0]
      case CallClose => InitialisedStaysInitialised(CloseStep(f), calls[1..]);
      case CallInit(e) => InitialisedStaysInitialised(f, calls[1..]);
    }
  }

  /** Over any sequence of calls the engine's `Init` runs at most once, and
      not at all when the engine starts out initialised or closed. */
  lemma {:induction false} EngineInitAtMostOnce(f: Flags, calls: seq<Call>)
    ensures Run(f, calls).attempts <= if f.initialised || f.closed then 0 else 1
    decreases calls
  {
    if f.initialised {
      InitialisedStaysInitialised(f, calls);
    } else if f.closed {
      ClosedRejectsEveryInit(f, calls);
    } else if calls != [] {
      match calls[0]
      case CallClose => EngineInitAtMostOnce(CloseStep(f), calls[1..]);
      case CallInit(e) => InitialisedStaysInitialised(InitStep(f, e).flags, calls[1..]);
    }
  }

  /** On an initialised engine, the `Init` at position `i` returns exactly
      nil, or exactly the closed error when the engine started closed or a
      `CloseEngine` comes before it. */
  lemma {:induction false} InitialisedInitResult(f: Flags, calls: seq<Call>, i: nat)
    requires f.initialised
    requires i < |calls| && calls[i].CallInit?
    ensures InitCalls(calls[..i]) < |Run(f, calls).results|
    ensures Run(f, calls).results[InitCalls(calls[..i])] ==
      if f.closed || CallClose in calls[..i] then Some(Closed) else None
    decreases calls
  {
    if i > 0 {
      assert calls[..i][0] == calls[0] && calls[..i][1..] == calls[1..][..i - 1];
      assert CallClose in calls[..i] <==> calls[0] == CallClose || CallClose in calls[1..][..i - 1];
      match calls[0]
      case CallClose => InitialisedInitResult(CloseStep(f), calls[1..], i - 1);
      case CallInit(e) => InitialisedInitResult(f, calls[1..], i - 1);
    }
  }

  /** The first `Init` of a fresh engine returns what the engine's `Init`
      returned, failure included, and leaves `initialised` up; no later call
      runs the engine's `Init` again, and every later `Init` returns nil
      unless a `CloseEngine` came before it, when it returns the closed error. */
  lemma {:induction false} FirstInitIsTheOnlyAttempt(f: Flags, e: Option<Error>, calls: seq<Call>)
    requires !f.initialised && !f.closed
    ensures var t := Run(f, [CallInit(e)] + calls);
      && t.results[0] == e
      && t.flags.initialised
      && t.attempts == 1
      && forall j :: 1 <= j < |t.results| ==> t.results[j] == None || t.results[j] == Some(Closed)
    ensures var t := Run(f, [CallInit(e)] + calls);
      forall i :: 0 <= i < |calls| && calls[i].CallInit? ==>
        && 1 + InitCalls(calls[..i]) < |t.results|
        && t.results[1 + InitCalls(calls[..i])] == if CallClose in calls[..i] then Some(Closed) else None
  {
    assert ([CallInit(e)] + calls)[1..] == calls;
    var g := InitStep(f, e).flags;
    InitialisedStaysInitialised(g, calls);
    forall i | 0 <= i < |calls| && calls[i].CallInit?
      ensures 1 + InitCalls(calls[..i]) < |Run(f, [CallInit(e)] + calls).results|
      ensures Run(f, [CallInit(e)] + calls).results[1 + InitCalls(calls[..i])] ==
        if CallClose in calls[..i] then Some(Closed) else None
    {
      InitialisedInitResult(g, calls, i);
    }
  }

  /** After a `CloseEngine` at position `i`, every `Init` that comes later in
      the sequence returns the closed error. */
  lemma {:induction false} InitAfterCloseFails(f: Flags, calls: seq<Call>, i: nat)
    requires i < |calls| && calls[i] == CallClose
    ensures var t := Run(f, calls);
      forall j :: InitCalls(calls[..i]) <= j < |t.results| ==> t.results[j] == Some(Closed)
  {
    var before, rest := calls[..i], calls[i + 1..];
    assert calls == before + ([CallClose] + rest);
    RunAppend(f, before, [CallClose] + rest);
    var g := Run(f, before).flags;
    assert ([CallClose] + rest)[1..] == rest;
    ClosedRejectsEveryInit(CloseStep(g), rest);
    ResultsPerInitCall(f, before);
  }
}
