/** The in-memory engine as ramengine.go is written, with value receivers.
    The interface holds a `RamEngine` struct value; each method runs on a
    copy of it. Writes into the session map reach the shared map, but a
    reassignment of a field, and every write through the pointer that
    `GetEngineStatePointer` returns (it points into the copy), is lost when
    the method returns. */
module AsWritten {
  import opened Values
  import opened SessionStore
  import opened Lifecycle

  /** A `RamEngine` struct value: its session map (`hasMap` false when the
      field is the nil map, whose contents are then empty) and its
      `EngineState`, held by value. */
  datatype RamValue = RamValue(sessions: Sessions, hasMap: bool, es: Flags)

  /** The zero value of the struct, as `&gosession.RamEngine{}` builds it. */
  const ZeroEngine := RamValue(map[], false, Fresh)

  /** `Init` as written: the fresh map is assigned to the receiver's copy and
      lost on return, so the caller's engine is unchanged, and nil is returned. */
  function InitAsWritten(re: RamValue): (out: (RamValue, Option<Error>))
    ensures out.0.hasMap == re.hasMap && out.0.sessions == re.sessions
    ensures out.1 == None
  {
    (re, None)
  }

  /** `Close` as written: the nil assignment is lost, the sessions stay. */
  function CloseAsWritten(re: RamValue): (after: RamValue)
    ensures after.hasMap == re.hasMap && after.sessions == re.sessions
  {
    re
  }

  /** `CreateSession` as written: a write into a nil map panics (`None`);
      otherwise the new session reaches the shared map. */
  function CreateSessionAsWritten(re: RamValue, id: string): (r: Option<RamValue>)
    ensures r == None <==> !re.hasMap
    ensures r.Some? ==> r.value.sessions == Created(re.sessions, id)
  {
    if re.hasMap then Some(re.(sessions := Created(re.sessions, id))) else None
  }

  /** As written, a zero engine still holds the nil map after `Init`, so the
      first `CreateSession` panics; the intended `Init` allocates the map and
      the same call succeeds. */
  lemma ZeroEngineInitLeavesNilMapAsWritten(id: string)
    ensures !InitAsWritten(ZeroEngine).0.hasMap
    ensures CreateSessionAsWritten(InitAsWritten(ZeroEngine).0, id) == None
    ensures CreateSessionAsWritten(ZeroEngine.(hasMap := true), id).Some?
  {
  }

  /** `DestroyAllSessions` as written: the fresh map is assigned to the
      field of the receiver's copy, and that assignment is lost on return, so
      the caller's engine keeps its sessions. */
  function DestroyAllSessionsAsWritten(re: RamValue): (after: RamValue)
    ensures after.sessions.Keys == re.sessions.Keys
  {
    re
  }

  /** A session survives `DestroyAllSessions` as written. */
  lemma DestroyAllSessionsAsWrittenKeepsSessions(re: RamValue, id: string)
    requires id in re.sessions
    ensures id in DestroyAllSessionsAsWritten(re).sessions
  {
  }

  /** Lifecycle calls as written: each `Init` and `CloseEngine` reads and
      writes the flags of a fresh copy of the struct, so every call sees the
      engine's original flags and no flag write survives. */
  function RunAsWritten(re: RamValue, calls: seq<Call>): (t: Trace)
    ensures t.flags == re.es
    ensures |t.results| == InitCalls(calls)
    decreases calls
  {
    if calls == [] then Trace(re.es, 0, [])
    else match calls[0]
      case CallClose => RunAsWritten(re, calls[1..])
      case CallInit(e) =>
        var o := InitStep(re.es, e);
        var t := RunAsWritten(re, calls[1..]);
        Trace(t.flags, t.attempts + (if o.attempted then 1 else 0), [o.err] + t.results)
  }

  /** What the engine's own `Init` returns at each `Init` call. */
  function EngineResults(calls: seq<Call>): seq<Option<Error>>
    decreases calls
  {
    if calls == [] then []
    else if calls[0].CallInit? then [calls[0].engineResult] + EngineResults(calls[1..])
    else EngineResults(calls[1..])
  }

  /** On a fresh engine, as written, every `Init` calls the engine's `Init`
      again and returns its result, even after `CloseEngine`. */
  lemma {:induction false} EveryInitRunsAsWritten(re: RamValue, calls: seq<Call>)
    requires re.es == Fresh
    ensures RunAsWritten(re, calls).attempts == InitCalls(calls)
    ensures RunAsWritten(re, calls).results == EngineResults(calls)
    decreases calls
  {
    if calls != [] {
      EveryInitRunsAsWritten(re, calls[1..]);
    }
  }

  /** The concrete discrepancy: `CloseEngine` then `Init` on a fresh engine
      succeeds as written and runs the engine's `Init`, where the documented
      behaviour is the closed error with no call. */
  lemma CloseIsLostAsWritten(s: Sessions)
    ensures var calls := [CallClose, CallInit(None)];
      && RunAsWritten(RamValue(s, true, Fresh), calls) == Trace(Fresh, 1, [None])
      && Run(Fresh, calls) == Trace(Flags(false, true), 0, [Some(Closed)])
  {
  }
}
