/** The reference in-memory storage engine of ramengine.go, and the
    `EngineState` record of gosession.go that it holds.

    Value receivers. Every `RamEngine` method in the Go source has a value
    receiver, so it runs on a copy of the struct. Writes INTO the maps
    (`CreateSession`, `WriteKey`, `delete`) reach the shared maps, but the
    field assignments in `Init`, `Close` and `DestroyAllSessions` change only
    the copy and are lost, and `GetEngineStatePointer` returns a pointer into
    the copy, so flags written through it are lost too. This class models the
    documented intent instead: one stable `EngineState` (the const field `es`,
    which is what `GetEngineStatePointer` hands out) and a `sessions` field
    that every method, including the three that reassign it, updates. The
    behaviour as written is modelled separately in module AsWritten.

    Nil map. A zero `RamEngine` holds a nil session map, and `Close` makes it
    nil again. Reading a nil map gives nothing, deleting from it is a no-op,
    but writing into it panics. The field `hasMap` is false exactly while
    the Go map is nil, and `CreateSession` requires it. */
module Ram {
  import opened Values
  import opened SessionStore
  import opened Lifecycle

  /** The shared lifecycle flags, updated in place through a pointer. */
  class EngineState {
    var initialised: bool
    var closed: bool

    constructor ()
      ensures !initialised && !closed
    {
      initialised, closed := false, false;
    }
  }

  class RamEngine {
    var sessions: Sessions
    /** False while the Go map is nil: before `Init` and after `Close`. */
    var hasMap: bool
    const es: EngineState
    /** How many times the engine's own `Init` has run. */
    ghost var initAttempts: nat

    /** The invariant the session layer keeps: the engine's `Init` has run
        exactly when `initialised` is up, so at most once; a nil map holds no
        sessions; and an initialised engine that is not closed has its map. */
    ghost predicate Valid()
      reads this, es
    {
      && initAttempts == (if es.initialised then 1 else 0)
      && (!hasMap ==> sessions == map[])
      && (es.initialised && !es.closed ==> hasMap)
    }

    function StateFlags(): Flags
      reads es
    {
      Flags(es.initialised, es.closed)
    }

    /** The zero `RamEngine`: a nil map and both flags down. */
    constructor ()
      ensures Valid() && fresh(es)
      ensures !hasMap && sessions == map[] && StateFlags() == Fresh
    {
      sessions, hasMap := map[], false;
      es := new EngineState();
      initAttempts := 0;
    }

    /** Allocates an empty store; never fails. */
    method Init() returns (err: Option<Error>)
      modifies this`sessions, this`hasMap, this`initAttempts
      ensures err == None
      ensures hasMap && sessions == map[]
      ensures initAttempts == old(initAttempts) + 1
    {
      sessions, hasMap := map[], true;
      initAttempts := initAttempts + 1;
      err := None;
    }

    /** Releases the store: the map becomes nil, so no session exists and
        `CreateSession` is no longer allowed. */
    method Close()
      modifies this`sessions, this`hasMap
      ensures !hasMap && sessions == map[]
      ensures forall id :: !SessionExists(id)
    {
      sessions, hasMap := map[], false;
    }

    function SessionExists(id: string): (b: bool)
      reads this
      ensures b <==> id in sessions
      ensures !b ==> forall key :: ReadKey(id, key) == Nil
    {
      id in sessions
    }

    /** The stored value, or nil when the session or the key is missing. */
    function ReadKey(id: string, key: string): (v: Value)
      reads this
      ensures id !in sessions || key !in sessions[id] ==> v == Nil
      ensures id in sessions && key in sessions[id] ==> v == sessions[id][key]
    {
      Lookup(sessions, id, key)
    }

    /** Overwrites any previous contents of `id`. Writing into a nil map
        panics in Go, so the map must be allocated. */
    method CreateSession(id: string)
      requires hasMap
      modifies this`sessions
      ensures sessions == Created(old(sessions), id)
    {
      sessions := sessions[id := map[]];
    }

    method DestroySession(id: string)
      modifies this`sessions
      ensures sessions == Destroyed(old(sessions), id)
    {
      sessions := sessions - {id};
    }

    method DestroyAllSessions()
      modifies this`sessions, this`hasMap
      ensures forall id :: !SessionExists(id)
      ensures hasMap && sessions == map[]
    {
      sessions, hasMap := map[], true;
    }

    /** Writing into a missing session is a nil-map write, which panics in
        Go: the caller must name an existing session. */
    method WriteKey(id: string, key: string, v: Value)
      requires SessionExists(id)
      modifies this`sessions
      ensures sessions == Written(old(sessions), id, key, v)
    {
      sessions := sessions[id := sessions[id][key := v]];
    }

    /** Deleting from a missing session is a delete on a nil map: a no-op. */
    method DeleteKey(id: string, key: string)
      modifies this`sessions
      ensures sessions == Deleted(old(sessions), id, key)
    {
      if id in sessions {
        sessions := sessions[id := sessions[id] - {key}];
      }
    }
  }
}
