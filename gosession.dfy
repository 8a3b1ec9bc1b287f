/** The session layer of gosession.go: the engine lifecycle (`Init`,
    `CloseEngine`), identifier generation, session creation and resolution
    from a request, and the `Session` handle, over the in-memory engine.
    Randomness is the `draws` parameter (successive results of
    `rand.Intn(59)`); the request is its list of cookies; the response
    cookie is reduced to the identifier it would carry. */
module Gosession {
  import opened Values
  import opened SessionStore
  import opened Lifecycle
  import opened Identity
  import opened Ram

  /** A handle bound to one identifier and one engine for its whole life. */
  class Session {
    const sessionID: string
    const ge: RamEngine

    constructor (sessionID: string, ge: RamEngine)
      ensures this.sessionID == sessionID && this.ge == ge
    {
      this.sessionID := sessionID;
      this.ge := ge;
    }

    method DestroySession()
      modifies ge`sessions
      ensures !ge.SessionExists(sessionID)
      ensures ge.sessions == Destroyed(old(ge.sessions), sessionID)
    {
      ge.DestroySession(sessionID);
    }

    /** Destroy, then create under the same identifier: the session exists
        again with every key reading nil, and no other session changes. The
        create step writes into the map, which panics when it is nil. */
    method ClearSession()
      requires ge.hasMap
      modifies ge`sessions
      ensures ge.SessionExists(sessionID)
      ensures forall key :: ge.ReadKey(sessionID, key) == Nil
      ensures ge.sessions - {sessionID} == old(ge.sessions) - {sessionID}
      ensures ge.sessions == Created(Destroyed(old(ge.sessions), sessionID), sessionID)
    {
      DestroySession();
      ge.CreateSession(sessionID);
    }

    function ReadKey(key: string): (v: Value)
      reads ge
      ensures !ge.SessionExists(sessionID) || key !in ge.sessions[sessionID] ==> v == Nil
      ensures ge.SessionExists(sessionID) && key in ge.sessions[sessionID] ==> v == ge.sessions[sessionID][key]
    {
      ge.ReadKey(sessionID, key)
    }

    /** The stored value, with `valueReturnedIfNil` in place of nil. */
    function ReadKeyAs(key: string, valueReturnedIfNil: Value): (v: Value)
      reads ge
      ensures ReadKey(key) == Nil ==> v == valueReturnedIfNil
      ensures ReadKey(key) != Nil ==> v == ReadKey(key)
      ensures v == Nil ==> valueReturnedIfNil == Nil
    {
      var raw := ge.ReadKey(sessionID, key);
      if raw == Nil then valueReturnedIfNil else raw
    }

    /** The stored string, or "" when nil. The Go type assertion panics on
        any other stored value; the caller must rule that out. */
    function ReadKeyAsString(key: string): (s: string)
      reads ge
      requires ReadKey(key).Nil? || ReadKey(key).Str?
      ensures ReadKey(key) == Nil ==> s == ""
      ensures ReadKey(key) == Str(s) || (ReadKey(key) == Nil && s == "")
    {
      ReadKeyAs(key, Str("")).s
    }

    method DeleteKey(key: string)
      modifies ge`sessions
      ensures ge.ReadKey(sessionID, key) == Nil
      ensures forall d :: ReadKeyAs(key, d) == d
      ensures ge.sessions == Deleted(old(ge.sessions), sessionID, key)
    {
      ge.DeleteKey(sessionID, key);
    }

    /** Writing needs the session to exist (the engine's nil-map write). */
    method WriteKey(key: string, value: Value)
      requires ge.SessionExists(sessionID)
      modifies ge`sessions
      ensures ge.ReadKey(sessionID, key) == value
      ensures ge.sessions == Written(old(ge.sessions), sessionID, key, value)
    {
      ge.WriteKey(sessionID, key, value);
    }
  }

  /** What loading a session gives: a handle, or the error of `Init`. */
  datatype LoadResult = Loaded(session: Session) | Failed(error: Error)

  /** `Init` of gosession.go over the in-memory engine, whose own `Init`
      always succeeds: it follows `InitStep` with that result. */
  method Init(ge: RamEngine) returns (err: Option<Error>)
    requires ge.Valid()
    modifies ge.es, ge`sessions, ge`hasMap, ge`initAttempts
    ensures ge.Valid()
    ensures var out := InitStep(old(ge.StateFlags()), None);
      && ge.StateFlags() == out.flags
      && err == out.err
      && ge.initAttempts == old(ge.initAttempts) + (if out.attempted then 1 else 0)
      && ge.hasMap == (out.attempted || old(ge.hasMap))
      && ge.sessions == if out.attempted then map[] else old(ge.sessions)
  {
    var es := ge.es;
    if es.closed {
      return Some(Closed);
    }
    if es.initialised {
      return None;
    }
    es.initialised := true;
    err := ge.Init();
  }

  /** Closes the engine, then raises `closed` whatever its previous value. */
  method CloseEngine(ge: RamEngine)
    requires ge.Valid()
    modifies ge.es, ge`sessions, ge`hasMap
    ensures ge.Valid()
    ensures ge.StateFlags() == CloseStep(old(ge.StateFlags()))
    ensures !ge.hasMap && ge.sessions == map[]
  {
    ge.Close();
    ge.es.closed := true;
  }

  method DestroyAllSessions(ge: RamEngine)
    modifies ge`sessions, ge`hasMap
    ensures forall id :: !ge.SessionExists(id)
    ensures ge.hasMap && ge.sessions == map[]
    ensures old(ge.Valid()) ==> ge.Valid()
  {
    ge.DestroyAllSessions();
  }

  /** Draws candidate identifiers until one is not a session of the engine,
      asking the engine only `SessionExists`. It returns the first such
      candidate and the attempt that produced it; every earlier candidate
      was an existing session. */
  method GenerateHashForSession(ge: RamEngine, draws: seq<Draw>) returns (hash: string, attempt: nat)
    requires FreshCandidateExists(draws, ge.sessions)
    ensures SessionIdLength * (attempt + 1) <= |draws| && hash == Candidate(draws, attempt)
    ensures IsSessionId(hash)
    ensures !ge.SessionExists(hash)
    ensures forall j: nat :: j < attempt ==> ge.SessionExists(Candidate(draws, j))
  {
    ghost var target: nat :| SessionIdLength * (target + 1) <= |draws| && Candidate(draws, target) !in ge.sessions;
    hash, attempt := "", 0;
    var pos := 0;
    while true
      invariant pos == SessionIdLength * attempt && attempt <= target
      invariant forall j: nat :: j < attempt ==> ge.SessionExists(Candidate(draws, j))
      decreases target - attempt
    {
      hash := "";
      for i := 0 to SessionIdLength
        invariant |hash| == i
        invariant forall j :: 0 <= j < i ==> hash[j] == CharOf(draws[pos + j])
      {
        hash := hash + [CharOf(draws[pos + i])];
      }
      assert hash == Candidate(draws, attempt);
      if ge.SessionExists(hash) {
        attempt, pos := attempt + 1, pos + SessionIdLength;
      } else {
        break;
      }
    }
  }

  /** Adds exactly one session, under an identifier that did not exist, and
      returns a handle bound to it together with the identifier. */
  method NewSession(ge: RamEngine, draws: seq<Draw>) returns (session: Session, sessionID: string)
    requires ge.hasMap
    requires FreshCandidateExists(draws, ge.sessions)
    modifies ge`sessions
    ensures fresh(session) && session.ge == ge && session.sessionID == sessionID
    ensures IsSessionId(sessionID) && sessionID !in old(ge.sessions)
    ensures ge.sessions == Created(old(ge.sessions), sessionID)
    ensures |ge.sessions| == |old(ge.sessions)| + 1
  {
    var attempt;
    sessionID, attempt := GenerateHashForSession(ge, draws);
    ge.CreateSession(sessionID);
    session := new Session(sessionID, ge);
  }

  /** The store once `Init` has run from flags `f` (the in-memory engine's
      `Init` empties it). */
  ghost function StoreAfterInit(f: Flags, s: Sessions): Sessions
  {
    if InitStep(f, None).attempted then map[] else s
  }

  /** What `LoadSession(id)` promises: on a closed engine the closed error
      and no change to the store; otherwise a fresh handle bound to `id` when
      `id` is a session, and else to a newly created session with a new
      identifier. */
  twostate predicate LoadedFrom(ge: RamEngine, id: string, new r: LoadResult)
    reads ge, ge.es
  {
    var base := StoreAfterInit(old(ge.StateFlags()), old(ge.sessions));
    && (old(ge.es.closed) ==> r == Failed(Closed) && ge.sessions == old(ge.sessions))
    && (!old(ge.es.closed) ==>
          && r.Loaded? && fresh(r.session) && r.session.ge == ge
          && (id in base ==> r.session.sessionID == id && ge.sessions == base)
          && (id !in base ==>
                && IsSessionId(r.session.sessionID) && r.session.sessionID !in base
                && ge.sessions == Created(base, r.session.sessionID)))
  }

  /** The effect of one `Init` on the flags, the attempt counter and the
      allocation of the map. */
  twostate predicate InitRan(ge: RamEngine)
    reads ge, ge.es
  {
    var out := InitStep(old(ge.StateFlags()), None);
    && ge.StateFlags() == out.flags
    && ge.initAttempts == old(ge.initAttempts) + (if out.attempted then 1 else 0)
    && ge.hasMap == (out.attempted || old(ge.hasMap))
  }

  method LoadSession(sessionID: string, ge: RamEngine, draws: seq<Draw>) returns (r: LoadResult)
    requires ge.Valid()
    requires FreshCandidateExists(draws, ge.sessions)
    modifies ge.es, ge`sessions, ge`hasMap, ge`initAttempts
    ensures ge.Valid()
    ensures InitRan(ge)
    ensures LoadedFrom(ge, sessionID, r)
  {
    var err := Init(ge);
    if err.Some? {
      return Failed(err.value);
    }
    FreshCandidateInSmallerStore(draws, old(ge.sessions), ge.sessions);
    if ge.SessionExists(sessionID) {
      var s := new Session(sessionID, ge);
      r := Loaded(s);
    } else {
      var s, _ := NewSession(ge, draws);
      r := Loaded(s);
    }
  }

  /** The cookie scan of `LoadSessionFromRequest`: whether some cookie
      counts, and the value of the last one that does. */
  method SelectSessionCookie(cookies: seq<Cookie>) returns (browserHasTheCookie: bool, cookieValue: string)
    ensures browserHasTheCookie <==> LastSessionCookie(cookies).Some?
    ensures browserHasTheCookie ==> cookieValue == LastSessionCookie(cookies).value
    ensures !browserHasTheCookie ==> cookieValue == ""
  {
    browserHasTheCookie, cookieValue := false, "";
    for i := 0 to |cookies|
      invariant browserHasTheCookie <==> LastSessionCookie(cookies[..i]).Some?
      invariant browserHasTheCookie ==> cookieValue == LastSessionCookie(cookies[..i]).value
      invariant !browserHasTheCookie ==> cookieValue == ""
    {
      assert cookies[..i + 1][..i] == cookies[..i];
      if cookies[i].name == CookieName && |cookies[i].value| == SessionIdLength {
        browserHasTheCookie := true;
        cookieValue := cookies[i].value;
      }
    }
    assert cookies[..|cookies|] == cookies;
  }

  /** Resolves the session of a request. With a cookie that counts, the last
      one is loaded and no cookie is emitted; otherwise `Init` runs, its error
      is returned, or a new session is created and its identifier is the
      value of the emitted cookie. */
  method LoadSessionFromRequest(cookies: seq<Cookie>, ge: RamEngine, draws: seq<Draw>)
    returns (r: LoadResult, setCookie: Option<string>)
    requires ge.Valid()
    requires FreshCandidateExists(draws, ge.sessions)
    modifies ge.es, ge`sessions, ge`hasMap, ge`initAttempts
    ensures ge.Valid()
    ensures InitRan(ge)
    ensures LastSessionCookie(cookies).Some? ==>
      setCookie == None && LoadedFrom(ge, LastSessionCookie(cookies).value, r)
    ensures LastSessionCookie(cookies).None? && old(ge.es.closed) ==>
      r == Failed(Closed) && setCookie == None && ge.sessions == old(ge.sessions)
    ensures LastSessionCookie(cookies).None? && !old(ge.es.closed) ==>
      var base := StoreAfterInit(old(ge.StateFlags()), old(ge.sessions));
      && r.Loaded? && fresh(r.session) && r.session.ge == ge
      && setCookie == Some(r.session.sessionID)
      && IsSessionId(r.session.sessionID) && r.session.sessionID !in base
      && ge.sessions == Created(base, r.session.sessionID)
  {
    var browserHasTheCookie, cookieValue := SelectSessionCookie(cookies);
    if browserHasTheCookie && |cookieValue| > 0 {
      r := LoadSession(cookieValue, ge, draws);
      return r, None;
    }

    var err := Init(ge);
    if err.Some? {
      return Failed(err.value), None;
    }
    FreshCandidateInSmallerStore(draws, old(ge.sessions), ge.sessions);
    var session, sessionID := NewSession(ge, draws);
    return Loaded(session), Some(sessionID);
  }
}
