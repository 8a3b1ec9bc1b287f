# gosession: session identity, lifecycle and the in-memory store, in Dafny

gosession is a session layer for Go HTTP servers. It issues a 64-character
session identifier in a cookie named `GosessionCookie` and keeps a key/value
map per identifier in a pluggable storage engine. It also guards the
engine's one-time initialisation and its permanent closing. This project
models that layer over its reference engine, `RamEngine`, and proves what
it promises.

- `values.dfy` (module `Values`): the stored values. Go's `interface{}`
  becomes a datatype with an explicit `Nil` case.
- `store.dfy` (module `SessionStore`): the map of maps as a value. Each
  in-place update of the engine has a specification function here, and the
  function's contract says what every key reads as afterwards.
- `lifecycle.dfy` (module `Lifecycle`): `Init` and `CloseEngine` as a state
  machine over the flags `initialised` and `closed`. The result of the
  engine's own `Init` is a parameter, so the lemmas hold for any engine.
  The lemmas cover whole call sequences: the engine's `Init` runs at most
  once, even when it fails, and every `Init` after a close fails.
- `identity.dfy` (module `Identity`): the per-draw character mapping, the
  candidate identifiers a stream of draws yields, and which request cookie
  counts.
- `ramengine.dfy` (module `Ram`): `EngineState` and `RamEngine` as classes
  whose methods update their fields in place. `CreateSession`,
  `DestroySession`, `WriteKey` and `DeleteKey` are proved against their
  `SessionStore` functions, and `ReadKey` reads through `Lookup`. `Init`,
  `Close`, `DestroyAllSessions` and `SessionExists` have no such function:
  their contracts state the new map and flags directly.
- `gosession.dfy` (module `Gosession`): `Init`, `CloseEngine`,
  `generateHashForSession`, `NewSession`, `LoadSession`,
  `LoadSessionFromRequest` and the `Session` handle, as methods over a
  `RamEngine`.
- `aswritten.dfy` (module `AsWritten`): the engine as the Go source actually
  behaves with its value receivers (see Findings).

Randomness is an input. `draws` is the sequence of successive results of
`rand.Intn(59)`. Attempt `k` of the retry loop reads draws `64k` to
`64k + 63`. The request is its list of cookies, as (name, value) pairs. The
response cookie is reduced to the identifier it carries (`setCookie`).

Every `RamEngine` method in the source has a value receiver. So the
reassignments in `Init`, `Close` and `DestroyAllSessions` are lost, and
`GetEngineStatePointer` returns a pointer into a copy. The classes model the
documented intent instead:
- `es` is a stable `EngineState` held in a const field, and it is what
  `GetEngineStatePointer` returns;
- all three reassignments take effect.

Module `AsWritten` models the behaviour as written: the lost reassignments
of `Init`, `Close` and `DestroyAllSessions`, and the lost flag writes.

The session map can be nil. A zero `RamEngine` holds a nil map, `Init`
allocates it and `Close` makes it nil again. Reading a nil map finds nothing
and deleting from it does nothing, but writing into it panics. The field
`hasMap` records whether the map is allocated. `CreateSession`, and so
`NewSession` and `Session.ClearSession`, require it.

Three behaviours of the code are worth stating outright:
- identifiers use only 59 characters, `a`-`y`, `A`-`Y` and `0`-`8`
  (gosession.go:220-227);
- when several cookies qualify, the last one wins (gosession.go:114-118);
- a failed engine `Init` is never retried, because the flag is raised before
  the engine's `Init` runs (gosession.go:107-108).

## Model

| member | source | states |
|---|---|---|
| `SessionStore.Lookup` | ramengine.go:42-44 | A key reads nil when its session is missing or the key is missing. A non-nil read is the value stored under that key of that session. |
| `SessionStore.Created` | ramengine.go:30-32 | `id` exists with no keys, whatever it held before, and every key of it reads nil. The set of sessions grows by `id` only, and every other session is unchanged. |
| `SessionStore.Destroyed` | ramengine.go:34-36 | `id` no longer exists and all its keys read nil. Every other session is unchanged. If `id` was absent, nothing changes. |
| `SessionStore.Written` | ramengine.go:46-48 | In an existing session, `key` then reads `value` (read-after-write). The session's other keys and every other session are unchanged. The key is created if it was absent. |
| `SessionStore.Deleted` | ramengine.go:50-52 | `key` then reads nil, and every other key and session is unchanged. A missing session leaves the store as it was. |
| `Lifecycle.InitStep` | gosession.go:99-109 | The engine's `Init` is called exactly when neither flag is up. `closed` never changes. `initialised` is up afterwards whenever the engine is not closed, even when the engine's `Init` fails. The result is the closed error when closed, the engine's result when it was called, and nil otherwise. |
| `Lifecycle.CloseStep` | gosession.go:168 | `closed` is up afterwards, and `initialised` keeps its value. |
| `Lifecycle.ClosedRejectsEveryInit` | gosession.go:99-103 | Starting from a closed engine, over any sequence of calls: every `Init` returns the closed error, the engine's `Init` never runs, and `initialised` keeps its value. |
| `Lifecycle.InitialisedStaysInitialised` | gosession.go:104-106 | Once `initialised` is up, it stays up, and the engine's `Init` never runs again. |
| `Lifecycle.InitialisedInitResult` | gosession.go:99-106 | On an initialised engine, each `Init` returns exactly nil. The exception is when the engine started closed or a `CloseEngine` came before that `Init`: then it returns exactly the closed error. |
| `Lifecycle.EngineInitAtMostOnce` | gosession.go:99-109 | Over any sequence of `Init` and `CloseEngine` calls, the engine's `Init` runs at most once. It never runs if the engine starts initialised or closed. |
| `Lifecycle.FirstInitIsTheOnlyAttempt` | gosession.go:104-108 | The first `Init` on a fresh engine returns the engine's result, failure included. It leaves `initialised` up either way and is the only run of the engine's `Init`. Every later `Init` returns nil, or the closed error exactly when a `CloseEngine` came before it. |
| `Lifecycle.InitAfterCloseFails` | gosession.go:166-169 | After a `CloseEngine` anywhere in a call sequence, every later `Init` returns the closed error. |
| `Identity.CharOf` | gosession.go:220-227 | Draws 0-24 give `a`-`y`, draws 25-49 give `A`-`Y` and draws 50-58 give `0`-`8`; each range maps onto exactly that class. `z`, `Z` and `9` never appear. `DrawOf` inverts the mapping. |
| `Identity.Encode` | gosession.go:219-228 | The string built from a run of draws has one character per draw, in order, and each is that draw's character. |
| `Identity.Candidate` | gosession.go:217-228 | The string built on any attempt is a valid identifier: exactly 64 characters, all from the 59-character alphabet. Character `i` comes from draw `64k + i`. |
| `Identity.IsSessionCookie` | gosession.go:115 | A cookie counts exactly when its name is `GosessionCookie` and its value has length 64. |
| `Identity.LastSessionCookie` | gosession.go:112-119 | A value is selected exactly when some cookie is named `GosessionCookie` and has a 64-character value. The selected value is that of the last such cookie, so its length is 64. |
| `Ram.EngineState.constructor` | gosession.go:23-26 | A new state has both flags down. |
| `Ram.RamEngine.constructor` | ramengine.go:7-10 | A new engine is Go's zero `RamEngine`: its map is nil, so it has no sessions and `CreateSession` is not yet allowed. Its flags are down, in a fresh `EngineState` of its own. |
| `Ram.RamEngine.Init` | ramengine.go:16-19 | Allocates an empty map, never fails, and counts one run of the engine's `Init`. |
| `Ram.RamEngine.Close` | ramengine.go:21-23 | Makes the map nil: afterwards no session exists, and `CreateSession` is not allowed until the map is allocated again. |
| `Ram.RamEngine.SessionExists` | ramengine.go:25-28 | True exactly when `id` is a key of the store. When false, every key of `id` reads nil. |
| `Ram.RamEngine.ReadKey` | ramengine.go:42-44 | Returns the stored value. Returns nil when the session or the key is missing. |
| `Ram.RamEngine.CreateSession` | ramengine.go:30-32 | Requires an allocated map, because a write into a nil map panics. The new store is `Created` of the old one, so the session is emptied even if it existed. |
| `Ram.RamEngine.DestroySession` | ramengine.go:34-36 | The new store is `Destroyed` of the old one. |
| `Ram.RamEngine.DestroyAllSessions` | ramengine.go:38-40 | Afterwards no session exists, as the interface's doc comment promises, and the map is a new, allocated one. |
| `Ram.RamEngine.WriteKey` | ramengine.go:46-48 | Requires the session to exist, because a write into a nil inner map panics. The new store is `Written` of the old one. |
| `Ram.RamEngine.DeleteKey` | ramengine.go:50-52 | The new store is `Deleted` of the old one, so deleting from a missing session is a no-op. |
| `Gosession.Session.constructor` | gosession.go:136-139 | The handle is bound to the given identifier and engine. |
| `Gosession.Session.DestroySession` | gosession.go:172-174 | The handle's session no longer exists, and other sessions are unchanged. |
| `Gosession.Session.ClearSession` | gosession.go:178-181 | Requires an allocated map, since its create step writes into the map. The identifier is kept. Afterwards the session exists, every key reads nil, and no other session changes. |
| `Gosession.Session.ReadKey` | gosession.go:184-186 | Returns the stored value for the handle's identifier, or nil when the session or the key is missing. |
| `Gosession.Session.ReadKeyAs` | gosession.go:190-196 | Returns the default when the stored value is nil, and the stored value otherwise. |
| `Gosession.Session.ReadKeyAsString` | gosession.go:198-200 | Applies when the stored value is nil or a string. Returns the string, or `""` for nil. |
| `Gosession.Session.DeleteKey` | gosession.go:203-205 | The key then reads nil, and `ReadKeyAs` returns whatever default it is given. Nothing else changes. |
| `Gosession.Session.WriteKey` | gosession.go:208-210 | Reading the key back returns the written value. Nothing else changes. |
| `Gosession.Init` | gosession.go:99-109 | Follows `InitStep` with the engine's result, which is always success for the in-memory engine: refused when closed, a no-op once initialised, otherwise the flag is raised first and the engine's `Init` runs. The engine invariant is preserved: `initAttempts` is 1 exactly when `initialised` and 0 otherwise, a nil map holds no sessions, and an initialised engine that is not closed has its map. A run of the engine's `Init` allocates the map. |
| `Gosession.CloseEngine` | gosession.go:166-169 | Makes the map nil and raises `closed` whatever its previous value, leaving `initialised` as it was. The engine invariant is kept. |
| `Gosession.DestroyAllSessions` | gosession.go:161-163 | Afterwards no session exists, the map is a new allocated one, and the engine invariant is kept. |
| `Gosession.GenerateHashForSession` | gosession.go:214-237 | Changes nothing and only queries `SessionExists`. Returns the candidate of the first attempt that is not an existing session. The result is a valid 64-character identifier, and every earlier candidate was an existing session. |
| `Gosession.NewSession` | gosession.go:133-141 | Requires an allocated map (it calls `CreateSession`). Adds exactly one session (the store grows by one), under a valid identifier that did not exist. Returns a fresh handle bound to that identifier, together with the identifier. |
| `Gosession.LoadSession` | gosession.go:145-159 | Runs `Init`. On a closed engine it returns the closed error and the store is untouched. If the identifier exists, it returns a fresh handle bound to that same identifier and creates nothing. Otherwise it creates exactly one new session under a new identifier and returns a handle bound to it. |
| `Gosession.SelectSessionCookie` | gosession.go:112-119 | The loop finds a cookie exactly when `LastSessionCookie` does, and in that case returns its value. Otherwise it returns `""`. |
| `Gosession.LoadSessionFromRequest` | gosession.go:111-130 | With a qualifying cookie, it behaves as `LoadSession` on the last one and emits no cookie. Otherwise `Init`'s error is returned with no cookie, or one new session is created and its identifier is the emitted cookie value. |
| `AsWritten.InitAsWritten` | ramengine.go:16-19 | As written, `Init` returns nil and leaves the caller's engine as it was: a nil map stays nil. |
| `AsWritten.CloseAsWritten` | ramengine.go:21-23 | As written, `Close` leaves the caller's engine as it was: its map and sessions stay. |
| `AsWritten.CreateSessionAsWritten` | ramengine.go:30-32 | Creating a session panics exactly when the map is nil; otherwise the store becomes `Created` of the old one. |
| `AsWritten.ZeroEngineInitLeavesNilMapAsWritten` | ramengine.go:16-19 | On a zero engine, `Init` as written leaves the map nil and the first `CreateSession` panics; with the map allocated, as intended, it succeeds. |
| `AsWritten.DestroyAllSessionsAsWritten` | ramengine.go:38-40 | As written, the caller's engine keeps exactly the sessions it had. |
| `AsWritten.DestroyAllSessionsAsWrittenKeepsSessions` | ramengine.go:38-40 | A session that exists before `DestroyAllSessions` still exists after it, as written. |
| `AsWritten.RunAsWritten` | ramengine.go:12-14 | As written, the flags are never changed by any sequence of `Init` and `CloseEngine` calls, and every `Init` yields one result. |
| `AsWritten.EveryInitRunsAsWritten` | gosession.go:99-109 | As written, on a fresh engine every `Init` runs the engine's `Init` again and returns its result, even after `CloseEngine`. |
| `AsWritten.CloseIsLostAsWritten` | gosession.go:166-169 | `CloseEngine` then `Init` on a fresh engine: as written, it succeeds and runs the engine's `Init` once. As intended, it returns the closed error and runs nothing. |

## Left out

- `addSessionCookie` (gosession.go:86-95) is left out. It builds an HTTP cookie with path `/` and a 10-year expiry from the clock. Only the identifier it carries is modelled, as `setCookie`.
- `r.Cookies()` parsing and the `http.ResponseWriter` are HTTP library I/O. The request is its list of (name, value) cookies. Cookie values are character strings, and the model measures their length in characters. Go's `len(cookie.Value)` counts bytes; the two agree because net/http's cookie parser keeps only ASCII values.
- `math/rand` is an input sequence of draws in `0..58`. Nothing is claimed about the distribution or about collision probability.
- `Gosession.GenerateHashForSession`: requires the draws to contain some candidate that is not an existing session. The Go loop has no bound and returns only on such a candidate, so this is the condition under which it returns. It is not a check the source makes.
- `Gosession.NewSession`, `Gosession.LoadSession`, `Gosession.LoadSessionFromRequest`: carry the same requirement on the draws, because they reach the generator.
- `Gosession.Init`: the `GosessionEngine` interface is modelled by its only implementation, `RamEngine`, whose `Init` always succeeds. Engine-init failure is covered by the `Lifecycle` lemmas, where the engine's result is a parameter, not by this method.
- `GetEngineStatePointer` is not a separate member. The pointer it returns is the const field `es`.
- `Ram.RamEngine.Init`, `Ram.RamEngine.Close`, `Ram.RamEngine.DestroyAllSessions`: model the documented intent (the reassignment takes effect), not the value-receiver behaviour. The behaviour as written of all three is in module `AsWritten`; `Init` and `DestroyAllSessions` are also under Findings.
- Stored values are reduced to nil, strings, integers and booleans. Other Go values are not distinguished.
- `Gosession.Session.ReadKeyAsString`: the Go type assertion panics on a non-string value. It is modelled as a precondition, not as a panic.
- The commented-out `LoadSessionFromID` (gosession.go:69-83) is dead code. The `ges` field of `Session` (gosession.go:20) is never read.
- gosession_test.go holds only an incomplete mock engine and an empty test, so it has no behaviour to model.
- Concurrency is left out. The source has no locks, and only single-threaded sequential calls are modelled.

## Findings

| source | as written | input that shows it | evidently intended | confidence | as-written member | corrected member |
|---|---|---|---|---|---|---|
| ramengine.go:16-19 | `Init` has a value receiver, so it assigns the new map to a copy's field. A zero engine keeps its nil map. | `ge := &RamEngine{}`, `Init(ge)`, then `NewSession(ge)`: `CreateSession` writes into a nil map and panics. | `Init` prepares everything the engine needs to manage sessions (gosession.go:30-32), so sessions can be created afterwards. | high; not executed | `AsWritten.ZeroEngineInitLeavesNilMapAsWritten` | `Ram.RamEngine.Init` |
| ramengine.go:38-40 | `DestroyAllSessions` has a value receiver, so it assigns the new map to a copy's field. The engine keeps every session. | An engine holding one session `x`, then `DestroyAllSessions`: `SessionExists("x")` is still true. | No session exists afterwards (gosession.go:52). | high; not executed | `AsWritten.DestroyAllSessionsAsWritten` | `Ram.RamEngine.DestroyAllSessions` |
| ramengine.go:12-14 | `GetEngineStatePointer` has a value receiver, so it returns a pointer into a copy. The flag writes of `Init` and `CloseEngine` are lost. | `CloseEngine(ge)` then `Init(ge)` on a fresh `RamEngine`: returns nil and runs the engine's `Init` although the engine was closed. | The closed error, and the engine's `Init` runs at most once (gosession.go:34-36, 99-109). | high; not executed | `AsWritten.RunAsWritten` | `Lifecycle.InitAfterCloseFails` |
