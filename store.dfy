/** The session store of the in-memory engine as a value: a map from session
    identifier to that session's key/value map. These functions specify what
    the engine's in-place updates (ramengine.go) do to it. */
module SessionStore {
  import opened Values

  type Sessions = map<string, map<string, Value>>

  /** What a key reads as: the stored value, or nil when the session or the
      key is missing. */
  function Lookup(s: Sessions, id: string, key: string): (v: Value)
    ensures id !in s ==> v == Nil
    ensures id in s && key !in s[id] ==> v == Nil
    ensures v != Nil ==> id in s && key in s[id] && s[id][key] == v
  {
    if id in s && key in s[id] then s[id][key] else Nil
  }

  /** `id` exists with no keys at all, whatever it held before; every other
      session is as it was. */
  function Created(s: Sessions, id: string): (r: Sessions)
    ensures id in r && r[id] == map[]
    ensures forall key :: Lookup(r, id, key) == Nil
    ensures r.Keys == s.Keys + {id}
    ensures r - {id} == s - {id}
  {
    s[id := map[]]
  }

  /** `id` no longer exists; every other session is as it was, and nothing
      changes when `id` was absent. */
  function Destroyed(s: Sessions, id: string): (r: Sessions)
    ensures id !in r
    ensures forall key :: Lookup(r, id, key) == Nil
    ensures r.Keys == s.Keys - {id}
    ensures r - {id} == s - {id}
    ensures id !in s ==> r == s
  {
    s - {id}
  }

  /** Upsert of one key in an existing session: the key reads as `v`, every
      other key of the session and every other session is as it was. */
  function Written(s: Sessions, id: string, key: string, v: Value): (r: Sessions)
    requires id in s
    ensures Lookup(r, id, key) == v
    ensures r.Keys == s.Keys
    ensures key in r[id] && r[id].Keys == s[id].Keys + {key}
    ensures r[id] - {key} == s[id] - {key}
    ensures r - {id} == s - {id}
  {
    s[id := s[id][key := v]]
  }

  /** Removal of one key: it reads as nil afterwards; every other key and
      session is as it was, and nothing changes when the session is missing. */
  function Deleted(s: Sessions, id: string, key: string): (r: Sessions)
    ensures Lookup(r, id, key) == Nil
    ensures r.Keys == s.Keys
    ensures r - {id} == s - {id}
    ensures id in s ==> key !in r[id] && r[id] - {key} == s[id] - {key}
    ensures id !in s ==> r == s
  {
    if id in s then s[id := s[id] - {key}] else s
  }
}
