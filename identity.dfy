/** Session identifiers and the session cookie (gosession.go): the
    per-draw character mapping of `generateHashForSession`, the candidate
    identifiers a stream of draws yields, and which request cookie counts. */
module Identity {
  import opened Values
  import opened SessionStore

  /** `sessionIDHashLength`. */
  const SessionIdLength: nat := 64

  /** `cookieName`. */
  const CookieName: string := "GosessionCookie"

  /** One result of `rand.Intn(59)`. Randomness is an input to the model:
      nothing is claimed about the distribution of draws. */
  type Draw = r: int | 0 <= r < 59

  predicate InLower(c: char) { 'a' <= c <= 'y' }
  predicate InUpper(c: char) { 'A' <= c <= 'Y' }
  predicate InDigits(c: char) { '0' <= c <= '8' }

  /** The characters a draw can produce: 'z', 'Z' and '9' are not among them. */
  predicate IsIdChar(c: char) { InLower(c) || InUpper(c) || InDigits(c) }

  predicate IsSessionId(s: string)
  {
    |s| == SessionIdLength && forall i :: 0 <= i < |s| ==> IsIdChar(s[i])
  }

  /** The draw that yields an identifier character. */
  function DrawOf(c: char): Draw
    requires IsIdChar(c)
  {
    if InLower(c) then c as int - 'a' as int
    else if InUpper(c) then c as int - 'A' as int + 25
    else c as int - '0' as int + 50
  }

  /** The character one draw contributes: 0-24 the letters 'a'..'y', 25-49
      the letters 'A'..'Y', 50-58 the decimal rendering of r - 50, a single
      digit '0'..'8'. */
  function CharOf(r: Draw): (c: char)
    ensures IsIdChar(c)
    ensures c != 'z' && c != 'Z' && c != '9'
    ensures r < 25 <==> InLower(c)
    ensures 25 <= r < 50 <==> InUpper(c)
    ensures 50 <= r <==> InDigits(c)
    ensures DrawOf(c) == r
  {
    if r < 25 then (r + 97) as char
    else if r < 50 then (r + 65 - 25) as char
    else ('0' as int + (r - 50)) as char
  }

  /** The string built from a run of draws, one character per draw. */
  function Encode(ds: seq<Draw>): (s: string)
    ensures |s| == |ds|
    ensures forall i :: 0 <= i < |ds| ==> s[i] == CharOf(ds[i])
  {
    if ds == [] then [] else [CharOf(ds[0])] + Encode(ds[1..])
  }

  /** The identifier built on attempt `k` (from 0) of the retry loop: it
      consumes the draws SessionIdLength * k up to SessionIdLength * (k + 1). */
  function Candidate(draws: seq<Draw>, k: nat): (id: string)
    requires SessionIdLength * (k + 1) <= |draws|
    ensures IsSessionId(id)
    ensures forall i :: 0 <= i < SessionIdLength ==> id[i] == CharOf(draws[SessionIdLength * k + i])
  {
    Encode(draws[SessionIdLength * k .. SessionIdLength * (k + 1)])
  }

  /** The draw stream eventually yields an identifier that is not a session
      of `s`: the condition under which the unbounded retry loop stops. */
  ghost predicate FreshCandidateExists(draws: seq<Draw>, s: Sessions)
  {
    exists k: nat :: SessionIdLength * (k + 1) <= |draws| && Candidate(draws, k) !in s
  }

  /** Removing sessions keeps a fresh candidate fresh. */
  lemma FreshCandidateInSmallerStore(draws: seq<Draw>, s: Sessions, t: Sessions)
    requires FreshCandidateExists(draws, s)
    requires t.Keys <= s.Keys
    ensures FreshCandidateExists(draws, t)
  {
  }

  /** A request cookie as (name, value). */
  datatype Cookie = Cookie(name: string, value: string)

  /** A cookie counts only under the session cookie's name and with a value
      of exactly the identifier length. */
  predicate IsSessionCookie(c: Cookie)
  {
    c.name == CookieName && |c.value| == SessionIdLength
  }

  /** The value of the last cookie that counts, if any. */
  function LastSessionCookie(cookies: seq<Cookie>): (r: Option<string>)
    ensures r.None? <==> forall i :: 0 <= i < |cookies| ==> !IsSessionCookie(cookies[i])
    ensures r.Some? ==>
      exists i :: && 0 <= i < |cookies| && IsSessionCookie(cookies[i])
                  && r.value == cookies[i].value
                  && forall j :: i < j < |cookies| ==> !IsSessionCookie(cookies[j])
    ensures r.Some? ==> |r.value| == SessionIdLength
  {
    if cookies == [] then None
    else if IsSessionCookie(cookies[|cookies| - 1]) then Some(cookies[|cookies| - 1].value)
    else LastSessionCookie(cookies[..|cookies| - 1])
  }
}
