/** The refresh handler and the denylists behind it, run without interruption at one moment. */
module RefreshHandlers {
  import opened Collections
  import opened RefreshTokens

  datatype Answer = TokenPair(refresh: Token) | InvalidGrant | NotAllowed | Unavailable

  /** The two shared denylists; a store can also lack an atomic add. */
  class Denylist {
    var tokens: map<Id, int>
    var sessions: map<Id, int>
    const hasAtomicAdd: bool

    constructor (hasAtomicAdd: bool)
      ensures tokens == map[] && sessions == map[] && this.hasAtomicAdd == hasAtomicAdd
    {
      this.hasAtomicAdd := hasAtomicAdd;
      tokens, sessions := map[], map[];
    }

    /** Record a one-time credential; only its first writer is told so. Unless the store `works`,
        the add can fail, with or without having taken effect. */
    method Consume(id: Id, ttl: int, now: int, works: bool) returns (first: Option<bool>)
      modifies this`tokens
      ensures first == Some(true) ==>
        && id != NO_ID && 0 < ttl && hasAtomicAdd && (id in old(tokens) ==> old(tokens)[id] <= now)
        && tokens == old(tokens)[id := now + ttl] && Listed(tokens, id, now)
      ensures first == Some(false) ==>
        id != NO_ID && (0 < ttl ==> hasAtomicAdd && Listed(old(tokens), id, now)) && tokens == old(tokens)
      ensures first == None ==>
        || tokens == old(tokens)
        || (id != NO_ID && 0 < ttl && !Listed(old(tokens), id, now) && tokens == old(tokens)[id := now + ttl])
      ensures works ==> (first == None <==> id == NO_ID || (0 < ttl && !hasAtomicAdd)) && (first == None ==> tokens == old(tokens))
    {
      if id == NO_ID {
        return None;
      }
      if ttl <= 0 {
        return Some(false);
      }
      if !hasAtomicAdd {
        return None;
      }
      var reached, answered := *, *;
      if !reached && !works {
        return None;
      }
      if Listed(tokens, id, now) {
        return if answered || works then Some(false) else None;
      }
      tokens := tokens[id := now + ttl];
      first := if answered || works then Some(true) else None;
    }

    method RevokeSession(family: Id, ttl: int, now: int) returns (ok: bool)
      modifies this`sessions
      ensures ok <==> family != NO_ID
      ensures sessions == if ok && 0 < ttl then old(sessions)[family := now + ttl] else old(sessions)
    {
      if family == NO_ID {
        return false;
      }
      if 0 < ttl {
        sessions := sessions[family := now + ttl];
      }
      ok := true;
    }

    /** Trade a refresh token for a new one under the identifier `jti`. Unless the store `works`,
        a failed call can refuse the trade, and even spend the token. */
    method Refresh(t: Token, isAdmin: bool, jti: Id, now: int, works: bool) returns (answer: Answer)
      modifies this`tokens
      ensures answer.TokenPair? ==>
        && t.jti != NO_ID && now < t.exp && hasAtomicAdd && isAdmin
        && !Listed(sessions, Family(t), now) && !Listed(old(tokens), t.jti, now)
        && answer.refresh.exp == t.exp && Family(answer.refresh) == Family(t)
        && tokens == old(tokens)[t.jti := t.exp]
      ensures tokens == old(tokens) || (now < t.exp && !Listed(old(tokens), t.jti, now) && tokens == old(tokens)[t.jti := t.exp])
      ensures works ==>
        && (answer.TokenPair? <==>
             && t.jti != NO_ID && now < t.exp && hasAtomicAdd && isAdmin
             && (t.jti in old(tokens) ==> old(tokens)[t.jti] <= now)
             && var family := if t.session != NO_ID then t.session else t.jti;
                family in sessions ==> sessions[family] <= now)
        && (!answer.TokenPair? ==> tokens == old(tokens))
    {
      if now > t.exp || t.jti == NO_ID {
        return InvalidGrant;
      }
      var checked, checkedAgain := *, *;
      if !checked && !works {
        return Unavailable;
      }
      if Listed(sessions, Family(t), now) {
        return InvalidGrant;
      }
      if !isAdmin {
        return NotAllowed;
      }
      if t.exp <= now {
        return Unavailable;
      }
      var next := Token(jti, Family(t), t.exp);
      var first := Consume(t.jti, t.exp - now, now, works);
      if first.None? {
        return Unavailable;
      }
      if !first.value {
        return InvalidGrant;
      }
      if !checkedAgain && !works {
        return Unavailable;
      }
      if Listed(sessions, Family(t), now) {
        return InvalidGrant;
      }
      answer := TokenPair(next);
    }

    /** The same token is never traded twice, however much later the second attempt comes
        and whichever calls fail. */
    method RefreshTwice(t: Token, first: Id, second: Id, now: int, later: int, works: bool) returns (a: Answer, b: Answer)
      requires now <= later
      modifies this`tokens
      ensures !(a.TokenPair? && b.TokenPair?)
    {
      a := Refresh(t, true, first, now, works);
      b := Refresh(t, true, second, later, works);
    }
  }
}
