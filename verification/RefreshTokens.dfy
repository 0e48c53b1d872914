/** Refresh token rotation: sessions, single use, revocation, and time passing between all steps. */
module RefreshTokens {

  /** Identifiers of tokens and sessions; 0 is the empty one. */
  type Id = nat

  const NO_ID: Id := 0

  /** The signed claims of a refresh token; old ones carry no session. */
  datatype Token = Token(jti: Id, session: Id, exp: int)

  /** The session family a token belongs to; a token without one founds its own. */
  function Family(t: Token): Id {
    if t.session != NO_ID then t.session else t.jti
  }

  /** Where one refresh request stands. */
  datatype Phase =
    | Presented(r: Token)               // signature, type and expiry verified
    | Checked(r: Token)                 // the session was not revoked
    | Issued(r: Token, next: Token)     // the new pair is signed, nothing is consumed yet
    | Won(r: Token, next: Token)        // this request consumed the old token
    | Cleared(r: Token, next: Token)    // the session was still not revoked

  /**
   * The clock, the two denylists with their expiry times, and the requests in flight.
   * The last four fields are history: identifiers ever used, tokens handed out, tokens
   * consumed, and the families whose revocation was confirmed.
   */
  datatype State = State(
    now: int,
    denied: map<Id, int>,
    revoked: map<Id, int>,
    requests: map<nat, Phase>,
    minted: set<Id>,
    delivered: set<Token>,
    consumed: set<Token>,
    ended: set<Id>)

  /** How an atomic add can end: an error does not tell whether the key was added. */
  datatype AddOutcome = Added | Refused | AddedButFailed

  datatype Event =
    | Tick(later: int)
    | Login(session: Id, jti: Id)
    | Present(id: nat, t: Token)
    | CheckSession(id: nat)
    | Issue(id: nat, jti: Id)
    | Consume(id: nat, outcome: AddOutcome)
    | CheckAgain(id: nat)
    | Deliver(id: nat)
    | Abandon(id: nat)
    | RevokeToken(t: Token)
    | RevokeSession(family: Id, ttl: int, confirmed: bool)

  /** An entry of a denylist holds until its time. */
  predicate Listed(list: map<Id, int>, id: Id, now: int) {
    id in list && now < list[id]
  }

  predicate In(s: State, id: nat, e: Event) {
    id in s.requests &&
    match e
    case CheckSession(_) => s.requests[id].Presented?
    case Issue(_, _) => s.requests[id].Checked?
    case Consume(_, _) => s.requests[id].Issued?
    case CheckAgain(_) => s.requests[id].Won?
    case Deliver(_) => s.requests[id].Cleared?
    case _ => false
  }

  predicate Unused(s: State, id: Id) {
    id != NO_ID && id !in s.minted
  }

  predicate Enabled(refreshTTL: int, s: State, e: Event) {
    match e
    case Tick(later) => s.now <= later
    case Login(session, jti) => Unused(s, session) && Unused(s, jti) && session != jti
    case Present(id, t) => id !in s.requests && t in s.delivered && s.now <= t.exp && t.jti != NO_ID
    case CheckSession(id) => In(s, id, e) && !Listed(s.revoked, Family(s.requests[id].r), s.now)
    case Issue(id, jti) => In(s, id, e) && Unused(s, jti) && s.now < s.requests[id].r.exp
    case Consume(id, outcome) =>
      In(s, id, e) && (outcome != Refused ==>
        s.now < s.requests[id].r.exp && !Listed(s.denied, s.requests[id].r.jti, s.now))
    case CheckAgain(id) => In(s, id, e) && !Listed(s.revoked, Family(s.requests[id].r), s.now)
    case Deliver(id) => In(s, id, e)
    case Abandon(id) => id in s.requests
    case RevokeToken(t) => t in s.delivered && s.now < t.exp
    case RevokeSession(family, ttl, _) => family in s.minted && refreshTTL <= ttl
  }

  function Move(s: State, id: nat, phase: Phase): State {
    s.(requests := s.requests[id := phase])
  }

  function Drop(s: State, id: nat): State {
    s.(requests := s.requests - {id})
  }

  function Apply(refreshTTL: int, s: State, e: Event): State
    requires Enabled(refreshTTL, s, e)
  {
    match e
    case Tick(later) => s.(now := later)
    case Login(session, jti) =>
      s.(minted := s.minted + {session, jti}, delivered := s.delivered + {Token(jti, session, s.now + refreshTTL)})
    case Present(id, t) => Move(s, id, Presented(t))
    case CheckSession(id) => Move(s, id, Checked(s.requests[id].r))
    case Issue(id, jti) => ApplyIssue(s, id, jti)
    case Consume(id, outcome) => ApplyConsume(s, id, outcome)
    case CheckAgain(id) => Move(s, id, Cleared(s.requests[id].r, s.requests[id].next))
    case Deliver(id) => Drop(s, id).(delivered := s.delivered + {s.requests[id].next})
    case Abandon(id) => Drop(s, id)
    case RevokeToken(t) => s.(denied := s.denied[t.jti := t.exp])
    case RevokeSession(family, ttl, confirmed) =>
      s.(revoked := if ttl > 0 then s.revoked[family := s.now + ttl] else s.revoked,
         ended := if confirmed then s.ended + {family} else s.ended)
  }

  /** The new token keeps the expiry of the one it replaces. */
  function ApplyIssue(s: State, id: nat, jti: Id): State
    requires id in s.requests && s.requests[id].Checked?
  {
    var r := s.requests[id].r;
    Move(s, id, Issued(r, Token(jti, Family(r), r.exp))).(minted := s.minted + {jti})
  }

  /** The old token is denied for exactly as long as it would have been valid. */
  function ApplyConsume(s: State, id: nat, outcome: AddOutcome): State
    requires id in s.requests && s.requests[id].Issued?
  {
    var r, next := s.requests[id].r, s.requests[id].next;
    match outcome
    case Refused => Drop(s, id)
    case Added =>
      Move(s, id, Won(r, next)).(denied := s.denied[r.jti := r.exp], consumed := s.consumed + {r})
    case AddedButFailed =>
      Drop(s, id).(denied := s.denied[r.jti := r.exp], consumed := s.consumed + {r})
  }

  /** At the start only tokens without a session may be around, from before sessions existed. */
  ghost predicate Initial(refreshTTL: int, s: State) {
    && s.requests == map[] && s.consumed == {} && s.ended == {}
    && (forall t | t in s.delivered ::
         t.session == NO_ID && t.jti != NO_ID && t.jti in s.minted && t.exp <= s.now + refreshTTL)
    && (forall t, u | t in s.delivered && u in s.delivered && t.jti == u.jti :: t == u)
  }

  ghost predicate Run(refreshTTL: int, states: seq<State>, events: seq<Event>) {
    && 0 < refreshTTL
    && |states| == |events| + 1
    && Initial(refreshTTL, states[0])
    && forall i | 0 <= i < |events| ::
         Enabled(refreshTTL, states[i], events[i]) && states[i + 1] == Apply(refreshTTL, states[i], events[i])
  }

  /** A token that could still be traded in. */
  predicate Usable(s: State, t: Token) {
    t in s.delivered && s.now < t.exp && !Listed(s.denied, t.jti, s.now)
  }

  // ------------------------------------------------------------------- revoking by hand

  /** The claims presented to a revocation: an access token or a refresh token. */
  datatype Claims = Claims(jti: Id, session: Id, exp: int)

  function ClaimsFamily(c: Claims): Id {
    if c.session != NO_ID then c.session else c.jti
  }

  /** How long each presented family is to be denied: at least as long as any of its tokens may live. */
  method FamilyTTLs(presented: seq<Claims>, refreshTTL: int, now: int) returns (ttls: map<Id, int>)
    requires 0 < refreshTTL
    ensures forall f :: f in ttls <==> f != NO_ID && exists i ::
        0 <= i < |presented|
        && f == (if presented[i].session != NO_ID then presented[i].session else presented[i].jti)
    ensures forall f | f in ttls :: refreshTTL <= ttls[f]
    ensures forall f, i | f in ttls && 0 <= i < |presented|
      && f == (if presented[i].session != NO_ID then presented[i].session else presented[i].jti) ::
      presented[i].exp <= now + ttls[f]
  {
    ttls := map[];
    var i := 0;
    while i < |presented|
      invariant 0 <= i <= |presented|
      invariant forall f :: f in ttls <==> f != NO_ID && exists j :: 0 <= j < i && ClaimsFamily(presented[j]) == f
      invariant forall f | f in ttls :: refreshTTL <= ttls[f]
      invariant forall j | 0 <= j < i && ClaimsFamily(presented[j]) != NO_ID ::
        presented[j].exp <= now + ttls[ClaimsFamily(presented[j])]
    {
      var c := presented[i];
      var family := ClaimsFamily(c);
      if family != NO_ID {
        var ttl := refreshTTL;
        if c.exp - now > ttl {
          ttl := c.exp - now;
        }
        if family !in ttls || ttls[family] < ttl {
          ttls := ttls[family := ttl];
        }
      }
      i := i + 1;
    }
  }
}
