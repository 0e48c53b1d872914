/** One live refresh token per session family, fixed expiry, and revocation that holds. */
module RefreshTokenTheorems {
  import opened RefreshTokens

  // ---------------------------------------------------------------------- the invariant

  /** A token that is out and unspent, or about to be handed out by the request that spent its predecessor. */
  ghost predicate Live(s: State, t: Token) {
    (t in s.delivered && t !in s.consumed) || exists id :: Pending(s, id, t)
  }

  ghost predicate Pending(s: State, id: nat, t: Token) {
    id in s.requests && (s.requests[id].Won? || s.requests[id].Cleared?) && s.requests[id].next == t
  }

  /** The new token a request has signed so far. */
  ghost predicate Signed(s: State, id: nat, t: Token) {
    id in s.requests && (s.requests[id].Issued? || s.requests[id].Won? || s.requests[id].Cleared?)
    && s.requests[id].next == t
  }

  ghost predicate TokenInv(refreshTTL: int, s: State, t: Token) {
    t in s.delivered ==>
      && t.jti in s.minted && Family(t) in s.minted && t.jti != NO_ID && Family(t) != NO_ID
      && t.exp <= s.now + refreshTTL
      && (t in s.consumed ==> t.jti in s.denied && t.exp <= s.denied[t.jti])
  }

  ghost predicate RequestInv(s: State, id: nat) {
    id in s.requests ==>
      var p := s.requests[id];
      && p.r in s.delivered
      && (p.Won? || p.Cleared? ==> p.r in s.consumed)
      && (!p.Presented? && !p.Checked? ==>
           p.next.jti in s.minted && p.next.jti != NO_ID && p.next.session == Family(p.r) && p.next.exp == p.r.exp)
  }

  /** Handed-out tokens differ in their identifiers, also from the signed ones. */
  ghost predicate Apart(s: State, t: Token, u: Token) {
    t in s.delivered && u in s.delivered && t.jti == u.jti ==> t == u
  }

  ghost predicate SignedApart(s: State, id: nat, other: nat, t: Token, u: Token) {
    Signed(s, id, t) ==> (u in s.delivered ==> t.jti != u.jti) && (Signed(s, other, u) && id != other ==> t.jti != u.jti)
  }

  ghost predicate OneLive(s: State, t: Token, u: Token) {
    Live(s, t) && Live(s, u) && Family(t) == Family(u) ==> t == u
  }

  ghost predicate SameExpiry(s: State, t: Token, u: Token) {
    t in s.delivered && u in s.delivered && Family(t) == Family(u) ==> t.exp == u.exp
  }

  /** A confirmed revocation outlives every token of the family. */
  ghost predicate Ended(s: State, t: Token) {
    t in s.delivered && Family(t) in s.ended ==> Family(t) in s.revoked && t.exp <= s.revoked[Family(t)]
  }

  ghost predicate Inv(refreshTTL: int, s: State) {
    && 0 < refreshTTL && s.consumed <= s.delivered && s.ended <= s.minted
    && (forall t :: TokenInv(refreshTTL, s, t))
    && (forall id :: RequestInv(s, id))
    && (forall t, u :: Apart(s, t, u))
    && (forall id, other, t, u :: SignedApart(s, id, other, t, u))
    && (forall t, u :: OneLive(s, t, u))
    && (forall t, u :: SameExpiry(s, t, u))
    && (forall t :: Ended(s, t))
  }

  // --------------------------------------------------------------- one event at a time

  /** Requests may come, go or take a step that signs nothing new; the rest stays. */
  ghost predicate OnlyRequests(s: State, t: State) {
    && t == s.(requests := t.requests)
    && forall id | id in t.requests :: RequestStep(s, t, id)
  }

  ghost predicate RequestStep(s: State, t: State, id: nat) {
    id in t.requests && (
      || (id in s.requests && t.requests[id] == s.requests[id])
      || (t.requests[id].Presented? && t.requests[id].r in s.delivered)
      || (id in s.requests && s.requests[id].Presented? && t.requests[id] == Checked(s.requests[id].r))
      || (id in s.requests && s.requests[id].Won? && t.requests[id] == Cleared(s.requests[id].r, s.requests[id].next)))
  }

  lemma RequestsKeepInv(ttl: int, s: State, t: State)
    requires Inv(ttl, s) && OnlyRequests(s, t)
    ensures Inv(ttl, t)
  {
    forall id, x ensures Signed(t, id, x) ==> Signed(s, id, x) {
      assert id in t.requests ==> RequestStep(s, t, id);
    }
    forall id, x ensures Pending(t, id, x) ==> Pending(s, id, x) {
      assert id in t.requests ==> RequestStep(s, t, id);
    }
    forall id ensures RequestInv(t, id) {
      assert RequestInv(s, id) && (id in t.requests ==> RequestStep(s, t, id));
    }
    hide RequestInv, RequestStep, Family;
    forall x ensures Live(t, x) ==> Live(s, x) {
      hide Pending;
    }
    hide Pending, Signed, Live;
    forall x ensures TokenInv(ttl, t, x) && Ended(t, x) {
      assert TokenInv(ttl, s, x) && Ended(s, x);
    }
    forall id, other, x, y ensures SignedApart(t, id, other, x, y) {
      assert SignedApart(s, id, other, x, y);
    }
    forall x, y ensures Apart(t, x, y) && OneLive(t, x, y) && SameExpiry(t, x, y) {
      assert Apart(s, x, y) && OneLive(s, x, y) && SameExpiry(s, x, y);
    }
  }

  /** Neither requests nor handed-out tokens change. */
  ghost predicate OnlyLists(s: State, t: State) {
    t == s.(now := t.now, denied := t.denied, revoked := t.revoked, ended := t.ended)
  }

  lemma ListsKeepInv(ttl: int, s: State, t: State)
    requires Inv(ttl, s) && OnlyLists(s, t) && t.ended <= t.minted
    requires forall x :: TokenInv(ttl, t, x) && Ended(t, x)
    ensures Inv(ttl, t)
  {
    forall id, x ensures Signed(t, id, x) == Signed(s, id, x) && Pending(t, id, x) == Pending(s, id, x) {}
    forall id ensures RequestInv(t, id) {
      assert RequestInv(s, id);
    }
    hide RequestInv, TokenInv, Ended, Family;
    forall x ensures Live(t, x) ==> Live(s, x) {
      hide Pending;
    }
    hide Pending, Signed, Live;
    forall id, other, x, y ensures SignedApart(t, id, other, x, y) {
      assert SignedApart(s, id, other, x, y);
    }
    forall x, y ensures Apart(t, x, y) && OneLive(t, x, y) && SameExpiry(t, x, y) {
      assert Apart(s, x, y) && OneLive(s, x, y) && SameExpiry(s, x, y);
    }
  }

  lemma TimeAndRevocationsKeepInv(ttl: int, s: State, e: Event)
    requires Inv(ttl, s) && Enabled(ttl, s, e) && (e.Tick? || e.RevokeToken? || e.RevokeSession?)
    ensures Inv(ttl, Apply(ttl, s, e))
  {
    var t := Apply(ttl, s, e);
    forall x ensures TokenInv(ttl, t, x) && Ended(t, x) {
      assert TokenInv(ttl, s, x) && Ended(s, x);
      if e.RevokeToken? {
        assert Apart(s, e.t, x);
      }
    }
    ListsKeepInv(ttl, s, t);
    hide Inv;
  }

  lemma RequestEventsKeepInv(ttl: int, s: State, e: Event)
    requires Inv(ttl, s) && Enabled(ttl, s, e)
    requires e.Present? || e.CheckSession? || e.CheckAgain? || e.Abandon?
    ensures Inv(ttl, Apply(ttl, s, e))
  {
    var t := Apply(ttl, s, e);
    forall id | id in t.requests ensures RequestStep(s, t, id) {}
    RequestsKeepInv(ttl, s, t);
    hide Inv;
  }

  lemma IssueKeepsInv(ttl: int, s: State, id: nat, jti: Id)
    requires Inv(ttl, s) && Enabled(ttl, s, Issue(id, jti))
    ensures Inv(ttl, Apply(ttl, s, Issue(id, jti)))
  {
    var t := Apply(ttl, s, Issue(id, jti));
    var next := t.requests[id].next;
    forall o, x ensures Pending(t, o, x) ==> Pending(s, o, x) {}
    forall o, x ensures Signed(t, o, x) ==> (o == id && x == next) || (o != id && Signed(s, o, x)) {}
    forall o ensures RequestInv(t, o) {
      assert RequestInv(s, o);
    }
    forall o, x | Signed(s, o, x) ensures x.jti in s.minted {
      assert RequestInv(s, o);
    }
    hide RequestInv, Family;
    forall x ensures Live(t, x) ==> Live(s, x) {
      hide Pending;
    }
    hide Pending, Signed, Live;
    forall x ensures TokenInv(ttl, t, x) && Ended(t, x) {
      assert TokenInv(ttl, s, x) && Ended(s, x);
    }
    forall o, other, x, y ensures SignedApart(t, o, other, x, y) {
      assert SignedApart(s, o, other, x, y) && SignedApart(s, other, o, y, x) && TokenInv(ttl, s, y);
    }
    forall x, y ensures Apart(t, x, y) && OneLive(t, x, y) && SameExpiry(t, x, y) {
      assert Apart(s, x, y) && OneLive(s, x, y) && SameExpiry(s, x, y);
    }
  }

  /** A spent token stays listed until it expires, so it is not spent twice. */
  lemma SpentOnce(ttl: int, s: State, r: Token)
    requires Inv(ttl, s) && r in s.delivered && s.now < r.exp && !Listed(s.denied, r.jti, s.now)
    ensures r !in s.consumed
  {
    assert TokenInv(ttl, s, r);
  }

  /** The old token is spent, and the new one takes its place or is lost. */
  lemma ConsumeKeepsInv(ttl: int, s: State, id: nat, outcome: AddOutcome)
    requires Inv(ttl, s) && Enabled(ttl, s, Consume(id, outcome)) && outcome != Refused
    ensures Inv(ttl, Apply(ttl, s, Consume(id, outcome)))
  {
    var t := Apply(ttl, s, Consume(id, outcome));
    var r, next := s.requests[id].r, s.requests[id].next;
    assert RequestInv(s, id) && Signed(s, id, next) && TokenInv(ttl, s, r);
    SpentOnce(ttl, s, r);
    forall o, x ensures Pending(t, o, x) ==> (o == id && x == next) || Pending(s, o, x) {}
    forall o, x ensures Signed(t, o, x) ==> Signed(s, o, x) {}
    forall o ensures RequestInv(t, o) {
      assert RequestInv(s, o);
    }
    assert Family(next) == Family(r) && r in s.delivered;
    forall x | Live(t, x) ensures x == next || (Live(s, x) && x != r) {
      if x != next {
        LiveElsewhere(ttl, s, t, id, outcome, x);
      }
    }
    assert Live(s, r);
    hide RequestInv, Family, Pending, Signed, Live;
    forall x ensures TokenInv(ttl, t, x) && Ended(t, x) {
      assert TokenInv(ttl, s, x) && Ended(s, x) && Apart(s, r, x);
    }
    forall o, other, x, y ensures SignedApart(t, o, other, x, y) {
      assert SignedApart(s, o, other, x, y);
    }
    forall x, y ensures Apart(t, x, y) && OneLive(t, x, y) && SameExpiry(t, x, y) {
      assert Apart(s, x, y) && OneLive(s, x, y) && SameExpiry(s, x, y);
      assert OneLive(s, x, r) && OneLive(s, y, r);
    }
  }

  lemma LiveElsewhere(ttl: int, s: State, t: State, id: nat, outcome: AddOutcome, x: Token)
    requires Inv(ttl, s) && Enabled(ttl, s, Consume(id, outcome)) && outcome != Refused
    requires t == Apply(ttl, s, Consume(id, outcome)) && Live(t, x) && x != s.requests[id].next
    ensures Live(s, x) && x != s.requests[id].r
  {
    var r := s.requests[id].r;
    assert RequestInv(s, id);
    if x in t.delivered && x !in t.consumed {
      assert x in s.delivered && x !in s.consumed;
    } else {
      var o :| Pending(t, o, x);
      assert Pending(s, o, x) && Signed(s, o, x) && SignedApart(s, o, o, x, r);
    }
  }

  lemma DeliverKeepsInv(ttl: int, s: State, id: nat)
    requires Inv(ttl, s) && Enabled(ttl, s, Deliver(id))
    ensures Inv(ttl, Apply(ttl, s, Deliver(id)))
  {
    var t := Apply(ttl, s, Deliver(id));
    var r, next := s.requests[id].r, s.requests[id].next;
    assert RequestInv(s, id) && Signed(s, id, next) && Pending(s, id, next) && Live(s, next);
    assert TokenInv(ttl, s, r) && Ended(s, r);
    assert SignedApart(s, id, id, next, next);
    assert next !in s.delivered;
    forall o, x ensures Pending(t, o, x) ==> Pending(s, o, x) {}
    forall o, x ensures Signed(t, o, x) ==> o != id && Signed(s, o, x) {}
    forall o ensures RequestInv(t, o) {
      assert RequestInv(s, o);
    }
    assert Family(next) == Family(r) && next.exp == r.exp;
    hide RequestInv, Family;
    forall x ensures Live(t, x) ==> Live(s, x) {
      hide Pending;
    }
    hide Pending, Signed, Live;
    forall x ensures TokenInv(ttl, t, x) && Ended(t, x) {
      assert TokenInv(ttl, s, x) && Ended(s, x);
    }
    forall o, other, x, y ensures SignedApart(t, o, other, x, y) {
      assert SignedApart(s, o, other, x, y) && SignedApart(s, o, id, x, next);
    }
    forall x, y ensures Apart(t, x, y) && OneLive(t, x, y) && SameExpiry(t, x, y) {
      assert Apart(s, x, y) && OneLive(s, x, y) && SameExpiry(s, x, y);
      assert SameExpiry(s, x, r) && SameExpiry(s, r, y);
      assert SignedApart(s, id, id, next, x) && SignedApart(s, id, id, next, y);
    }
  }

  lemma LiveFamilyIsMinted(ttl: int, s: State, x: Token)
    requires Inv(ttl, s) && Live(s, x)
    ensures Family(x) in s.minted
  {
    if x in s.delivered {
      assert TokenInv(ttl, s, x);
    } else {
      var o :| Pending(s, o, x);
      assert RequestInv(s, o) && TokenInv(ttl, s, s.requests[o].r);
    }
  }

  lemma LoginKeepsInv(ttl: int, s: State, session: Id, jti: Id)
    requires Inv(ttl, s) && Enabled(ttl, s, Login(session, jti))
    ensures Inv(ttl, Apply(ttl, s, Login(session, jti)))
  {
    var t := Apply(ttl, s, Login(session, jti));
    var new' := Token(jti, session, s.now + ttl);
    assert TokenInv(ttl, s, new');
    assert new' !in s.delivered && Family(new') == session;
    forall o, x ensures Pending(t, o, x) ==> Pending(s, o, x) {}
    forall o, x ensures Signed(t, o, x) ==> Signed(s, o, x) {}
    forall o ensures RequestInv(t, o) {
      assert RequestInv(s, o);
    }
    forall o, x | Signed(s, o, x) ensures x.jti in s.minted {
      assert RequestInv(s, o);
    }
    forall x | Live(s, x) ensures Family(x) in s.minted {
      LiveFamilyIsMinted(ttl, s, x);
    }
    hide RequestInv;
    forall x ensures Live(t, x) ==> x == new' || Live(s, x) {
      hide Pending;
    }
    hide Pending, Signed, Live;
    forall x ensures TokenInv(ttl, t, x) && Ended(t, x) {
      assert TokenInv(ttl, s, x) && Ended(s, x);
    }
    hide Family;
    forall o, other, x, y ensures SignedApart(t, o, other, x, y) {
      assert SignedApart(s, o, other, x, y);
    }
    forall x, y ensures Apart(t, x, y) && OneLive(t, x, y) && SameExpiry(t, x, y) {
      assert Apart(s, x, y) && OneLive(s, x, y) && SameExpiry(s, x, y);
      assert TokenInv(ttl, s, x) && TokenInv(ttl, s, y);
    }
  }

  lemma EventKeepsInv(ttl: int, s: State, e: Event)
    requires Inv(ttl, s) && Enabled(ttl, s, e)
    ensures Inv(ttl, Apply(ttl, s, e))
  {
    hide Inv;
    match e
    case Tick(_) => TimeAndRevocationsKeepInv(ttl, s, e);
    case RevokeToken(_) => TimeAndRevocationsKeepInv(ttl, s, e);
    case RevokeSession(_, _, _) => TimeAndRevocationsKeepInv(ttl, s, e);
    case Present(_, _) => RequestEventsKeepInv(ttl, s, e);
    case CheckSession(_) => RequestEventsKeepInv(ttl, s, e);
    case CheckAgain(_) => RequestEventsKeepInv(ttl, s, e);
    case Abandon(_) => RequestEventsKeepInv(ttl, s, e);
    case Login(session, jti) => LoginKeepsInv(ttl, s, session, jti);
    case Issue(id, jti) => IssueKeepsInv(ttl, s, id, jti);
    case Consume(id, outcome) =>
      if outcome == Refused {
        RequestEventsKeepInv(ttl, s, Abandon(id));
      } else {
        ConsumeKeepsInv(ttl, s, id, outcome);
      }
    case Deliver(id) => DeliverKeepsInv(ttl, s, id);
  }

  lemma InitialInv(ttl: int, s: State)
    requires 0 < ttl && Initial(ttl, s)
    ensures Inv(ttl, s)
  {
    forall x ensures Live(s, x) ==> x in s.delivered {}
  }

  lemma {:induction false} RunKeepsInv(ttl: int, states: seq<State>, events: seq<Event>, k: nat)
    requires Run(ttl, states, events) && k < |states|
    ensures Inv(ttl, states[k])
  {
    hide Inv, Apply, Enabled, Initial;
    if k == 0 {
      InitialInv(ttl, states[0]);
    } else {
      RunKeepsInv(ttl, states, events, k - 1);
      EventKeepsInv(ttl, states[k - 1], events[k - 1]);
    }
  }

  // ------------------------------------------------------------------------ the theorems

  /** At no moment can two tokens of one session family be traded in. */
  lemma OneUsableToken(ttl: int, states: seq<State>, events: seq<Event>, k: nat, t: Token, u: Token)
    requires Run(ttl, states, events) && k < |states|
    requires Usable(states[k], t) && Usable(states[k], u)
    requires (if t.session != NO_ID then t.session else t.jti) == (if u.session != NO_ID then u.session else u.jti)
    ensures t == u
  {
    RunKeepsInv(ttl, states, events, k);
    SpentOnce(ttl, states[k], t);
    SpentOnce(ttl, states[k], u);
    assert OneLive(states[k], t, u);
    hide Run, Inv;
  }

  /** Rotation never extends a session: all tokens of a family ever handed out expire together. */
  lemma ExpiryIsFixed(ttl: int, states: seq<State>, events: seq<Event>, i: nat, j: nat, t: Token, u: Token)
    requires Run(ttl, states, events) && i <= j < |states|
    requires t in states[i].delivered && u in states[j].delivered
    requires (if t.session != NO_ID then t.session else t.jti) == (if u.session != NO_ID then u.session else u.jti)
    ensures t.exp == u.exp
  {
    RunKeepsInv(ttl, states, events, j);
    HistoryStays(ttl, states, events, i, j);
    assert SameExpiry(states[j], t, u);
    hide Run, Inv;
  }

  lemma EventKeepsHistory(ttl: int, s: State, e: Event)
    requires Enabled(ttl, s, e)
    ensures var t := Apply(ttl, s, e); s.delivered <= t.delivered && s.ended <= t.ended && s.now <= t.now
  {
  }

  lemma {:induction false} HistoryStays(ttl: int, states: seq<State>, events: seq<Event>, i: nat, j: nat)
    requires Run(ttl, states, events) && i <= j < |states|
    ensures states[i].delivered <= states[j].delivered && states[i].ended <= states[j].ended
    ensures states[i].now <= states[j].now
    decreases j
  {
    hide Apply, Enabled;
    if i < j {
      HistoryStays(ttl, states, events, i, j - 1);
      EventKeepsHistory(ttl, states[j - 1], events[j - 1]);
    }
  }

  // ---------------------------------------------------------------------- revocation

  /** Tokens of the family handed out or cleared since `s`, when it was revoked, were cleared before. */
  ghost predicate NothingNew(s: State, later: State, t: Token) {
    && (t in later.delivered && t !in s.delivered ==> ClearedIn(s, t))
    && (ClearedIn(later, t) ==> ClearedIn(s, t))
  }

  ghost predicate ClearedIn(s: State, t: Token) {
    exists id :: id in s.requests && s.requests[id].Cleared? && s.requests[id].next == t
  }

  /** No event clears or hands out a token of a family whose revocation was confirmed. */
  lemma EndedFamilyIsStuck(ttl: int, s: State, e: Event, t: Token)
    requires Inv(ttl, s) && Enabled(ttl, s, e) && Family(t) in s.ended && s.now < t.exp
    ensures NothingNew(s, Apply(ttl, s, e), t)
  {
    var after := Apply(ttl, s, e);
    if e.CheckAgain? {
      assert s.requests[e.id].next != t by {
        var r := s.requests[e.id].r;
        assert RequestInv(s, e.id) && TokenInv(ttl, s, r) && Ended(s, r);
      }
    }
    if e.Login? {
      assert Family(Token(e.jti, e.session, s.now + ttl)) == e.session;
    }
    forall id | id in after.requests && after.requests[id].Cleared? && after.requests[id].next == t
      ensures id in s.requests && s.requests[id] == after.requests[id]
    {
    }
  }

  /** Once a revocation is confirmed, only responses already cleared by then can still carry a live token. */
  lemma {:induction false} RevocationHolds(
    ttl: int, states: seq<State>, events: seq<Event>, i: nat, j: nat, t: Token)
    requires Run(ttl, states, events) && i <= j < |states|
    requires (if t.session != NO_ID then t.session else t.jti) in states[i].ended && states[j].now < t.exp
    ensures NothingNew(states[i], states[j], t)
    decreases j
  {
    hide Inv, ClearedIn, Apply, Enabled, Initial;
    if i < j {
      HistoryStays(ttl, states, events, j - 1, j);
      HistoryStays(ttl, states, events, i, j - 1);
      RunKeepsInv(ttl, states, events, j - 1);
      RevocationHolds(ttl, states, events, i, j - 1, t);
      EndedFamilyIsStuck(ttl, states[j - 1], events[j - 1], t);
      hide Run;
    }
  }

  /** And that token cannot be traded in: the session check of its request does not pass. */
  lemma RevokedTokenIsUseless(ttl: int, states: seq<State>, events: seq<Event>, k: nat, id: nat)
    requires Run(ttl, states, events) && k < |states| && id in states[k].requests
    requires var r := states[k].requests[id].r;
      (if r.session != NO_ID then r.session else r.jti) in states[k].ended && states[k].now < r.exp
    ensures !Enabled(ttl, states[k], CheckSession(id)) && !Enabled(ttl, states[k], CheckAgain(id))
  {
    RunKeepsInv(ttl, states, events, k);
    assert RequestInv(states[k], id) && Ended(states[k], states[k].requests[id].r);
    hide Run, Inv;
  }

  // ------------------------------------------------------------------------- progress

  /** One step of a request that nothing disturbs. */
  ghost predicate Step(ttl: int, s: State, e: Event, t: State) {
    Enabled(ttl, s, e) && t == Apply(ttl, s, e)
  }

  /**
   * A usable token of a session that is not revoked can be traded in: its request goes through
   * all six steps, at the end of which the new token is usable, keeps session and expiry, and
   * the old one is spent.
   */
  lemma LoneRefreshSucceeds(ttl: int, s: State, t: Token, id: nat, jti: Id) returns (states: seq<State>, events: seq<Event>)
    requires Usable(s, t) && t.jti in s.minted && t.jti != NO_ID && id !in s.requests
    requires Unused(s, jti) && jti !in s.denied
    requires !Listed(s.revoked, if t.session != NO_ID then t.session else t.jti, s.now)
    ensures |states| == |events| + 1 && states[0] == s
    ensures forall i | 0 <= i < |events| :: Step(ttl, states[i], events[i], states[i + 1])
    ensures var end := states[|events|];
      var next := Token(jti, if t.session != NO_ID then t.session else t.jti, t.exp);
      end.now == s.now && end.requests == s.requests && Usable(end, next) && !Usable(end, t)
  {
    var next := Token(jti, if t.session != NO_ID then t.session else t.jti, t.exp);
    var s1, s2, s3 := LoneIssue(ttl, s, t, next, id);
    var s4, s5, s6 := LoneTrade(ttl, s3, t, next, id);
    events := [Present(id, t), CheckSession(id), Issue(id, jti), Consume(id, Added), CheckAgain(id), Deliver(id)];
    states := [s, s1, s2, s3, s4, s5, s6];
    assert s6.requests == s.requests;
    hide Step, Apply, Enabled;
  }

  lemma LoneIssue(ttl: int, s: State, t: Token, next: Token, id: nat) returns (s1: State, s2: State, s3: State)
    requires Usable(s, t) && t.jti != NO_ID && id !in s.requests && Unused(s, next.jti)
    requires next == Token(next.jti, if t.session != NO_ID then t.session else t.jti, t.exp)
    requires !Listed(s.revoked, next.session, s.now)
    ensures Step(ttl, s, Present(id, t), s1) && Step(ttl, s1, CheckSession(id), s2) && Step(ttl, s2, Issue(id, next.jti), s3)
    ensures s3 == s.(requests := s.requests[id := Issued(t, next)], minted := s.minted + {next.jti})
  {
    hide Listed;
    s1 := s.(requests := s.requests[id := Presented(t)]);
    s2 := s.(requests := s1.requests[id := Checked(t)]);
    s3 := s.(requests := s2.requests[id := Issued(t, next)], minted := s.minted + {next.jti});
    assert s3.requests == s.requests[id := Issued(t, next)];
  }

  lemma LoneTrade(ttl: int, s: State, t: Token, next: Token, id: nat) returns (s4: State, s5: State, s6: State)
    requires id in s.requests && s.requests[id] == Issued(t, next) && s.now < t.exp
    requires !Listed(s.denied, t.jti, s.now)
    requires !Listed(s.revoked, if t.session != NO_ID then t.session else t.jti, s.now)
    ensures Step(ttl, s, Consume(id, Added), s4) && Step(ttl, s4, CheckAgain(id), s5) && Step(ttl, s5, Deliver(id), s6)
    ensures s6 == s.(requests := s.requests - {id}, denied := s.denied[t.jti := t.exp],
                     consumed := s.consumed + {t}, delivered := s.delivered + {next})
  {
    hide Listed;
    s4 := s.(requests := s.requests[id := Won(t, next)], denied := s.denied[t.jti := t.exp], consumed := s.consumed + {t});
    s5 := s4.(requests := s4.requests[id := Cleared(t, next)]);
    s6 := s5.(requests := s5.requests - {id}, delivered := s.delivered + {next});
    assert s6.requests == s.requests - {id};
  }
}
