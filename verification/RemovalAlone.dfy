/** What a removal that runs alone makes of the derived objects: exactly when they agree afterwards. */
module RemovalAlone {
  import opened Collections
  import opened Packages
  import opened RepoTransactions
  import opened RepoTransactionProofs
  import opened DerivedAgreement

  /** A removal is the only transaction, and every one of its calls works. */
  ghost predicate Alone(events: seq<Event>, id: nat, m: Mutation) {
    && m.Remove? && events != [] && events[0] == Begin(id, Writing(m))
    && forall k | 0 < k < |events| :: events[k].Step? && events[k].id == id && events[k].reply.fate.Works?
  }

  predicate Listed(sh: Shared, name: string) {
    sh.canonical.Some? && name in sh.canonical.value.content.pkgs
  }

  function ContentOf(o: Option<Stored<Derived>>): Option<Derived> {
    if o.Some? then Some(o.value.content) else None
  }

  function Contents(sh: Shared): seq<Option<Derived>> {
    seq(|sh.derived|, i requires 0 <= i < |sh.derived| => ContentOf(sh.derived[i]))
  }

  lemma AgreeIsBuilt(sh: Shared)
    requires sh.canonical.Some?
    ensures AllAgree(sh) <==> Contents(sh) == BuiltFrom(sh.canonical.value.content, |sh.derived|)
  {
    var built := BuiltFrom(sh.canonical.value.content, |sh.derived|);
    if AllAgree(sh) {
      forall i | 0 <= i < |sh.derived| ensures Contents(sh)[i] == built[i] {
        assert Agrees(sh, i);
      }
    } else {
      var i :| 0 <= i < |sh.derived| && !Agrees(sh, i);
      assert Contents(sh)[i] != built[i];
    }
  }

  // ------------------------------------------------------------- nothing to remove

  /** Whatever the calls do, a removal that finds nothing moves the same contents around. */
  predicate Idles(local: Archive, derived: seq<Option<Derived>>, m: Mutation, sh: Shared, a: Actor) {
    && a.task == Writing(m) && m.Remove? && m.name !in local.pkgs
    && sh.canonical.Some? && sh.canonical.value.content == local && Contents(sh) == derived
    && (a.pc.FetchCanonical? ==> a.fetched == [])
    && (a.pc.FetchDerived? || a.pc.Prepare? || a.pc.CommitCanonical? ==>
         a.snapshot.Some? && a.snapshot.value.content == local)
    && (a.pc.FetchDerived? ==> a.pc.i <= |derived| && a.fetched == derived[..a.pc.i])
    && (a.pc.Prepare? ==> a.fetched == derived)
    && (a.pc.CommitCanonical? || Publishing(a.pc) ==> a.local == local && a.localDerived == derived)
  }

  lemma FetchIdles(local: Archive, derived: seq<Option<Derived>>, m: Mutation, sh: Shared, a: Actor, r: Reply)
    requires Idles(local, derived, m, sh, a) && (a.pc.FetchCanonical? || a.pc.FetchDerived?)
    ensures Idles(local, derived, m, sh, Fetch(sh, a, r))
  {
    assert derived[..|derived|] == derived;
    if a.pc.FetchDerived? && a.pc.i < |derived| {
      assert derived[..a.pc.i + 1] == derived[..a.pc.i] + [derived[a.pc.i]];
    }
  }

  lemma TroubleIdles(local: Archive, derived: seq<Option<Derived>>, m: Mutation, sh: Shared, a: Actor, conflict: bool)
    requires Idles(local, derived, m, sh, a)
    ensures Idles(local, derived, m, sh, Retry(a)) && Idles(local, derived, m, sh, DerivedTrouble(a, conflict))
    ensures Idles(local, derived, m, sh, Retry(a.(marked := true)))
  {
  }

  lemma CommitIdles(local: Archive, derived: seq<Option<Derived>>, m: Mutation, sh: Shared, id: nat, a: Actor, r: Reply)
    requires Idles(local, derived, m, sh, a) && a.pc.CommitCanonical?
    ensures var (sh', a') := CommitDatabase(sh, id, a, r); Idles(local, derived, m, sh', a')
  {
    var (sh', a') := CommitDatabase(sh, id, a, r);
    assert Contents(sh') == Contents(sh);
    TroubleIdles(local, derived, m, sh, a, true);
    TroubleIdles(local, derived, m, sh', a, true);
    AdvanceFrame(a, 0);
    hide Retry, Advance, Contents;
  }

  lemma PublishIdles(local: Archive, derived: seq<Option<Derived>>, m: Mutation, sh: Shared, a: Actor, i: nat, r: Reply)
    requires Idles(local, derived, m, sh, a) && a.pc == StoreDerived(i)
    ensures var (sh', a') := PublishDerived(sh, a, i, r); Idles(local, derived, m, sh', a')
  {
    var (sh', a') := PublishDerived(sh, a, i, r);
    assert Contents(sh') == Contents(sh);
    TroubleIdles(local, derived, m, sh, a, true);
    TroubleIdles(local, derived, m, sh, a, false);
    AdvanceFrame(a, i + 1);
    hide DerivedTrouble, Advance, Contents;
  }

  lemma LookIdles(local: Archive, derived: seq<Option<Derived>>, m: Mutation, sh: Shared, a: Actor, r: Reply)
    requires Idles(local, derived, m, sh, a) && (a.pc.CheckLive? || a.pc.ReadEtag? || a.pc.FinalCheck?)
    ensures Idles(local, derived, m, sh, Look(sh, a, r))
  {
    TroubleIdles(local, derived, m, sh, a, true);
    TroubleIdles(local, derived, m, sh, a, false);
    hide DerivedTrouble, Contents;
  }

  lemma PrepareIdles(local: Archive, derived: seq<Option<Derived>>, m: Mutation, sh: Shared, a: Actor, r: Reply)
    requires Idles(local, derived, m, sh, a) && a.pc.Prepare?
    ensures Idles(local, derived, m, sh, PrepareLocally(a, |sh.derived|, r))
  {
    hide Contents;
  }

  lemma ActIdles(local: Archive, derived: seq<Option<Derived>>, m: Mutation, sh: Shared, id: nat, a: Actor, r: Reply)
    requires Idles(local, derived, m, sh, a)
    ensures var (sh', a') := Act(sh, id, a, r); Idles(local, derived, m, sh', a')
  {
    match a.pc {
      case FetchCanonical => FetchIdles(local, derived, m, sh, a, r);
      case FetchDerived(_) => FetchIdles(local, derived, m, sh, a, r);
      case Prepare => PrepareIdles(local, derived, m, sh, a, r);
      case CommitCanonical => CommitIdles(local, derived, m, sh, id, a, r);
      case StoreDerived(i) => PublishIdles(local, derived, m, sh, a, i, r);
      case CheckLive(_) => LookIdles(local, derived, m, sh, a, r);
      case ReadEtag(_) => LookIdles(local, derived, m, sh, a, r);
      case FinalCheck => LookIdles(local, derived, m, sh, a, r);
      case _ =>
    }
    hide Fetch, PrepareLocally, CommitDatabase, PublishDerived, Look;
    if a.pc.CommitCanonical? {
      assert a.task.Writing?;
    }
    hide Idles;
  }

  // ------------------------------------------------------------ something to remove

  /** With all calls working and nobody else around, each attempt is the last one. */
  predicate Removes(start: Shared, m: Mutation, sh: Shared, a: Actor) {
    && a.task == Writing(m) && m.Remove? && Listed(start, m.name)
    && (a.pc.FetchCanonical? || a.pc.FetchDerived? || a.pc.Prepare? || a.pc.CommitCanonical? ==>
         sh.canonical == start.canonical)
    && (a.pc.FetchDerived? || a.pc.Prepare? || a.pc.CommitCanonical? ==> a.snapshot == start.canonical)
    && (a.pc.CommitCanonical? || Publishing(a.pc) ==> a.localDerived == BuiltFrom(a.local, |sh.derived|))
    && (Publishing(a.pc) ==> LiveMatches(sh, a.local))
    && (a.pc.CheckLive? || a.pc.ReadEtag? || a.pc.StoreDerived? ==> a.pc.i < |sh.derived|)
    && (a.pc.StoreDerived? ==> a.seenEtag == EtagOf(sh.derived[a.pc.i]))
  }

  lemma AdvanceInside(a: Actor, i: nat)
    requires i <= |a.localDerived| && forall j | 0 <= j < |a.localDerived| :: a.localDerived[j].Some?
    ensures Advance(a, i).pc == if i < |a.localDerived| then CheckLive(i) else FinalCheck
  {
  }

  lemma ActRemoves(start: Shared, m: Mutation, sh: Shared, id: nat, a: Actor, r: Reply)
    requires Removes(start, m, sh, a) && r.fate.Works?
    ensures var (sh', a') := Act(sh, id, a, r); Removes(start, m, sh', a')
  {
    if a.pc.CommitCanonical? {
      AdvanceFrame(a, 0);
      AdvanceInside(a, 0);
      hide Advance;
    } else if a.pc.StoreDerived? {
      AdvanceFrame(a, a.pc.i + 1);
      AdvanceInside(a, a.pc.i + 1);
      hide Advance;
    } else {
      hide Advance;
    }
  }

  // ---------------------------------------------------------------- the exact condition

  lemma OnlyOneActor(states: seq<State>, events: seq<Event>, id: nat, m: Mutation, k: nat)
    requires Run(states, events) && Alone(events, id, m) && 0 < k <= |events|
    ensures id in states[k].actors && states[k].actors.Keys == {id}
    decreases k
  {
    hide Act;
    assert states[k] == Next(states[k - 1], events[k - 1]);
    if k > 1 {
      OnlyOneActor(states, events, id, m, k - 1);
    }
  }

  lemma {:induction false} RunIdles(states: seq<State>, events: seq<Event>, id: nat, m: Mutation, k: nat)
    requires Run(states, events) && Alone(events, id, m) && 0 < k <= |events|
    requires states[0].shared.canonical.Some? && !Listed(states[0].shared, m.name)
    ensures id in states[k].actors
    ensures Idles(states[0].shared.canonical.value.content, Contents(states[0].shared), m, states[k].shared, states[k].actors[id])
    decreases k
  {
    hide Act;
    assert Allowed(states[k - 1], events[k - 1]) && states[k] == Next(states[k - 1], events[k - 1]);
    if k > 1 {
      hide Idles;
      RunIdles(states, events, id, m, k - 1);
      ActIdles(states[0].shared.canonical.value.content, Contents(states[0].shared), m,
               states[k - 1].shared, id, states[k - 1].actors[id], events[k - 1].reply);
    }
  }

  lemma {:induction false} RunRemoves(states: seq<State>, events: seq<Event>, id: nat, m: Mutation, k: nat)
    requires Run(states, events) && Alone(events, id, m) && 0 < k <= |events|
    requires Listed(states[0].shared, m.name)
    ensures id in states[k].actors && Removes(states[0].shared, m, states[k].shared, states[k].actors[id])
    decreases k
  {
    hide Act;
    assert Allowed(states[k - 1], events[k - 1]) && states[k] == Next(states[k - 1], events[k - 1]);
    if k > 1 {
      hide Removes;
      RunRemoves(states, events, id, m, k - 1);
      ActRemoves(states[0].shared, m, states[k - 1].shared, id, states[k - 1].actors[id], events[k - 1].reply);
    }
  }

  lemma ListedIsNotStale(states: seq<State>, events: seq<Event>, id: nat, m: Mutation)
    requires Run(states, events) && Alone(events, id, m) && Listed(states[0].shared, m.name)
    ensures forall j | 0 <= j < |events| :: !StaleRemoval(states[j], events[j])
  {
    forall j | 0 <= j < |events| ensures !StaleRemoval(states[j], events[j]) {
      if j > 0 {
        RunRemoves(states, events, id, m, j);
      }
      hide Run, BuiltFrom;
    }
  }

  /**
   * A removal that runs alone on an initialised architecture, with every call working, and
   * returns success leaves all derived objects in agreement with the database if and only
   * if the package was listed or they all agreed before.
   */
  lemma RemovalAloneAgrees(states: seq<State>, events: seq<Event>, id: nat, m: Mutation)
    requires Run(states, events) && Alone(events, id, m) && states[0].shared.canonical.Some?
    requires id in states[|events|].actors && states[|events|].actors[id].pc.Succeeded?
    ensures AllAgree(states[|events|].shared)
       <==> Listed(states[0].shared, m.name) || AllAgree(states[0].shared)
  {
    var start, end := states[0].shared, states[|events|].shared;
    if Listed(start, m.name) {
      OnlyOneActor(states, events, id, m, |events|);
      ListedIsNotStale(states, events, id, m);
      hide Run, StaleRemoval, Alone;
      DerivedAgreeAtQuiescence(states, events);
    } else {
      RunIdles(states, events, id, m, |events|);
      AgreeIsBuilt(start);
      AgreeIsBuilt(end);
      assert |Contents(start)| == |start.derived| && |Contents(end)| == |end.derived|;
      hide Run, Contents, BuiltFrom, AllAgree;
    }
  }
}
