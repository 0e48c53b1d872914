/** Derived artifacts agree with the canonical database once every transaction
    has succeeded, even though stale writers may overwrite newer artifacts. */
module DerivedAgreement {
  import opened Collections
  import opened Packages
  import opened RepoTransactions
  import opened RepoTransactionProofs

  /** The `i`-th derived object is the one built from the current canonical archive. */
  predicate Agrees(sh: Shared, i: nat) {
    && i < |sh.derived| && sh.canonical.Some? && sh.derived[i].Some?
    && sh.derived[i].value.content == Derived(i, sh.canonical.value.content)
  }

  /** Every derived object is. */
  ghost predicate AllAgree(sh: Shared) {
    forall i | 0 <= i < |sh.derived| :: Agrees(sh, i)
  }

  /** How many derived artifacts the current attempt has already published. */
  function Position(a: Actor): nat {
    match a.pc
    case CheckLive(i) => i
    case ReadEtag(i) => i
    case StoreDerived(i) => i
    case FinalCheck => |a.localDerived|
    case _ => 0
  }

  /** If `a` is to succeed it must still write the `i`-th derived artifact, in
      this attempt or, since its snapshot is no longer live, in a later one. */
  predicate Owes(sh: Shared, a: Actor, i: nat) {
    Active(a) && !(Publishing(a.pc) && LiveMatches(sh, a.local) && i < Position(a))
  }

  /** The working directory holds exactly what the tool built from its database. */
  ghost predicate ToolRan(sh: Shared, a: Actor) {
    && (Publishing(a.pc) || a.pc.CommitCanonical? ==> a.localDerived == BuiltFrom(a.local, |sh.derived|))
    && (a.pc.FetchDerived? || a.pc.Prepare? ==> a.snapshot.Some?)
  }

  ghost predicate SomeFailed(actors: map<nat, Actor>) {
    exists id :: id in actors && actors[id].pc.Failed?
  }

  ghost predicate SomeOwes(st: State, i: nat) {
    exists id :: id in st.actors && Owes(st.shared, st.actors[id], i)
  }

  ghost predicate EachAgreesOrIsOwed(st: State) {
    forall i: nat | i < |st.shared.derived| :: Agrees(st.shared, i) || SomeOwes(st, i)
  }

  ghost predicate AgreementInv(st: State) {
    && st.shared.canonical.Some?
    && (forall id | id in st.actors :: ToolRan(st.shared, st.actors[id]))
    && (st.actors == map[] || SomeFailed(st.actors) || EachAgreesOrIsOwed(st))
  }

  /** A writer is about to recommit, unchanged, archives it fetched that were not
      built from the database it fetched: a removal found nothing to remove. */
  predicate KeepsStale(sh: Shared, a: Actor) {
    && a.pc.Prepare? && a.task.Writing? && a.snapshot.Some?
    && Mutate(a.task.mutation, Pkgs(a.snapshot)).Untouched?
    && a.fetched != BuiltFrom(a.snapshot.value.content, |sh.derived|)
  }

  predicate StaleRemoval(st: State, e: Event) {
    e.Step? && e.id in st.actors && KeepsStale(st.shared, st.actors[e.id])
  }

  // ------------------------------------------------------------ a single step

  lemma AdvanceBuilt(a: Actor, i: nat)
    requires i <= |a.localDerived| && forall j | 0 <= j < |a.localDerived| :: a.localDerived[j].Some?
    ensures Publishing(Advance(a, i).pc) && Position(Advance(a, i)) == i
    ensures var r := Advance(a, i); r == a.(pc := r.pc, derivedAttempt := r.derivedAttempt)
  {
  }

  /** After trouble a transaction starts over or has failed; either way it has
      no published artifact to its credit. */
  predicate StartsOver(a: Actor) {
    a.pc.FetchCanonical? || a.pc.Failed?
  }

  lemma TroubleStartsOver(a: Actor, conflict: bool)
    ensures StartsOver(Retry(a)) && StartsOver(DerivedTrouble(a, conflict))
  {
  }

  /** What one step of a transaction means for the `i`-th derived artifact. */
  ghost predicate StepIsSafe(sh: Shared, a: Actor, sh': Shared, a': Actor) {
    && sh'.canonical.Some? && |sh'.derived| == |sh.derived|
    && ToolRan(sh', a')
    && (sh'.canonical != sh.canonical ==>
          StartsOver(a') || (Publishing(a'.pc) && Position(a') == 0))
    && forall i: nat | i < |sh.derived| ::
         || a'.pc.Failed?
         || Owes(sh', a', i)
         || Agrees(sh', i)
         || (!Owes(sh, a, i) && sh'.canonical == sh.canonical && sh'.derived[i] == sh.derived[i])
  }

  lemma FetchIsSafe(sh: Shared, a: Actor, r: Reply)
    requires sh.canonical.Some? && ToolRan(sh, a) && (a.pc.FetchCanonical? || a.pc.FetchDerived?)
    ensures StepIsSafe(sh, a, sh, Fetch(sh, a, r))
  {
  }

  lemma PrepareIsSafe(sh: Shared, a: Actor, r: Reply)
    requires sh.canonical.Some? && ToolRan(sh, a) && a.pc.Prepare?
    requires !KeepsStale(sh, a)
    ensures StepIsSafe(sh, a, sh, PrepareLocally(a, |sh.derived|, r))
  {
    hide Mutate;
    if a.task.Reconciling? && r.fate.Works? {
      AdvanceBuilt(a.(local := a.snapshot.value.content,
                      localDerived := BuiltFrom(a.snapshot.value.content, |sh.derived|)), 0);
    }
  }

  lemma CommitIsSafe(sh: Shared, id: nat, a: Actor, r: Reply)
    requires sh.canonical.Some? && ToolRan(sh, a) && a.pc.CommitCanonical? && a.task.Writing?
    ensures var (sh', a') := CommitDatabase(sh, id, a, r); StepIsSafe(sh, a, sh', a')
  {
    AdvanceBuilt(a, 0);
    TroubleStartsOver(a, true);
    TroubleStartsOver(a.(marked := true), true);
    hide Retry, Advance;
  }

  lemma LookIsSafe(sh: Shared, a: Actor, r: Reply)
    requires sh.canonical.Some? && ToolRan(sh, a) && (a.pc.CheckLive? || a.pc.ReadEtag? || a.pc.FinalCheck?)
    ensures StepIsSafe(sh, a, sh, Look(sh, a, r))
  {
    TroubleStartsOver(a, true);
    TroubleStartsOver(a, false);
    hide DerivedTrouble;
  }

  /** Whatever was written, a transaction that starts over is safe. */
  lemma StartingOverIsSafe(sh: Shared, a: Actor, sh': Shared, a': Actor)
    requires sh.canonical.Some? && sh'.canonical == sh.canonical && |sh'.derived| == |sh.derived| && StartsOver(a')
    ensures StepIsSafe(sh, a, sh', a')
  {
  }

  /** Checking the live database again, and everything from there on, stays owed. */
  lemma CheckingAgainIsSafe(sh: Shared, a: Actor, i: nat)
    requires sh.canonical.Some? && ToolRan(sh, a) && a.pc == StoreDerived(i)
    ensures StepIsSafe(sh, a, sh, a.(pc := CheckLive(i), derivedAttempt := a.derivedAttempt + 1))
  {
  }

  lemma WritingIsSafe(sh: Shared, a: Actor, i: nat, etag: nat)
    requires sh.canonical.Some? && ToolRan(sh, a) && a.pc == StoreDerived(i)
    requires i < |sh.derived| && i < |a.localDerived| && a.localDerived[i].Some?
    ensures var sh' := sh.(derived := sh.derived[i := Some(Stored(a.localDerived[i].value, etag))]);
      StepIsSafe(sh, a, sh', Advance(a, i + 1))
  {
    AdvanceBuilt(a, i + 1);
    hide Advance;
  }

  lemma PublishIsSafe(sh: Shared, a: Actor, i: nat, r: Reply)
    requires sh.canonical.Some? && ToolRan(sh, a) && a.pc == StoreDerived(i)
    ensures var (sh', a') := PublishDerived(sh, a, i, r); StepIsSafe(sh, a, sh', a')
  {
    hide DerivedTrouble, Advance, StepIsSafe, ToolRan, StartsOver;
    var (sh', a') := PublishDerived(sh, a, i, r);
    TroubleStartsOver(a, true);
    TroubleStartsOver(a, false);
    StartingOverIsSafe(sh, a, sh', DerivedTrouble(a, true));
    StartingOverIsSafe(sh, a, sh', DerivedTrouble(a, false));
    CheckingAgainIsSafe(sh, a, i);
    if i < |sh.derived| && i < |a.localDerived| && a.localDerived[i].Some? {
      WritingIsSafe(sh, a, i, r.etag);
    }
  }

  lemma ActIsSafe(sh: Shared, id: nat, a: Actor, r: Reply)
    requires sh.canonical.Some? && ToolRan(sh, a)
    requires a.pc.CommitCanonical? ==> a.task.Writing?
    requires !KeepsStale(sh, a)
    ensures var (sh', a') := Act(sh, id, a, r); StepIsSafe(sh, a, sh', a')
  {
    match a.pc {
      case FetchCanonical => FetchIsSafe(sh, a, r);
      case FetchDerived(_) => FetchIsSafe(sh, a, r);
      case Prepare => PrepareIsSafe(sh, a, r);
      case CommitCanonical => CommitIsSafe(sh, id, a, r);
      case StoreDerived(i) => PublishIsSafe(sh, a, i, r);
      case CheckLive(_) => LookIsSafe(sh, a, r);
      case ReadEtag(_) => LookIsSafe(sh, a, r);
      case FinalCheck => LookIsSafe(sh, a, r);
      case _ =>
    }
    hide Fetch, PrepareLocally, CommitDatabase, PublishDerived, Look, StepIsSafe, Mutate, KeepsStale;
  }

  // --------------------------------------------------------------- whole runs

  lemma OtherDebtsStay(sh: Shared, sh': Shared, a: Actor, i: nat)
    requires Owes(sh, a, i) && sh'.canonical == sh.canonical
    ensures Owes(sh', a, i)
  {
  }

  lemma StepKeepsAgreement(st: State, id: nat, r: Reply)
    requires AgreementInv(st) && id in st.actors
    requires st.actors[id].pc.CommitCanonical? ==> st.actors[id].task.Writing?
    requires Allowed(st, Step(id, r)) && !StaleRemoval(st, Step(id, r))
    ensures AgreementInv(Next(st, Step(id, r)))
  {
    var e := Step(id, r);
    var sh, a, st' := st.shared, st.actors[id], Next(st, e);
    ActIsSafe(sh, id, a, r);
    hide Act, Owes, Agrees, Mutate, KeepsStale;
    if !SomeFailed(st'.actors) {
      FailureStays(st, id, r);
      assert id in st'.actors && !st'.actors[id].pc.Failed?;
      forall i: nat | i < |st'.shared.derived| ensures Agrees(st'.shared, i) || SomeOwes(st', i) {
        StepKeepsOneAgreement(st, id, r, i);
      }
    }
  }

  lemma FailureStays(st: State, id: nat, r: Reply)
    requires id in st.actors && Allowed(st, Step(id, r))
    ensures SomeFailed(st.actors) ==> SomeFailed(Next(st, Step(id, r)).actors)
  {
    hide Fetch, PrepareLocally, CommitDatabase, PublishDerived, Look;
    if SomeFailed(st.actors) {
      var f :| f in st.actors && st.actors[f].pc.Failed?;
      var actors' := Next(st, Step(id, r)).actors;
      assert f in actors' && actors'[f] == st.actors[f];
    }
  }

  lemma StepKeepsOneAgreement(st: State, id: nat, r: Reply, i: nat)
    requires id in st.actors && Allowed(st, Step(id, r))
    requires var (sh', a') := Act(st.shared, id, st.actors[id], r);
      StepIsSafe(st.shared, st.actors[id], sh', a') && !a'.pc.Failed?
    requires i < |st.shared.derived| && (Agrees(st.shared, i) || SomeOwes(st, i))
    ensures Agrees(Next(st, Step(id, r)).shared, i) || SomeOwes(Next(st, Step(id, r)), i)
  {
    var st' := Next(st, Step(id, r));
    var sh, sh', a, a' := st.shared, st'.shared, st.actors[id], st'.actors[id];
    hide Act;
    if Owes(sh', a', i) {
      assert SomeOwes(st', i);
    } else if !Agrees(sh', i) {
      assert !Owes(sh, a, i) && sh'.canonical == sh.canonical && sh'.derived[i] == sh.derived[i];
      var w :| w in st.actors && Owes(sh, st.actors[w], i);
      OtherDebtsStay(sh, sh', st.actors[w], i);
      assert w != id && w in st'.actors && st'.actors[w] == st.actors[w];
      assert SomeOwes(st', i);
    }
  }

  lemma BeginKeepsAgreement(st: State, id: nat, task: Task)
    requires AgreementInv(st) && Allowed(st, Begin(id, task))
    ensures AgreementInv(Next(st, Begin(id, task)))
  {
    var st' := Next(st, Begin(id, task));
    forall i: nat | i < |st'.shared.derived| ensures SomeOwes(st', i) {
      assert Owes(st'.shared, st'.actors[id], i);
    }
  }

  lemma {:induction false} RunKeepsAgreement(states: seq<State>, events: seq<Event>, k: nat)
    requires Run(states, events) && k <= |events|
    requires states[0].shared.canonical.Some?
    requires forall j | 0 <= j < |events| :: !StaleRemoval(states[j], events[j])
    ensures AgreementInv(states[k])
  {
    if k > 0 {
      RunKeepsAgreement(states, events, k - 1);
      match events[k - 1] {
        case Begin(id, task) => BeginKeepsAgreement(states[k - 1], id, task);
        case Step(id, r) =>
          RunKeepsInv(states, events, k - 1);
          hide AgreementInv, Fold, Effect;
          assert ActorInv(Pkgs(states[0].shared.canonical), states[k - 1].shared, id, states[k - 1].actors[id]);
          StepKeepsAgreement(states[k - 1], id, r);
      }
    }
  }

  /** On an initialised architecture, whatever the derived objects were before:
      once at least one transaction has run and all have returned success, every
      derived object is the one built from the final canonical database. */
  lemma DerivedAgreeAtQuiescence(states: seq<State>, events: seq<Event>)
    requires Run(states, events) && states[0].shared.canonical.Some?
    requires forall j | 0 <= j < |events| :: !StaleRemoval(states[j], events[j])
    requires states[|events|].actors != map[]
    requires forall id | id in states[|events|].actors :: states[|events|].actors[id].pc.Succeeded?
    ensures AllAgree(states[|events|].shared)
  {
    RunKeepsAgreement(states, events, |events|);
  }

  // ---------------------------------------------------- after the last failure

  lemma {:induction false} FailedStays(states: seq<State>, events: seq<Event>, id: nat, i: nat, k: nat)
    requires Run(states, events) && i <= k <= |events|
    requires id in states[i].actors && states[i].actors[id].pc.Failed?
    ensures id in states[k].actors && states[k].actors[id] == states[i].actors[id]
    decreases k
  {
    if i < k {
      FailedStays(states, events, id, i, k - 1);
      hide Fetch, PrepareLocally, CommitDatabase, PublishDerived, Look, Initial;
      assert states[k] == Next(states[k - 1], events[k - 1]);
    }
  }

  /** Every transaction that has failed in the end had returned before event `b`. */
  ghost predicate LastFailureBefore(states: seq<State>, events: seq<Event>, b: nat)
    requires |states| == |events| + 1 && b < |events|
  {
    forall id | id in states[|events|].actors && states[|events|].actors[id].pc.Failed? ::
      id in states[b].actors && states[b].actors[id].pc.Failed?
  }

  lemma StepKeepsDebts(st: State, id: nat, r: Reply)
    requires EachAgreesOrIsOwed(st) && AgreementInv(st) && id in st.actors
    requires st.actors[id].pc.CommitCanonical? ==> st.actors[id].task.Writing?
    requires Allowed(st, Step(id, r)) && !StaleRemoval(st, Step(id, r))
    requires Act(st.shared, id, st.actors[id], r).1.pc.Failed? ==> st.actors[id].pc.Failed?
    ensures EachAgreesOrIsOwed(Next(st, Step(id, r)))
  {
    var st' := Next(st, Step(id, r));
    if st.actors[id].pc.Failed? {
      assert st'.actors == st.actors;
    } else {
      ActIsSafe(st.shared, id, st.actors[id], r);
      hide Act, Owes, Agrees, KeepsStale;
      forall i: nat | i < |st'.shared.derived| ensures Agrees(st'.shared, i) || SomeOwes(st', i) {
        StepKeepsOneAgreement(st, id, r, i);
      }
    }
  }

  lemma BeginOwesAll(st: State, id: nat, task: Task)
    requires Allowed(st, Begin(id, task))
    ensures EachAgreesOrIsOwed(Next(st, Begin(id, task)))
  {
    var st' := Next(st, Begin(id, task));
    forall i: nat | i < |st'.shared.derived| ensures SomeOwes(st', i) {
      assert Owes(st'.shared, st'.actors[id], i);
    }
  }

  lemma {:induction false} DebtsAfterBegin(states: seq<State>, events: seq<Event>, b: nat, k: nat)
    requires Run(states, events) && states[0].shared.canonical.Some? && b < k <= |events| && events[b].Begin?
    requires forall j | 0 <= j < |events| :: !StaleRemoval(states[j], events[j])
    requires LastFailureBefore(states, events, b)
    ensures EachAgreesOrIsOwed(states[k])
    decreases k
  {
    hide EachAgreesOrIsOwed, StaleRemoval;
    var st, e := states[k - 1], events[k - 1];
    match e {
      case Begin(id, task) => BeginOwesAll(st, id, task);
      case Step(id, r) =>
        DebtsAfterBegin(states, events, b, k - 1);
        RunKeepsAgreement(states, events, k - 1);
        RunKeepsInv(states, events, k - 1);
        assert ActorInv(Pkgs(states[0].shared.canonical), st.shared, id, st.actors[id]);
        FailedBefore(states, events, b, k, id);
        hide Act, AgreementInv, Fold, Effect, LastFailureBefore;
        StepKeepsDebts(st, id, r);
    }
  }

  lemma FailedBefore(states: seq<State>, events: seq<Event>, b: nat, k: nat, id: nat)
    requires Run(states, events) && b < k <= |events| && LastFailureBefore(states, events, b)
    requires id in states[k - 1].actors && id in states[k].actors
    ensures states[k].actors[id].pc.Failed? ==> states[k - 1].actors[id].pc.Failed?
  {
    if states[k].actors[id].pc.Failed? {
      FailedStays(states, events, id, k, |events|);
      FailedStays(states, events, id, b, k - 1);
    }
  }

  /** Failures are repaired: when a transaction, a reconciliation for one, began after every failed
      one had returned, and in the end all others have succeeded, every derived object is the one
      built from the final canonical database. */
  lemma DerivedAgreeAfterLastFailure(states: seq<State>, events: seq<Event>, b: nat)
    requires Run(states, events) && states[0].shared.canonical.Some? && b < |events| && events[b].Begin?
    requires forall j | 0 <= j < |events| :: !StaleRemoval(states[j], events[j])
    requires LastFailureBefore(states, events, b)
    requires forall id | id in states[|events|].actors ::
      states[|events|].actors[id].pc.Succeeded? || states[|events|].actors[id].pc.Failed?
    ensures AllAgree(states[|events|].shared)
  {
    DebtsAfterBegin(states, events, b, |events|);
    hide Run, StaleRemoval, LastFailureBefore;
  }

  // ------------------------------------------------- why the exception is needed

  lemma ExtendRun(states: seq<State>, events: seq<Event>, e: Event) returns (states': seq<State>, events': seq<Event>)
    requires Run(states, events) && Allowed(states[|events|], e)
    ensures Run(states', events') && |events'| == |events| + 1
    ensures states'[0] == states[0] && states'[|events'|] == Next(states[|events|], e)
  {
    states', events' := states + [Next(states[|events|], e)], events + [e];
    hide Next, Allowed, Initial;
    forall k | 0 <= k < |events'|
      ensures Allowed(states'[k], events'[k]) && states'[k + 1] == Next(states'[k], events'[k])
    {
      if k < |events| {
        assert Allowed(states[k], events[k]);
      }
    }
  }

  const EMPTY: Archive := Archive(map[], 0)
  const STALE: Archive := Archive(map[], 1)

  const ABSENT: Task := Writing(Remove("absent", None))
  const SOUND: Reply := Reply(Works, 0, 0)

  function StaleShared(log: seq<Commit>): Shared {
    Shared(Some(Stored(EMPTY, 0)), [Some(Stored(Derived(0, STALE), 0))], map[0 := EMPTY], log)
  }

  /** One more step of the only transaction. */
  lemma StepAlone(states: seq<State>, events: seq<Event>, sh: Shared, a: Actor, sh': Shared, a': Actor)
    returns (states': seq<State>, events': seq<Event>)
    requires Run(states, events) && states[|events|] == State(sh, map[1 := a])
    requires 0 in sh.issued ==> sh.issued[0] == a.local
    requires Act(sh, 1, a, SOUND) == (sh', a')
    ensures Run(states', events') && |states'| == |events'| + 1
    ensures states'[0] == states[0] && states'[|events'|] == State(sh', map[1 := a'])
  {
    hide Act;
    states', events' := ExtendRun(states, events, Step(1, SOUND));
    assert map[1 := a][1 := a'] == map[1 := a'];
  }

  /** Removing an absent package gets as far as publishing unchanged what it fetched. */
  lemma StaleRemovalCommits() returns (states: seq<State>, events: seq<Event>, a: Actor)
    ensures Run(states, events) && states[0].shared.canonical.Some?
    ensures states[|events|] == State(StaleShared([]), map[1 := a]) && a.local == EMPTY && a.task == ABSENT
    ensures a.pc == CommitCanonical && a.localDerived == [Some(Derived(0, STALE))] && a.snapshot == Some(Stored(EMPTY, 0))
  {
    var sh := StaleShared([]);
    states, events := ExtendRun([State(sh, map[])], [], Begin(1, ABSENT));
    a := Idle(ABSENT);
    assert states[|events|] == State(sh, map[1 := a]);
    var b := a.(snapshot := sh.canonical, pc := FetchDerived(0));
    states, events := StepAlone(states, events, sh, a, sh, b);
    assert [] + [Some(Derived(0, STALE))] == [Some(Derived(0, STALE))];
    var c := b.(fetched := [Some(Derived(0, STALE))], pc := Prepare);
    states, events := StepAlone(states, events, sh, b, sh, c);
    a := c.(local := EMPTY, localDerived := c.fetched, pc := CommitCanonical);
    states, events := StepAlone(states, events, sh, c, sh, a);
  }

  /** Removing an absent package succeeds and republishes a stale derived object. */
  lemma StaleRemovalKeepsItsArtifact() returns (states: seq<State>, events: seq<Event>)
    ensures Run(states, events) && states[0].shared.canonical.Some?
    ensures var end := states[|events|];
      end.actors != map[] && (forall id | id in end.actors :: end.actors[id].pc.Succeeded?) && !Agrees(end.shared, 0)
  {
    var a;
    states, events, a := StaleRemovalCommits();
    hide Run;
    var sh := StaleShared([Commit(1, ABSENT.mutation)]);
    assert [] + [Commit(1, ABSENT.mutation)] == [Commit(1, ABSENT.mutation)];
    assert map[0 := EMPTY][0 := EMPTY] == map[0 := EMPTY];
    assert sh.derived[0 := sh.derived[0]] == sh.derived;
    var b := a.(pc := CheckLive(0), derivedAttempt := 0);
    states, events := StepAlone(states, events, StaleShared([]), a, sh, b);
    var c := b.(pc := ReadEtag(0));
    states, events := StepAlone(states, events, sh, b, sh, c);
    var d := c.(pc := StoreDerived(0), seenEtag := Some(0));
    states, events := StepAlone(states, events, sh, c, sh, d);
    var e := d.(pc := FinalCheck);
    states, events := StepAlone(states, events, sh, d, sh, e);
    states, events := StepAlone(states, events, sh, e, sh, e.(pc := Succeeded));
    assert 1 in states[|events|].actors;
  }
}
