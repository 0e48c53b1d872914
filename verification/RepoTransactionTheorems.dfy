/** The promises of the database transaction, over every interleaving. */
module RepoTransactionTheorems {
  import opened Collections
  import opened Packages
  import opened PublishGate
  import opened RepoTransactions
  import opened RepoTransactionProofs

  function Start(states: seq<State>): Option<Database>
    requires |states| > 0
  {
    Pkgs(states[0].shared.canonical)
  }

  /** No lost update: the published package map is the fold of the committed
      mutations, none of which was refused by the map it met. */
  lemma CanonicalIsFoldOfCommits(states: seq<State>, events: seq<Event>, k: nat)
    requires Run(states, events) && k <= |events|
    ensures var sh := states[k].shared;
      && Pkgs(sh.canonical) == Fold(Start(states), sh.log, |sh.log|)
      && AllAccepted(Start(states), sh.log)
  {
    RunKeepsInv(states, events, k);
  }

  /** Each canonical version written is its writer's mutation applied to exactly
      the version it replaced, and nothing else ever changes the canonical object. */
  lemma EveryWriteAppliesItsMutation(states: seq<State>, events: seq<Event>, k: nat)
    requires Run(states, events) && k < |events|
    ensures var sh, sh' := states[k].shared, states[k + 1].shared;
      || (sh'.canonical == sh.canonical && sh'.log == sh.log)
      || (exists id, m: Mutation ::
            && events[k].Step? && events[k].id == id
            && id in states[k].actors && states[k].actors[id].task == Writing(m)
            && sh'.log == sh.log + [Commit(id, m)]
            && Effect(m, Pkgs(sh.canonical)) == Pkgs(sh'.canonical))
  {
    hide Effect;
    var sh, sh' := states[k].shared, states[k + 1].shared;
    SharedInvHolds(states, events, k);
    SharedInvHolds(states, events, k + 1);
    StepExtends(states, events, k);
    if |sh'.log| != |sh.log| {
      FoldPrefix(Start(states), sh.log, sh'.log, |sh.log|);
      assert sh'.log == sh.log + [sh'.log[|sh.log|]];
    } else {
      assert sh'.log == sh'.log[..|sh.log|];
    }
  }

  lemma SharedInvHolds(states: seq<State>, events: seq<Event>, k: nat)
    requires Run(states, events) && k <= |events|
    ensures SharedInv(Start(states), states[k].shared)
  {
    RunKeepsInv(states, events, k);
  }

  lemma StepExtends(states: seq<State>, events: seq<Event>, k: nat)
    requires Run(states, events) && k < |events|
    ensures var sh, sh' := states[k].shared, states[k + 1].shared;
      match events[k]
      case Begin(_, _) => sh' == sh
      case Step(id, _) =>
        && Extends(sh, sh', id)
        && (|sh'.log| == |sh.log| + 1 ==> states[k].actors[id].task == Writing(sh'.log[|sh.log|].mutation))
  {
    hide Act, Fold, Effect;
    RunKeepsInv(states, events, k);
    RunKeepsInv(states, events, k + 1);
    if events[k].Step? {
      var id := events[k].id;
      ActKeepsInv(Start(states), states[k].shared, id, states[k].actors[id], events[k].reply);
    }
  }

  /** The commit marker over all retries: an unmarked failure never touched the
      canonical database in any of its attempts, and neither did a reconciler. */
  lemma UnmarkedFailureCommittedNothing(states: seq<State>, events: seq<Event>, k: nat, id: nat)
    requires Run(states, events) && k <= |events|
    requires id in states[k].actors
    requires states[k].actors[id].pc == Failed(false) || states[k].actors[id].task.Reconciling?
    ensures forall c | c in states[k].shared.log :: c.writer != id
  {
    RunKeepsInv(states, events, k);
    assert ActorInv(Start(states), states[k].shared, id, states[k].actors[id]);
    assert !Wrote(states[k].shared.log, id);
  }

  /** A conditional write of transaction `id` that failed or lost its reply. */
  predicate DoubtfulCommit(st: State, e: Event, id: nat) {
    e.Step? && e.id == id && id in st.actors && st.actors[id].pc.CommitCanonical? && !e.reply.fate.Works?
  }

  ghost predicate MarkedForAReason(states: seq<State>, events: seq<Event>, k: nat, id: nat)
    requires |states| == |events| + 1 && k <= |events|
  {
    id in states[k].actors && states[k].actors[id].marked ==>
      Wrote(states[k].shared.log, id) || exists j :: 0 <= j < k && DoubtfulCommit(states[j], events[j], id)
  }

  lemma MarkHasAReason(start: Option<Database>, sh: Shared, id: nat, a: Actor, r: Reply)
    requires SharedInv(start, sh) && ActorInv(start, sh, id, a)
    requires r.etag in sh.issued ==> sh.issued[r.etag] == a.local
    ensures var (sh', a') := Act(sh, id, a, r);
      a'.marked && !a.marked ==> Wrote(sh'.log, id) || (a.pc.CommitCanonical? && !r.fate.Works?)
  {
    hide Fold, Effect, Mutate, Advance;
    AdvanceFrame(a, 0);
    if a.pc.StoreDerived? {
      AdvanceFrame(a, a.pc.i + 1);
    }
    if a.pc.Prepare? && a.snapshot.Some? {
      AdvanceFrame(a.(local := a.snapshot.value.content,
                      localDerived := BuiltFrom(a.snapshot.value.content, |sh.derived|)), 0);
    }
  }

  lemma {:induction false} MarksHaveReasons(states: seq<State>, events: seq<Event>, k: nat, id: nat)
    requires Run(states, events) && k <= |events|
    ensures MarkedForAReason(states, events, k, id)
  {
    if k > 0 {
      MarksHaveReasons(states, events, k - 1, id);
      RunKeepsInv(states, events, k - 1);
      var st, e := states[k - 1], events[k - 1];
      assert Allowed(st, e) && states[k] == Next(st, e);
      hide Act, SharedInv, ActorInv, Fold, Effect, Extends;
      StepExtends(states, events, k - 1);
      if id in st.actors {
        LogGrows(st.shared, states[k].shared, e.id, id);
        if e.Step? && e.id == id {
          MarkHasAReason(Start(states), st.shared, id, st.actors[id], e.reply);
          assert st.actors[id].pc.CommitCanonical? && !e.reply.fate.Works? ==> DoubtfulCommit(st, e, id);
        }
      }
    }
  }

  lemma LogGrows(sh: Shared, sh': Shared, mover: nat, id: nat)
    requires sh' == sh || Extends(sh, sh', mover)
    ensures Wrote(sh.log, id) ==> Wrote(sh'.log, id)
  {
    if Wrote(sh.log, id) {
      var k :| 0 <= k < |sh.log| && sh.log[k].writer == id;
      assert sh'.log[k] == sh.log[k] by {
        assert sh'.log[..|sh.log|][k] == sh'.log[k];
      }
    }
  }

  /** The marker is not raised in vain: the writer has committed, or one of its conditional writes failed or lost its reply. */
  lemma MarkedFailureMayHaveCommitted(states: seq<State>, events: seq<Event>, k: nat, id: nat)
    requires Run(states, events) && k <= |events|
    requires id in states[k].actors && states[k].actors[id].pc == Failed(true)
    ensures (exists c :: c in states[k].shared.log && c.writer == id)
      || exists j :: 0 <= j < k && DoubtfulCommit(states[j], events[j], id)
  {
    MarksHaveReasons(states, events, k, id);
    RunKeepsInv(states, events, k);
    assert ActorInv(Start(states), states[k].shared, id, states[k].actors[id]);
    if Wrote(states[k].shared.log, id) {
      var i :| 0 <= i < |states[k].shared.log| && states[k].shared.log[i].writer == id;
      assert states[k].shared.log[i] in states[k].shared.log;
    }
  }

  /** Success: at the last check of the transaction, the live database was byte for
      byte the one some attempt of this very transaction had committed. */
  lemma SuccessSawItsOwnCommit(states: seq<State>, events: seq<Event>, k: nat, id: nat)
    requires Run(states, events) && k < |events|
    requires id in states[k].actors && id in states[k + 1].actors
    requires states[k].actors[id].task.Writing?
    requires !states[k].actors[id].pc.Succeeded? && states[k + 1].actors[id].pc.Succeeded?
    ensures var sh := states[k].shared;
      && sh.canonical.Some?
      && sh.canonical.value.content == states[k].actors[id].local
      && Recorded(Start(states), sh.log, id, states[k].actors[id].task.mutation, sh.canonical.value.content.pkgs)
  {
    RunKeepsInv(states, events, k);
    var sh, a := states[k].shared, states[k].actors[id];
    assert ActorInv(Start(states), sh, id, a);
    assert events[k].Step? && events[k].id == id;
    hide Act, Fold, Effect;
    OnlyFinalCheckSucceeds(sh, id, a, events[k].reply);
  }

  lemma OnlyFinalCheckSucceeds(sh: Shared, id: nat, a: Actor, r: Reply)
    requires a.task.Writing? && !a.pc.Succeeded? && Act(sh, id, a, r).1.pc.Succeeded?
    ensures a.pc.FinalCheck? && LiveMatches(sh, a.local)
  {
    hide Effect, Mutate, Advance;
    AdvanceFrame(a, 0);
    if a.pc.StoreDerived? {
      AdvanceFrame(a, a.pc.i + 1);
    }
  }

  /** Every guard of a conditional mutation is about the very packages it touches. */
  predicate Conditional(m: Mutation) {
    match m
    case AddBatch(items) =>
      forall i | 0 <= i < |items| :: items[i].checkCurrent && items[i].expectedName == items[i].pkg.name
    case Remove(_, expected) => expected.Some?
  }

  /** What a conditional mutation may find under `name` when it changes it. */
  ghost predicate Anticipated(m: Mutation, name: string, found: Option<Identity>) {
    match m
    case AddBatch(items) =>
      exists i :: 0 <= i < |items| && items[i].pkg.name == name
                  && (found == items[i].expectedCurrent || found == items[i].intended)
    case Remove(n, expected) => n == name && found == expected
  }

  /** Nobody else's package is overwritten: a committed conditional mutation
      changed an entry only where it found what its caller had anticipated. */
  lemma OnlyAnticipatedEntriesChange(states: seq<State>, events: seq<Event>, k: nat, j: nat, name: string)
    requires Run(states, events) && k <= |events| && j < |states[k].shared.log|
    requires Conditional(states[k].shared.log[j].mutation)
    ensures var log := states[k].shared.log;
      var before := OrEmpty(Fold(Start(states), log, j));
      var after := OrEmpty(Fold(Start(states), log, j + 1));
      || (name !in before && name !in after)
      || (name in before && name in after && before[name] == after[name])
      || Anticipated(log[j].mutation, name, Current(before, name))
  {
    RunKeepsInv(states, events, k);
    var log := states[k].shared.log;
    assert Fold(Start(states), log, j + 1).Some?;
    var m, before := log[j].mutation, OrEmpty(Fold(Start(states), log, j));
    if m.AddBatch? {
      UpsertEntry(before, m.items, name);
      if name in Upsert(before, m.items) && !(name in before && Upsert(before, m.items)[name] == before[name]) {
        var i :| 0 <= i < |m.items| && m.items[i].pkg.name == name && Upsert(before, m.items)[name] == m.items[i].pkg;
        assert ExpectationHolds(before, m.items[i]);
      }
    }
  }

  ghost predicate GatedTask(t: Task) {
    t.Writing? ==> t.mutation.AddBatch? && forall i | 0 <= i < |t.mutation.items| :: Gated(t.mutation.items[i])
  }

  /** Only uploads, promotions and reconcilers have taken part so far. */
  ghost predicate OnlyPublishers(st: State) {
    forall id | id in st.actors :: GatedTask(st.actors[id].task)
  }

  lemma GatedEffectNeverDowngrades(m: Mutation, before: Option<Database>, after: Option<Database>)
    requires GatedTask(Writing(m)) && Effect(m, before) == after && after.Some?
    ensures NoOlder(OrEmpty(before), OrEmpty(after))
  {
    hide Upsert, Gated;
    GatedBatchNeverDowngrades(OrEmpty(before), m.items);
  }

  lemma TasksStay(states: seq<State>, events: seq<Event>, k: nat)
    requires Run(states, events) && k < |events|
    ensures forall id | id in states[k].actors ::
      id in states[k + 1].actors && states[k + 1].actors[id].task == states[k].actors[id].task
  {
    RunKeepsInv(states, events, k);
    if events[k].Step? {
      var id := events[k].id;
      ActKeepsInv(Start(states), states[k].shared, id, states[k].actors[id], events[k].reply);
      hide Act;
    }
  }

  lemma OneStepUp(states: seq<State>, events: seq<Event>, k: nat)
    requires Run(states, events) && 0 < k <= |events| && OnlyPublishers(states[k - 1])
    ensures NoOlder(OrEmpty(Pkgs(states[k - 1].shared.canonical)), OrEmpty(Pkgs(states[k].shared.canonical)))
  {
    hide Act, Effect, Fold, Gated, GatedTask;
    EveryWriteAppliesItsMutation(states, events, k - 1);
    var sh, sh' := states[k - 1].shared, states[k].shared;
    if sh'.log != sh.log {
      var id, m :| id in states[k - 1].actors && states[k - 1].actors[id].task == Writing(m)
                   && Effect(m, Pkgs(sh.canonical)) == Pkgs(sh'.canonical);
      RunKeepsInv(states, events, k);
      assert AllAccepted(Start(states), sh'.log);
      GatedEffectNeverDowngrades(m, Pkgs(sh.canonical), Pkgs(sh'.canonical));
    }
  }

  lemma NoOlderChain(a: Database, b: Database, c: Database)
    requires NoOlder(a, b) && NoOlder(b, c)
    ensures NoOlder(a, c)
  {
  }

  /** Versions only go up over a whole run of publishers, although each gate read
      the database long before its commit. */
  lemma {:induction false} VersionsOnlyGoUp(states: seq<State>, events: seq<Event>, i: nat, k: nat)
    requires Run(states, events) && i <= k <= |events|
    requires OnlyPublishers(states[k])
    ensures NoOlder(OrEmpty(Pkgs(states[i].shared.canonical)), OrEmpty(Pkgs(states[k].shared.canonical)))
    decreases k - i
  {
    if i < k {
      TasksStay(states, events, k - 1);
      hide GatedTask, Run;
      assert OnlyPublishers(states[k - 1]);
      hide NoOlder, OnlyPublishers;
      VersionsOnlyGoUp(states, events, i, k - 1);
      OneStepUp(states, events, k);
      NoOlderChain(OrEmpty(Pkgs(states[i].shared.canonical)), OrEmpty(Pkgs(states[k - 1].shared.canonical)),
                   OrEmpty(Pkgs(states[k].shared.canonical)));
    }
  }
}
