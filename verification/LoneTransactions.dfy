/** A transaction that runs alone gets there: what must succeed does, through lost replies and failed writes. */
module LoneTransactions {
  import opened Collections
  import opened Packages
  import opened RepoTransactions
  import opened RepoTransactionProofs
  import opened DerivedAgreement
  import opened TransactionProgress

  // ----------------------------------------------------------------------- lone runs

  /** Transaction `id` is the only one. */
  ghost predicate Lone(events: seq<Event>, id: nat, task: Task) {
    && events != [] && events[0] == Begin(id, task)
    && forall k | 0 < k < |events| :: events[k].Step? && events[k].id == id
  }

  predicate Troubled(e: Event) {
    e.Step? && !e.reply.fate.Works?
  }

  /** How many of the first `k` calls failed or lost their reply. */
  function Troubles(events: seq<Event>, k: nat): nat
    requires k <= |events|
  {
    if k == 0 then 0 else Troubles(events, k - 1) + if Troubled(events[k - 1]) then 1 else 0
  }

  /** Fewer calls fail than a writer has attempts, and only calls it repeats; a reconciler gets no failures. */
  ghost predicate Bearable(states: seq<State>, events: seq<Event>, id: nat, task: Task)
    requires |states| == |events| + 1
  {
    && Troubles(events, |events|) < MAX_ATTEMPTS
    && forall k | 0 < k < |events| && Troubled(events[k]) ::
         task.Writing? && id in states[k].actors
         && (Repeatable(states[k].actors[id].pc) || states[k].actors[id].pc.Succeeded?)
  }

  /** On this database the tool and the guards leave `goal`. */
  predicate Yields(m: Mutation, current: Option<Database>, goal: Database) {
    match Mutate(m, current)
    case Rejected => false
    case Untouched => current == Some(goal)
    case Rewritten(db) => db == goal
  }

  /** The mutation turns what it may find into `goal`; a reconciler wants what is there. */
  ghost predicate Reaches(task: Task, start: Option<Database>, goal: Database) {
    match task
    case Writing(m) => Yields(m, start, goal) && Yields(m, Some(goal), goal)
    case Reconciling => start == Some(goal)
  }

  predicate Either(db: Option<Database>, start: Option<Database>, goal: Database) {
    db == start || db == Some(goal)
  }

  /** Nothing but the start and the goal is ever published or fetched. */
  predicate OnCourse(start: Option<Database>, goal: Database, task: Task, sh: Shared, a: Actor) {
    && a.task == task
    && Either(Pkgs(sh.canonical), start, goal)
    && (a.pc.FetchDerived? || a.pc.Prepare? || a.pc.CommitCanonical? ==> Either(Pkgs(a.snapshot), start, goal))
    && (a.pc.CommitCanonical? ==> task.Writing?)
    && (a.pc.CommitCanonical? || Publishing(a.pc) ==> a.local.pkgs == goal)
    && (a.pc.Succeeded? ==> Pkgs(sh.canonical) == Some(goal))
  }

  lemma FetchStaysOnCourse(start: Option<Database>, goal: Database, task: Task, sh: Shared, a: Actor, r: Reply)
    requires Reaches(task, start, goal) && OnCourse(start, goal, task, sh, a)
    requires a.pc.FetchCanonical? || a.pc.FetchDerived?
    ensures OnCourse(start, goal, task, sh, Fetch(sh, a, r))
  {
    hide Yields;
  }

  lemma PrepareStaysOnCourse(start: Option<Database>, goal: Database, task: Task, sh: Shared, a: Actor, r: Reply)
    requires Reaches(task, start, goal) && OnCourse(start, goal, task, sh, a) && a.pc.Prepare?
    ensures OnCourse(start, goal, task, sh, PrepareLocally(a, |sh.derived|, r))
  {
    hide Mutate, Advance;
    if task.Reconciling? && a.snapshot.Some? {
      var local := a.snapshot.value.content;
      AdvanceFrame(a.(local := local, localDerived := BuiltFrom(local, |sh.derived|)), 0);
    }
  }

  lemma CommitStaysOnCourse(start: Option<Database>, goal: Database, task: Task, sh: Shared, id: nat, a: Actor, r: Reply)
    requires OnCourse(start, goal, task, sh, a) && a.pc.CommitCanonical?
    ensures var (sh', a') := CommitDatabase(sh, id, a, r); OnCourse(start, goal, task, sh', a')
  {
    hide Advance;
    AdvanceFrame(a, 0);
  }

  lemma PublishStaysOnCourse(start: Option<Database>, goal: Database, task: Task, sh: Shared, id: nat, a: Actor, r: Reply)
    requires OnCourse(start, goal, task, sh, a) && Publishing(a.pc)
    ensures var (sh', a') := Act(sh, id, a, r); OnCourse(start, goal, task, sh', a')
  {
    hide Advance, Fetch, PrepareLocally, CommitDatabase, LiveMatches, EtagOf;
    if a.pc.FinalCheck? {
      assert LiveMatches(sh, a.local) ==> Pkgs(sh.canonical) == Some(a.local.pkgs) by {
        LiveHasItsPackages(sh, a.local);
      }
    }
    if a.pc.StoreDerived? {
      AdvanceFrame(a, a.pc.i + 1);
    }
  }

  lemma LiveHasItsPackages(sh: Shared, local: Archive)
    ensures LiveMatches(sh, local) ==> Pkgs(sh.canonical) == Some(local.pkgs)
  {
  }

  lemma ActStaysOnCourse(start: Option<Database>, goal: Database, task: Task, sh: Shared, id: nat, a: Actor, r: Reply)
    requires Reaches(task, start, goal) && OnCourse(start, goal, task, sh, a)
    ensures var (sh', a') := Act(sh, id, a, r); OnCourse(start, goal, task, sh', a')
  {
    hide Fetch, PrepareLocally, CommitDatabase, PublishDerived, Look, Yields;
    match a.pc {
      case FetchCanonical => FetchStaysOnCourse(start, goal, task, sh, a, r);
      case FetchDerived(_) => FetchStaysOnCourse(start, goal, task, sh, a, r);
      case Prepare => PrepareStaysOnCourse(start, goal, task, sh, a, r);
      case CommitCanonical => CommitStaysOnCourse(start, goal, task, sh, id, a, r);
      case Succeeded =>
      case Failed(_) =>
      case _ => PublishStaysOnCourse(start, goal, task, sh, id, a, r);
    }
  }

  ghost predicate LoneInv(start: Option<Database>, goal: Database, task: Task, st: State, id: nat) {
    st.actors.Keys == {id} && id in st.actors && OnCourse(start, goal, task, st.shared, st.actors[id])
  }

  lemma {:induction false} LoneRunStaysOnCourse(states: seq<State>, events: seq<Event>, id: nat, task: Task, goal: Database,
                                                k: nat)
    requires Run(states, events) && Lone(events, id, task) && 0 < k <= |events|
    requires Reaches(task, Pkgs(states[0].shared.canonical), goal)
    ensures LoneInv(Pkgs(states[0].shared.canonical), goal, task, states[k], id)
    ensures Hindrances(states, events, id, k) <= Troubles(events, k) && OwnSteps(events, id, k) == k - 1
  {
    assert Allowed(states[k - 1], events[k - 1]) && states[k] == Next(states[k - 1], events[k - 1]);
    hide Reaches, OnCourse, Act;
    if k == 1 {
      assert Hindrances(states, events, id, 0) == 0 && OwnSteps(events, id, 0) == 0;
      assert OnCourse(Pkgs(states[0].shared.canonical), goal, task, states[1].shared, Idle(task)) by {
        IdleIsOnCourse(states[0].shared, goal, task);
      }
    } else {
      LoneRunStaysOnCourse(states, events, id, task, goal, k - 1);
      var st := states[k - 1];
      ActStaysOnCourse(Pkgs(states[0].shared.canonical), goal, task, st.shared, id, st.actors[id], events[k - 1].reply);
    }
  }

  lemma IdleIsOnCourse(sh: Shared, goal: Database, task: Task)
    ensures OnCourse(Pkgs(sh.canonical), goal, task, sh, Idle(task))
  {
  }

  /** With enough events it has succeeded, and the published map is the goal. */
  lemma LoneTransactionSucceeds(states: seq<State>, events: seq<Event>, id: nat, task: Task, goal: Database)
    requires Run(states, events) && Lone(events, id, task) && Bearable(states, events, id, task)
    requires Reaches(task, Pkgs(states[0].shared.canonical), goal)
    requires |events| > MostSteps(|states[0].shared.derived|)
    ensures id in states[|events|].actors && states[|events|].actors[id].pc.Succeeded?
    ensures Pkgs(states[|events|].shared.canonical) == Some(goal)
  {
    var last := |events|;
    LoneRunStaysOnCourse(states, events, id, task, goal, last);
    TransactionsEnd(states, events, id, last);
    if states[last].actors[id].pc.Failed? {
      FailureHasAReason(states, events, id, last);
      var j :| 0 <= j < last && DoomsAt(states[j], events[j], id);
      NeverDoomed(states, events, id, task, goal, j);
    }
    hide Run, Bearable, Lone, Reaches;
  }

  lemma NeverDoomed(states: seq<State>, events: seq<Event>, id: nat, task: Task, goal: Database, j: nat)
    requires Run(states, events) && Lone(events, id, task) && Bearable(states, events, id, task)
    requires Reaches(task, Pkgs(states[0].shared.canonical), goal) && j < |events|
    ensures !DoomsAt(states[j], events[j], id)
  {
    if j > 0 {
      LoneRunStaysOnCourse(states, events, id, task, goal, j);
      hide Run, Lone, Mutate;
    }
  }

  // -------------------------------------------------------------- uploads and promotions

  /** A guard on the item's own package, met by what the database lists. */
  predicate Guards(item: AddItem, db: Database) {
    && item.expectedName == item.pkg.name
    && item.intended == Some(Identity(item.pkg.version, item.pkg.file))
    && match item.expectedCurrent
       case None => item.pkg.name !in db
       case Some(old') =>
         item.pkg.name in db && db[item.pkg.name].version == old'.version && db[item.pkg.name].file == old'.file
  }

  /** The packages of the batch are listed, everything else is as before. */
  ghost predicate HoldsBatch(items: seq<AddItem>, before: Database, after: Database) {
    && (forall i | 0 <= i < |items| :: items[i].pkg.name in after && after[items[i].pkg.name] == items[i].pkg)
    && forall name | (forall i | 0 <= i < |items| :: items[i].pkg.name != name) ::
         (name in after <==> name in before) && (name in before ==> after[name] == before[name])
  }

  lemma UpsertHoldsBatch(items: seq<AddItem>, before: Database)
    requires DistinctNames(items)
    ensures HoldsBatch(items, before, Upsert(before, items))
  {
    forall i | 0 <= i < |items|
      ensures items[i].pkg.name in Upsert(before, items) && Upsert(before, items)[items[i].pkg.name] == items[i].pkg
    {
      UpsertHoldsLast(before, items, i);
    }
    forall name | forall i | 0 <= i < |items| :: items[i].pkg.name != name
      ensures (name in Upsert(before, items) <==> name in before)
        && (name in before ==> Upsert(before, items)[name] == before[name])
    {
      UpsertEntry(before, items, name);
    }
    hide Upsert;
  }

  /** A guarded batch is accepted where its guards are met, and again over its own outcome. */
  lemma GuardedBatchYields(items: seq<AddItem>, current: Option<Database>)
    requires DistinctNames(items)
    requires forall i | 0 <= i < |items| && items[i].checkCurrent :: Guards(items[i], OrEmpty(current))
    ensures Yields(AddBatch(items), current, Upsert(OrEmpty(current), items))
    ensures Yields(AddBatch(items), Some(Upsert(OrEmpty(current), items)), Upsert(OrEmpty(current), items))
  {
    var before := OrEmpty(current);
    var after := Upsert(before, items);
    forall i | 0 <= i < |items| && items[i].checkCurrent
      ensures ExpectationHolds(before, items[i]) && ExpectationHolds(after, items[i])
    {
      assert Guards(items[i], before);
      UpsertHoldsLast(before, items, i);
      hide Upsert;
    }
    UpsertTwice(before, items);
    hide Upsert;
  }

  /**
   * A batch whose packages have distinct names and whose guards are met is published by a writer
   * that runs alone, although fewer of its writes and checks than it has attempts fail or lose
   * their replies.
   */
  lemma LoneBatchIsPublished(states: seq<State>, events: seq<Event>, id: nat, items: seq<AddItem>)
    requires Run(states, events) && Lone(events, id, Writing(AddBatch(items)))
    requires Bearable(states, events, id, Writing(AddBatch(items))) && DistinctNames(items)
    requires forall i | 0 <= i < |items| && items[i].checkCurrent ::
      Guards(items[i], OrEmpty(Pkgs(states[0].shared.canonical)))
    requires |events| > MostSteps(|states[0].shared.derived|)
    ensures id in states[|events|].actors && states[|events|].actors[id].pc.Succeeded?
    ensures states[|events|].shared.canonical.Some?
    ensures HoldsBatch(items, OrEmpty(Pkgs(states[0].shared.canonical)), states[|events|].shared.canonical.value.content.pkgs)
  {
    var start := Pkgs(states[0].shared.canonical);
    GuardedBatchYields(items, start);
    UpsertHoldsBatch(items, OrEmpty(start));
    hide Run, Lone, Bearable, Yields, Upsert, HoldsBatch;
    LoneTransactionSucceeds(states, events, id, Writing(AddBatch(items)), Upsert(OrEmpty(start), items));
  }

  // -------------------------------------------------------------- removals, reconciliation

  /** A removal that is unconditional, or expects what is listed, or finds nothing, gets through. */
  lemma LoneRemovalRemoves(states: seq<State>, events: seq<Event>, id: nat, name: string, expected: Option<Identity>)
    requires Run(states, events) && Lone(events, id, Writing(Remove(name, expected)))
    requires Bearable(states, events, id, Writing(Remove(name, expected)))
    requires states[0].shared.canonical.Some?
    requires var before := states[0].shared.canonical.value.content.pkgs;
      name in before && expected.Some? ==>
        before[name].version == expected.value.version && before[name].file == expected.value.file
    requires |events| > MostSteps(|states[0].shared.derived|)
    ensures id in states[|events|].actors && states[|events|].actors[id].pc.Succeeded?
    ensures states[|events|].shared.canonical.Some?
    ensures var before, after :=
        states[0].shared.canonical.value.content.pkgs, states[|events|].shared.canonical.value.content.pkgs;
      name !in after && forall other | other != name ::
        (other in after <==> other in before) && (other in before ==> after[other] == before[other])
  {
    var before := states[0].shared.canonical.value.content.pkgs;
    var goal := before - {name};
    assert name !in before ==> goal == before;
    assert Reaches(Writing(Remove(name, expected)), Some(before), goal);
    hide Run, Lone, Bearable, Yields;
    LoneTransactionSucceeds(states, events, id, Writing(Remove(name, expected)), goal);
  }

  /** A reconciliation alone, with every call working, leaves every derived object built from the database it found. */
  lemma LoneReconcileAgrees(states: seq<State>, events: seq<Event>, id: nat)
    requires Run(states, events) && Lone(events, id, Reconciling) && states[0].shared.canonical.Some?
    requires forall k | 0 < k < |events| :: events[k].reply.fate.Works?
    requires |events| > MostSteps(|states[0].shared.derived|)
    ensures id in states[|events|].actors && states[|events|].actors[id].pc.Succeeded?
    ensures Pkgs(states[|events|].shared.canonical) == Pkgs(states[0].shared.canonical)
    ensures AllAgree(states[|events|].shared)
  {
    NoTroubles(events, id, |events|);
    var goal := states[0].shared.canonical.value.content.pkgs;
    LoneRunStaysOnCourse(states, events, id, Reconciling, goal, |events|);
    LoneTransactionSucceeds(states, events, id, Reconciling, goal);
    forall j | 0 <= j < |events| ensures !StaleRemoval(states[j], events[j]) {
      if j > 0 {
        LoneRunStaysOnCourse(states, events, id, Reconciling, goal, j);
      }
      hide Run;
    }
    hide Run, Lone, OnCourse;
    assert states[|events|].actors.Keys == {id};
    DerivedAgreeAtQuiescence(states, events);
  }

  lemma {:induction false} NoTroubles(events: seq<Event>, id: nat, k: nat)
    requires Lone(events, id, Reconciling) && k <= |events|
    requires forall k | 0 < k < |events| :: events[k].reply.fate.Works?
    ensures Troubles(events, k) == 0
  {
    if k > 0 {
      NoTroubles(events, id, k - 1);
    }
  }
}
