/** Every job has one owner until its log is closed, is popped once, and the store stays bounded. */
module JobServiceTheorems {
  import opened Collections
  import opened JobService

  // ---------------------------------------------------------------------- the invariant

  /** A submission, the queue or a worker answers for the job's log. */
  ghost predicate OwnsLog(s: State, id: Id) {
    || (id in s.submits && s.submits[id] != Closed)
    || id in s.queue
    || (id in s.tasks && s.tasks[id] != Finalized)
  }

  /** Somebody will still give the job a terminal status. */
  ghost predicate WillEnd(s: State, id: Id) {
    || (id in s.submits && s.submits[id] != Logged)
    || id in s.queue
    || (id in s.tasks && (s.tasks[id] == Popped || s.tasks[id] == Registered || s.tasks[id] == Building))
  }

  ghost predicate JobInv(s: State, id: Id) {
    && (id in s.submits ==> id !in s.queue && id !in s.tasks)
    && (id in s.queue ==> id !in s.tasks)
    && (id in s.logs <==> OwnsLog(s, id))
    && (id in s.store && !Terminal(s.store[id]) ==> WillEnd(s, id))
    && (id in s.store ==> !Submitting(s, id, Logged))
    && (id in s.running <==> id in s.tasks && s.tasks[id] != Popped && s.tasks[id] != Skipped)
    && (id in s.popped ==> id !in s.submits && id !in s.queue)
    && (id in s.tasks ==> id in s.popped)
    && (id in s.store || id in s.submits || id in s.queue || id in s.popped ==> id in s.used)
  }

  ghost predicate Inv(workers: nat, s: State) {
    && (forall id :: JobInv(s, id))
    && Distinct(s.queue) && Distinct(s.popped)
    && |s.queue| <= QUEUE_SIZE && |s.tasks| <= workers
  }

  // ---------------------------------------------------------------- one event at a time

  lemma SubmitEventsKeepInv(workers: nat, s: State, e: Event)
    requires Inv(workers, s) && Enabled(workers, s, e)
    requires e.OpenLog? || e.CloseRefused? || e.FailRefused? || e.Cancel?
    ensures Inv(workers, Apply(workers, s, e))
  {
    var t := Apply(workers, s, e);
    forall id ensures JobInv(t, id) {
      assert JobInv(s, id);
    }
  }

  lemma StoreKeepsInv(workers: nat, s: State, e: Event)
    requires Inv(workers, s) && Enabled(workers, s, e) && e.StoreJob?
    ensures Inv(workers, Apply(workers, s, e))
  {
    var t := Apply(workers, s, e);
    assert JobInv(s, e.id);
    hide Evicts;
    forall id ensures JobInv(t, id) {
      assert JobInv(s, id);
    }
  }

  lemma PushKeepsInv(workers: nat, s: State, e: Event)
    requires Inv(workers, s) && Enabled(workers, s, e) && e.Push?
    ensures Inv(workers, Apply(workers, s, e))
  {
    var t := Apply(workers, s, e);
    assert JobInv(s, e.id);
    forall id ensures JobInv(t, id) {
      assert JobInv(s, id);
    }
  }

  lemma PopKeepsLists(queue: seq<Id>, popped: seq<Id>)
    requires queue != [] && Distinct(queue) && Distinct(popped) && queue[0] !in popped
    ensures Distinct(queue[1..]) && Distinct(popped + [queue[0]]) && queue[0] !in queue[1..]
  {
  }

  lemma PopKeepsInv(workers: nat, s: State)
    requires Inv(workers, s) && Enabled(workers, s, Pop)
    ensures Inv(workers, Apply(workers, s, Pop))
  {
    var t := Apply(workers, s, Pop);
    var popped := s.queue[0];
    assert JobInv(s, popped);
    assert popped in s.queue && popped !in s.popped && popped !in s.tasks;
    PopKeepsLists(s.queue, s.popped);
    hide Distinct;
    assert t.tasks.Keys == s.tasks.Keys + {popped};
    assert |t.tasks| <= workers && |t.queue| <= QUEUE_SIZE;
    assert t == s.(queue := s.queue[1..], tasks := s.tasks[popped := Popped], popped := s.popped + [popped]);
    hide Apply, Enabled;
    forall id ensures JobInv(t, id) {
      assert JobInv(s, id);
      PopKeepsJob(s, t, id);
      hide JobInv;
    }
  }

  lemma PopKeepsJob(s: State, t: State, id: Id)
    requires JobInv(s, id) && s.queue != [] && s.queue[0] !in s.queue[1..] && s.queue[0] !in s.tasks
    requires t == s.(queue := s.queue[1..], tasks := s.tasks[s.queue[0] := Popped], popped := s.popped + [s.queue[0]])
    ensures JobInv(t, id)
  {
    assert s.queue == [s.queue[0]] + t.queue;
  }

  lemma WorkKeepsInv(workers: nat, s: State, e: Event)
    requires Inv(workers, s) && Enabled(workers, s, e)
    requires e.Look? || e.MarkRunning? || e.Finish? || e.FinalizeLog? || e.Release?
    ensures Inv(workers, Apply(workers, s, e))
  {
    var t := Apply(workers, s, e);
    assert t.tasks.Keys <= s.tasks.Keys;
    SubsetIsSmaller(t.tasks.Keys, s.tasks.Keys);
    assert |t.tasks| <= workers && t.queue == s.queue && t.popped == s.popped;
    hide Distinct, JobInv, Apply;
    forall id ensures JobInv(t, id) {
      assert JobInv(s, id) && JobInv(s, e.id);
      WorkKeepsJob(workers, s, e, id);
    }
  }

  lemma WorkKeepsJob(workers: nat, s: State, e: Event, id: Id)
    requires e.Look? || e.MarkRunning? || e.Finish? || e.FinalizeLog? || e.Release?
    requires JobInv(s, id) && JobInv(s, e.id) && Enabled(workers, s, e)
    ensures JobInv(Apply(workers, s, e), id)
  {
  }

  lemma EventKeepsInv(workers: nat, s: State, e: Event)
    requires Inv(workers, s) && Enabled(workers, s, e)
    ensures Inv(workers, Apply(workers, s, e))
  {
    hide Inv, Evicts;
    match e
    case StoreJob(_, _, _) => StoreKeepsInv(workers, s, e);
    case Push(_) => PushKeepsInv(workers, s, e);
    case Pop => PopKeepsInv(workers, s);
    case OpenLog(_) => SubmitEventsKeepInv(workers, s, e);
    case CloseRefused(_) => SubmitEventsKeepInv(workers, s, e);
    case FailRefused(_) => SubmitEventsKeepInv(workers, s, e);
    case Cancel(_) => SubmitEventsKeepInv(workers, s, e);
    case _ => WorkKeepsInv(workers, s, e);
  }

  lemma {:induction false} RunKeepsInv(workers: nat, states: seq<State>, events: seq<Event>, k: nat)
    requires Run(workers, states, events) && k < |states|
    ensures Inv(workers, states[k])
  {
    hide Apply, Enabled;
    if k > 0 {
      hide Inv, Initial;
      RunKeepsInv(workers, states, events, k - 1);
      EventKeepsInv(workers, states[k - 1], events[k - 1]);
    }
  }

  // ------------------------------------------------------------------------ the theorems

  /** No job is popped a second time. */
  lemma PoppedOnce(workers: nat, states: seq<State>, events: seq<Event>, k: nat)
    requires Run(workers, states, events) && k < |states|
    ensures Distinct(states[k].popped)
  {
    RunKeepsInv(workers, states, events, k);
    hide Run;
  }

  /** A log is live exactly while its job is being submitted, queued or processed, so readers never wait in vain. */
  lemma LiveLogsAreOwned(workers: nat, states: seq<State>, events: seq<Event>, k: nat, id: Id)
    requires Run(workers, states, events) && k < |states|
    ensures id in states[k].logs <==> OwnsLog(states[k], id)
  {
    RunKeepsInv(workers, states, events, k);
    assert JobInv(states[k], id);
    hide Run, Inv;
  }

  /** A job that is not over is in somebody's hands. */
  lemma NoJobIsForgotten(workers: nat, states: seq<State>, events: seq<Event>, k: nat, id: Id)
    requires Run(workers, states, events) && k < |states|
    requires id in states[k].store && !Terminal(states[k].store[id])
    ensures WillEnd(states[k], id)
  {
    RunKeepsInv(workers, states, events, k);
    assert JobInv(states[k], id);
    hide Run, Inv;
  }

  function Unfinished(store: Store): set<Id> {
    set id | id in store && !Terminal(store[id])
  }

  /** Unfinished jobs are at most those in submission, a full queue, and one for each worker. */
  lemma UnfinishedAreFew(workers: nat, s: State)
    requires Inv(workers, s)
    ensures |Unfinished(s.store)| <= |s.submits| + QUEUE_SIZE + workers
  {
    var owned := s.submits.Keys + Elements(s.queue) + s.tasks.Keys;
    forall id | id in Unfinished(s.store) ensures id in owned {
      assert JobInv(s, id);
    }
    FewElements(s.queue);
    hide Inv, JobInv, Unfinished, Elements;
    assert |s.tasks| <= workers && |s.queue| <= QUEUE_SIZE;
    assert |owned| <= |s.submits.Keys| + |Elements(s.queue)| + |s.tasks.Keys|;
    SubsetIsSmaller(Unfinished(s.store), owned);
  }

  /** After every submission the store is within its limit, or holds unfinished jobs only, and those are few. */
  lemma StoreIsBounded(workers: nat, states: seq<State>, events: seq<Event>, k: nat)
    requires Run(workers, states, events) && k < |events| && events[k].StoreJob?
    ensures var after := states[k + 1];
      |after.store| <= MAX_STORED_JOBS || |after.store| <= |after.submits| + QUEUE_SIZE + workers
  {
    RunKeepsInv(workers, states, events, k + 1);
    var s, e, after := states[k], events[k], states[k + 1];
    assert Enabled(workers, s, e) && after == Apply(workers, s, e);
    hide Run, Inv;
    if |after.store| > MAX_STORED_JOBS {
      forall id | id in after.store ensures !Terminal(after.store[id]) {}
      UnfinishedAreFew(workers, after);
      assert Unfinished(after.store) == after.store.Keys;
    }
  }

  /** Eviction takes no unfinished job, and none before an older finished one. */
  lemma EvictionIsFair(workers: nat, states: seq<State>, events: seq<Event>, k: nat, gone: Id, kept: Id)
    requires Run(workers, states, events) && k < |events| && events[k].StoreJob?
    requires gone in states[k].store && gone !in states[k + 1].store
    ensures Terminal(states[k].store[gone])
    ensures kept in states[k + 1].store && Terminal(states[k + 1].store[kept]) ==>
      kept in states[k].store && states[k].store[gone].createdAt <= states[k].store[kept].createdAt
  {
    var s, e, after := states[k], events[k], states[k + 1];
    RunKeepsInv(workers, states, events, k);
    assert JobInv(s, e.id);
    assert Enabled(workers, s, e) && after == Apply(workers, s, e);
    hide Run, Inv;
    assert gone != e.id;
    assert gone in e.evicted;
  }

  // ------------------------------------------------------- what cancelling is worth

  /** A job that is still marked as queued has not been marked as running by its worker. */
  ghost predicate QueuedIsNotBuilt(s: State, id: Id) {
    id in s.store && s.store[id].status.Queued? && id in s.tasks ==> s.tasks[id] == Popped || s.tasks[id] == Registered
  }

  lemma EventKeepsQueued(workers: nat, s: State, e: Event, id: Id)
    requires Inv(workers, s) && Enabled(workers, s, e) && QueuedIsNotBuilt(s, id)
    ensures QueuedIsNotBuilt(Apply(workers, s, e), id)
  {
    assert JobInv(s, id);
    hide Inv, Evicts;
    if e.Pop? {
      assert s.queue[0] in s.queue;
    }
  }

  lemma {:induction false} RunKeepsQueued(workers: nat, states: seq<State>, events: seq<Event>, k: nat, id: Id)
    requires Run(workers, states, events) && k < |states|
    ensures QueuedIsNotBuilt(states[k], id)
  {
    hide Apply, Enabled;
    if k > 0 {
      hide Inv, QueuedIsNotBuilt, Initial;
      RunKeepsQueued(workers, states, events, k - 1, id);
      RunKeepsInv(workers, states, events, k - 1);
      EventKeepsQueued(workers, states[k - 1], events[k - 1], id);
    }
  }

  /** Wherever the job is, a worker that looks at it will skip it. */
  ghost predicate Doomed(s: State, id: Id) {
    && id in s.used && !Submitting(s, id, Logged)
    && (id in s.tasks ==> s.tasks[id] == Popped || s.tasks[id] == Skipped)
    && (Submitting(s, id, Stored) || id in s.queue || Working(s, id, Popped) ==> MustSkip(s.store, id))
  }

  lemma CancelDooms(workers: nat, s: State, id: Id)
    requires Inv(workers, s) && QueuedIsNotBuilt(s, id) && Enabled(workers, s, Cancel(id)) && id !in s.running
    ensures Doomed(Apply(workers, s, Cancel(id)), id)
  {
    assert JobInv(s, id);
    hide Inv;
  }

  lemma WorkKeepsDoomed(workers: nat, s: State, e: Event, id: Id)
    requires e.Look? || e.MarkRunning? || e.Finish? || e.FinalizeLog? || e.Release?
    requires Enabled(workers, s, e) && Doomed(s, id) && JobInv(s, id)
    ensures Doomed(Apply(workers, s, e), id)
  {
  }

  lemma QueueKeepsDoomed(workers: nat, s: State, e: Event, id: Id)
    requires e.Push? || e.Pop?
    requires Enabled(workers, s, e) && Doomed(s, id) && JobInv(s, id)
    ensures Doomed(Apply(workers, s, e), id)
  {
    if e.Pop? {
      assert s.queue[0] in s.queue && forall x | x in s.queue[1..] :: x in s.queue;
    }
  }

  lemma StoringKeepsDoomed(workers: nat, s: State, e: Event, id: Id)
    requires e.StoreJob?
    requires Enabled(workers, s, e) && Doomed(s, id) && JobInv(s, id)
    ensures Doomed(Apply(workers, s, e), id)
  {
    hide Evicts;
  }

  lemma SubmitKeepsDoomed(workers: nat, s: State, e: Event, id: Id)
    requires e.OpenLog? || e.CloseRefused? || e.FailRefused? || e.Cancel?
    requires Enabled(workers, s, e) && Doomed(s, id) && JobInv(s, id)
    ensures Doomed(Apply(workers, s, e), id)
  {
    hide Evicts, Without;
  }

  lemma EventKeepsDoomed(workers: nat, s: State, e: Event, id: Id)
    requires Inv(workers, s) && Enabled(workers, s, e) && Doomed(s, id)
    ensures Doomed(Apply(workers, s, e), id)
  {
    assert JobInv(s, id);
    hide Inv, Evicts, Apply, Enabled, Doomed, JobInv;
    match e
    case StoreJob(_, _, _) => StoringKeepsDoomed(workers, s, e, id);
    case OpenLog(_) => SubmitKeepsDoomed(workers, s, e, id);
    case CloseRefused(_) => SubmitKeepsDoomed(workers, s, e, id);
    case FailRefused(_) => SubmitKeepsDoomed(workers, s, e, id);
    case Cancel(_) => SubmitKeepsDoomed(workers, s, e, id);
    case Push(_) => QueueKeepsDoomed(workers, s, e, id);
    case Pop => QueueKeepsDoomed(workers, s, e, id);
    case _ => WorkKeepsDoomed(workers, s, e, id);
  }

  lemma {:induction false} DoomedForGood(workers: nat, states: seq<State>, events: seq<Event>, i: nat, k: nat, id: Id)
    requires Run(workers, states, events) && i < k < |states|
    requires events[i] == Cancel(id) && id !in states[i].running
    ensures Doomed(states[k], id)
    decreases k
  {
    hide Apply, Enabled;
    var s, e := states[k - 1], events[k - 1];
    assert Enabled(workers, s, e) && states[k] == Apply(workers, s, e);
    RunKeepsInv(workers, states, events, k - 1);
    hide Inv, Doomed, QueuedIsNotBuilt;
    if k == i + 1 {
      RunKeepsQueued(workers, states, events, i, id);
      CancelDooms(workers, s, id);
    } else {
      DoomedForGood(workers, states, events, i, k - 1, id);
      EventKeepsDoomed(workers, s, e, id);
    }
  }

  /** A worker that has registered a job leaves it only by building it. */
  lemma {:induction false} RegisteredIsBuilt(
    workers: nat, states: seq<State>, events: seq<Event>, i: nat, k: nat, id: Id) returns (j: nat)
    requires Run(workers, states, events) && i < k < |states|
    requires Working(states[i], id, Registered) && !Working(states[k], id, Registered)
    ensures i < j <= k && Working(states[j], id, Building)
    decreases k
  {
    hide Apply, Enabled, Initial;
    if i + 1 < k && !Working(states[k - 1], id, Registered) {
      j := RegisteredIsBuilt(workers, states, events, i, k - 1, id);
    } else {
      var s, e := states[k - 1], events[k - 1];
      assert Enabled(workers, s, e) && states[k] == Apply(workers, s, e);
      RunKeepsInv(workers, states, events, k - 1);
      assert JobInv(s, id);
      hide Run, Inv, JobInv;
      RegisteredStepsToBuilding(workers, s, e, id);
      j := k;
    }
  }

  lemma RegisteredStepsToBuilding(workers: nat, s: State, e: Event, id: Id)
    requires Enabled(workers, s, e) && Working(s, id, Registered) && !Working(Apply(workers, s, e), id, Registered)
    requires JobInv(s, id)
    ensures Working(Apply(workers, s, e), id, Building)
  {
    hide Evicts;
  }

  /**
   * Cancelling a queued job keeps it from being built exactly when no worker has registered
   * it yet, which the canceller could see under the lock it holds.
   */
  lemma CancelHoldsExactly(workers: nat, states: seq<State>, events: seq<Event>, i: nat, k: nat, id: Id)
    requires Run(workers, states, events) && i < k < |states| && events[i] == Cancel(id)
    requires id !in states[k].tasks
    ensures (exists j :: i < j <= k && Working(states[j], id, Building)) <==> id in states[i].running
  {
    var s := states[i];
    assert Enabled(workers, s, events[i]);
    RunKeepsInv(workers, states, events, i);
    RunKeepsQueued(workers, states, events, i, id);
    assert JobInv(s, id);
    hide Inv;
    if id in s.running {
      assert Working(s, id, Registered);
      var j := RegisteredIsBuilt(workers, states, events, i, k, id);
    } else {
      forall j | i < j <= k ensures !Working(states[j], id, Building) {
        DoomedForGood(workers, states, events, i, j, id);
        hide Run;
      }
    }
  }

  function Scene(n: nat): State
    requires n < 8
  {
    var queued, cancelled, running := Job(Queued, 0), Job(Cancelled, 0), Job(Running, 0);
    if n == 0 then State(map[], {}, [], {}, map[], map[], {}, [])
    else if n == 1 then State(map[], {7}, [], {}, map[7 := Logged], map[], {7}, [])
    else if n == 2 then State(map[7 := queued], {7}, [], {}, map[7 := Stored], map[], {7}, [])
    else if n == 3 then State(map[7 := queued], {7}, [7], {}, map[], map[], {7}, [])
    else if n == 4 then State(map[7 := queued], {7}, [], {}, map[], map[7 := Popped], {7}, [7])
    else if n == 5 then State(map[7 := queued], {7}, [], {7}, map[], map[7 := Registered], {7}, [7])
    else if n == 6 then State(map[7 := cancelled], {7}, [], {7}, map[], map[7 := Registered], {7}, [7])
    else State(map[7 := running], {7}, [], {7}, map[], map[7 := Building], {7}, [7])
  }

  function SceneEvent(n: nat): Event
    requires n < 7
  {
    if n == 0 then OpenLog(7) else if n == 1 then StoreJob(7, 0, []) else if n == 2 then Push(7)
    else if n == 3 then Pop else if n == 4 then Look(7) else if n == 5 then Cancel(7) else MarkRunning(7)
  }

  ghost predicate Follows(n: nat)
    requires n < 7
  {
    Enabled(1, Scene(n), SceneEvent(n)) && Scene(n + 1) == Apply(1, Scene(n), SceneEvent(n))
  }

  lemma StoringFollows()
    ensures Follows(1)
  {
    var one: Store := map[7 := Job(Queued, 0)];
    assert Without(one, []) == one && |one| <= MAX_STORED_JOBS;
    assert Evicts(one, []);
    hide Evicts;
    assert Scene(1).store[7 := Job(Queued, 0)] == one;
    assert Enabled(1, Scene(1), StoreJob(7, 0, []));
    hide Without;
    assert Scene(1).submits[7 := Stored] == map[7 := Stored];
  }

  lemma OpeningFollows()
    ensures Follows(0)
  {
    hide Evicts, Without;
  }

  lemma PushingFollows()
    ensures Follows(2)
  {
    hide Evicts, Without;
    assert Scene(2).submits - {7} == map[];
  }

  lemma PoppingFollows()
    ensures Follows(3)
  {
    hide Evicts, Without;
    assert Scene(3).queue[1..] == [];
  }

  lemma WorkingFollows(n: nat)
    requires 4 <= n < 7
    ensures Follows(n)
  {
    hide Evicts, Without;
  }

  lemma SceneStep(n: nat)
    requires n < 7
    ensures Follows(n)
  {
    hide Follows;
    if n == 1 {
      StoringFollows();
    } else if n == 0 {
      OpeningFollows();
    } else if n == 2 {
      PushingFollows();
    } else if n == 3 {
      PoppingFollows();
    } else {
      WorkingFollows(n);
    }
  }

  /**
   * It does come too late at times: a worker looks at the status and marks the job as running
   * under separate locks, so a job cancelled in between is built all the same.
   */
  lemma CancelledJobCanRun() returns (states: seq<State>, events: seq<Event>)
    ensures Run(1, states, events) && |states| == 8
    ensures 7 in states[6].store && states[6].store[7].status == Cancelled
    ensures 7 in states[7].store && states[7].store[7].status == Running && Working(states[7], 7, Building)
  {
    states := seq(8, n requires 0 <= n < 8 => Scene(n));
    events := seq(7, n requires 0 <= n < 7 => SceneEvent(n));
    assert Initial(states[0]);
    hide Apply, Enabled, SceneEvent, Initial;
    forall n | 0 <= n < |events| ensures Enabled(1, states[n], events[n]) && states[n + 1] == Apply(1, states[n], events[n]) {
      SceneStep(n);
    }
  }
}
