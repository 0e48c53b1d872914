/** The build job store, the queue, the workers and the live logs, one lock-protected step at a time. */
module JobService {
  import opened Collections

  type Id = nat

  datatype Status = Queued | Running | Succeeded | Failed | Cancelled

  datatype Job = Job(status: Status, createdAt: int)

  predicate Terminal(job: Job) {
    job.status.Succeeded? || job.status.Failed? || job.status.Cancelled?
  }

  /** How a build ended: whether its context was cancelled, and with which error, if any. */
  datatype BuildError = NoError | CancelledError | OtherError
  datatype BuildEnd = BuildEnd(stopped: bool, error: BuildError)

  function Verdict(end: BuildEnd): Status {
    if end.stopped || end.error.CancelledError? then Cancelled
    else if end.error.OtherError? then Failed
    else Succeeded
  }

  type Store = map<Id, Job>

  const MAX_STORED_JOBS: nat := 500
  const QUEUE_SIZE: nat := 128

  // -------------------------------------------------------------------------- eviction

  function Without(store: Store, ids: seq<Id>): Store {
    map id | id in store && id !in ids :: store[id]
  }

  /**
   * What may be evicted: only terminal jobs, the oldest first, and no more than brings the
   * store down to its limit; they are all evicted when that is not enough.
   */
  ghost predicate Evicts(store: Store, evicted: seq<Id>) {
    && Distinct(evicted)
    && (forall id | id in evicted :: id in store && Terminal(store[id]))
    && (forall gone, kept | gone in evicted && kept in store && kept !in evicted && Terminal(store[kept]) ::
         store[gone].createdAt <= store[kept].createdAt)
    && (evicted != [] ==> |Without(store, evicted)| >= MAX_STORED_JOBS)
    && (|Without(store, evicted)| <= MAX_STORED_JOBS
        || forall id | id in store && Terminal(store[id]) :: id in evicted)
  }

  /** Oldest first. */
  ghost predicate ByAge(store: Store, ids: seq<Id>) {
    && (forall id | id in ids :: id in store)
    && forall i, j | 0 <= i < j < |ids| :: store[ids[i]].createdAt <= store[ids[j]].createdAt
  }

  ghost predicate TerminalsByAge(store: Store, sorted: seq<Id>) {
    && ByAge(store, sorted) && Distinct(sorted)
    && forall id :: id in sorted <==> id in store && Terminal(store[id])
  }

  function InsertedAt(ids: seq<Id>, id: Id, i: nat): seq<Id>
    requires i <= |ids|
  {
    ids[..i] + [id] + ids[i..]
  }

  lemma InsertedMembers(ids: seq<Id>, id: Id, i: nat)
    requires i <= |ids|
    ensures forall x :: x in InsertedAt(ids, id, i) <==> x in ids || x == id
  {
    assert ids == ids[..i] + ids[i..];
  }

  lemma InsertedElement(ids: seq<Id>, id: Id, i: nat, j: nat)
    requires i <= |ids| && j <= |ids|
    ensures InsertedAt(ids, id, i)[j] == if j < i then ids[j] else if j == i then id else ids[j - 1]
  {
  }

  lemma InsertedIsDistinct(ids: seq<Id>, id: Id, i: nat)
    requires Distinct(ids) && id !in ids && i <= |ids|
    ensures Distinct(InsertedAt(ids, id, i))
  {
    var r := InsertedAt(ids, id, i);
    forall j, k | 0 <= j < k < |r| ensures r[j] != r[k] {
      InsertedElement(ids, id, i, j);
      InsertedElement(ids, id, i, k);
    }
  }

  lemma InsertedIsByAge(store: Store, ids: seq<Id>, id: Id, i: nat)
    requires ByAge(store, ids) && id in store && i <= |ids|
    requires forall j | 0 <= j < i :: store[ids[j]].createdAt <= store[id].createdAt
    requires i < |ids| ==> store[id].createdAt <= store[ids[i]].createdAt
    ensures ByAge(store, InsertedAt(ids, id, i))
  {
    var r := InsertedAt(ids, id, i);
    InsertedMembers(ids, id, i);
    forall j, k | 0 <= j < k < |r| ensures store[r[j]].createdAt <= store[r[k]].createdAt {
      InsertedElement(ids, id, i, j);
      InsertedElement(ids, id, i, k);
      hide InsertedAt;
      if i < |ids| && i < k {
        assert store[ids[i]].createdAt <= store[ids[k - 1]].createdAt;
      }
    }
  }

  method InsertByAge(store: Store, ids: seq<Id>, id: Id) returns (r: seq<Id>)
    requires ByAge(store, ids) && Distinct(ids) && id in store && id !in ids
    ensures ByAge(store, r) && Distinct(r)
    ensures forall x :: x in r <==> x in ids || x == id
  {
    var i := 0;
    while i < |ids| && store[ids[i]].createdAt <= store[id].createdAt
      invariant 0 <= i <= |ids|
      invariant forall j | 0 <= j < i :: store[ids[j]].createdAt <= store[id].createdAt
    {
      i := i + 1;
    }
    InsertedMembers(ids, id, i);
    InsertedIsDistinct(ids, id, i);
    InsertedIsByAge(store, ids, id, i);
    hide ByAge, Distinct;
    r := InsertedAt(ids, id, i);
  }

  method SortTerminals(store: Store) returns (sorted: seq<Id>)
    ensures TerminalsByAge(store, sorted)
  {
    sorted := [];
    var rest := store.Keys;
    while rest != {}
      invariant rest <= store.Keys && ByAge(store, sorted) && Distinct(sorted)
      invariant forall id :: id in sorted <==> id in store && id !in rest && Terminal(store[id])
      decreases |rest|
    {
      var id :| id in rest;
      if Terminal(store[id]) {
        sorted := InsertByAge(store, sorted, id);
      }
      rest := rest - {id};
    }
  }

  lemma WithoutOneMore(store: Store, sorted: seq<Id>, i: nat)
    requires i < |sorted| && Distinct(sorted) && sorted[i] in store
    ensures Without(store, sorted[..i + 1]) == Without(store, sorted[..i]) - {sorted[i]}
    ensures |Without(store, sorted[..i + 1])| == |Without(store, sorted[..i])| - 1
  {
    assert sorted[..i + 1] == sorted[..i] + [sorted[i]];
    var before, after := Without(store, sorted[..i]), Without(store, sorted[..i + 1]);
    assert sorted[i] in before;
    assert after == before - {sorted[i]};
    assert after.Keys == before.Keys - {sorted[i]};
  }

  lemma PrefixEvicts(store: Store, sorted: seq<Id>, n: nat)
    requires TerminalsByAge(store, sorted) && n <= |sorted|
    requires n > 0 ==> |Without(store, sorted[..n])| >= MAX_STORED_JOBS
    requires |Without(store, sorted[..n])| <= MAX_STORED_JOBS || n == |sorted|
    ensures Evicts(store, sorted[..n])
  {
    var evicted := sorted[..n];
    assert forall id | id in evicted :: id in sorted;
    forall j | 0 <= j < n ensures sorted[j] in evicted {
      assert evicted[j] == sorted[j];
    }
    if n == |sorted| {
      assert evicted == sorted;
    }
    forall gone, kept | gone in evicted && kept in store && kept !in evicted && Terminal(store[kept])
      ensures store[gone].createdAt <= store[kept].createdAt
    {
      var i :| 0 <= i < n && sorted[i] == gone;
      assert kept in sorted;
      var j :| 0 <= j < |sorted| && sorted[j] == kept;
    }
  }

  /** Drop the oldest terminal jobs until the store is within its limit. */
  method Evict(store: Store) returns (kept: Store, evicted: seq<Id>)
    ensures Evicts(store, evicted) && kept == Without(store, evicted)
  {
    kept, evicted := store, [];
    assert Without(store, []) == store;
    if |store| <= MAX_STORED_JOBS {
      return;
    }
    var sorted := SortTerminals(store);
    var n := 0;
    while n < |sorted| && |kept| > MAX_STORED_JOBS
      invariant 0 <= n <= |sorted|
      invariant evicted == sorted[..n] && kept == Without(store, evicted)
      invariant |kept| >= MAX_STORED_JOBS
    {
      assert sorted[n] in sorted;
      WithoutOneMore(store, sorted, n);
      kept := kept - {sorted[n]};
      evicted := evicted + [sorted[n]];
      n := n + 1;
    }
    PrefixEvicts(store, sorted, n);
  }

  // ------------------------------------------------------------------------ the system

  /** Where a submission stands. */
  datatype SubmitPhase =
    | Logged    // its log buffer exists
    | Stored    // it is in the store, not in the queue yet
    | Refused  // the queue was full
    | Closed    // and its log is finalized

  /** Where a worker stands with the job it popped. */
  datatype WorkPhase =
    | Popped
    | Skipped     // it was cancelled or evicted: only the log is left to finalize
    | Registered  // its cancel function is registered, its status is unchanged
    | Building    // its status has been set to running
    | Ended       // its terminal status has been set
    | Finalized   // its log is finalized, its cancel function still registered

  datatype State = State(
    store: Store,
    logs: set<Id>,
    queue: seq<Id>,
    running: set<Id>,
    submits: map<Id, SubmitPhase>,
    tasks: map<Id, WorkPhase>,
    used: set<Id>,
    popped: seq<Id>)

  datatype Event =
    | OpenLog(id: Id)
    | StoreJob(id: Id, createdAt: int, evicted: seq<Id>)
    | Push(id: Id)
    | CloseRefused(id: Id)
    | FailRefused(id: Id)
    | Cancel(id: Id)
    | Pop
    | Look(id: Id)
    | MarkRunning(id: Id)
    | Finish(id: Id, end: BuildEnd)
    | FinalizeLog(id: Id)
    | Release(id: Id)

  predicate Submitting(s: State, id: Id, phase: SubmitPhase) {
    id in s.submits && s.submits[id] == phase
  }

  predicate Working(s: State, id: Id, phase: WorkPhase) {
    id in s.tasks && s.tasks[id] == phase
  }

  ghost predicate Enabled(workers: nat, s: State, e: Event) {
    match e
    case OpenLog(id) => id !in s.used
    case StoreJob(id, createdAt, evicted) =>
      Submitting(s, id, Logged) && Evicts(s.store[id := Job(Queued, createdAt)], evicted)
    case Push(id) => Submitting(s, id, Stored)
    case CloseRefused(id) => Submitting(s, id, Refused)
    case FailRefused(id) => Submitting(s, id, Closed)
    case Cancel(id) => id in s.store && s.store[id].status.Queued?
    case Pop => s.queue != [] && |s.tasks| < workers
    case Look(id) => Working(s, id, Popped)
    case MarkRunning(id) => Working(s, id, Registered)
    case Finish(id, _) => Working(s, id, Building)
    case FinalizeLog(id) => Working(s, id, Skipped) || Working(s, id, Ended)
    case Release(id) => Working(s, id, Finalized)
  }

  /** A change of a job's status, which is lost when the job is no longer stored. */
  function Update(store: Store, id: Id, status: Status): Store {
    if id in store then store[id := store[id].(status := status)] else store
  }

  /** A popped job that was evicted or cancelled in the meantime must not be built. */
  predicate MustSkip(store: Store, id: Id) {
    id !in store || store[id].status.Cancelled?
  }

  ghost function Apply(workers: nat, s: State, e: Event): State
    requires Enabled(workers, s, e)
  {
    match e
    case OpenLog(id) => s.(used := s.used + {id}, logs := s.logs + {id}, submits := s.submits[id := Logged])
    case StoreJob(id, createdAt, evicted) =>
      s.(store := Without(s.store[id := Job(Queued, createdAt)], evicted), submits := s.submits[id := Stored])
    case Push(id) =>
      if |s.queue| < QUEUE_SIZE then s.(queue := s.queue + [id], submits := s.submits - {id})
      else s.(submits := s.submits[id := Refused])
    case CloseRefused(id) => s.(logs := s.logs - {id}, submits := s.submits[id := Closed])
    case FailRefused(id) => s.(store := Update(s.store, id, Failed), submits := s.submits - {id})
    case Cancel(id) => s.(store := Update(s.store, id, Cancelled))
    case Pop =>
      var id := s.queue[0];
      s.(queue := s.queue[1..], tasks := s.tasks[id := Popped], popped := s.popped + [id])
    case Look(id) =>
      if MustSkip(s.store, id) then s.(tasks := s.tasks[id := Skipped])
      else s.(tasks := s.tasks[id := Registered], running := s.running + {id})
    case MarkRunning(id) => s.(store := Update(s.store, id, Running), tasks := s.tasks[id := Building])
    case Finish(id, end) => s.(store := Update(s.store, id, Verdict(end)), tasks := s.tasks[id := Ended])
    case FinalizeLog(id) =>
      if s.tasks[id] == Skipped then s.(logs := s.logs - {id}, tasks := s.tasks - {id})
      else s.(logs := s.logs - {id}, tasks := s.tasks[id := Finalized])
    case Release(id) => s.(running := s.running - {id}, tasks := s.tasks - {id})
  }

  /** At the start the store holds only what was restored, and restoring fails unfinished jobs. */
  ghost predicate Initial(s: State) {
    && (forall id | id in s.store :: Terminal(s.store[id]) && id in s.used)
    && s == State(s.store, {}, [], {}, map[], map[], s.used, [])
  }

  ghost predicate Run(workers: nat, states: seq<State>, events: seq<Event>) {
    && |states| == |events| + 1
    && Initial(states[0])
    && forall i | 0 <= i < |events| ::
         Enabled(workers, states[i], events[i]) && states[i + 1] == Apply(workers, states[i], events[i])
  }
}
