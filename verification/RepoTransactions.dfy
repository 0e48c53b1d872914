/** The optimistic database transaction of one repository architecture: any
    number of writers and reconcilers, on any number of server instances, take
    turns at single store calls. Every call may fail, and a failing write may
    nevertheless have landed. */
module RepoTransactions {
  import opened Collections
  import opened Packages

  /** The bytes of a canonical archive. Equal package maps may be packed
      differently, which `stamp` records. */
  datatype Archive = Archive(pkgs: Database, stamp: nat)

  /** The `kind`-th derived artifact (files archive, then signatures) built from `of`. */
  datatype Derived = Derived(kind: nat, of: Archive)

  datatype Stored<T> = Stored(content: T, etag: nat)

  datatype Task = Writing(mutation: Mutation) | Reconciling

  datatype Pc =
    | FetchCanonical
    | FetchDerived(i: nat)
    | Prepare
    | CommitCanonical
    | CheckLive(i: nat)
    | ReadEtag(i: nat)
    | StoreDerived(i: nat)
    | FinalCheck
    | Succeeded
    | Failed(committedMarker: bool)

  /** One transaction: its program counter and its private working directory. */
  datatype Actor = Actor(
    task: Task,
    pc: Pc,
    attempt: nat,
    derivedAttempt: nat,
    snapshot: Option<Stored<Archive>>,
    fetched: seq<Option<Derived>>,
    local: Archive,
    localDerived: seq<Option<Derived>>,
    seenEtag: Option<nat>,
    marked: bool)

  datatype Commit = Commit(writer: nat, mutation: Mutation)

  /** The objects all instances share. `issued` and `log` only record history:
      the content each canonical ETag was issued for, and the committed mutations. */
  datatype Shared = Shared(
    canonical: Option<Stored<Archive>>,
    derived: seq<Option<Stored<Derived>>>,
    issued: map<nat, Archive>,
    log: seq<Commit>)

  /** How the world answers one call. `Lost` is a write that lands although the
      caller sees an error; `etag` and `stamp` are the fresh values a write or
      the repository tool picks. */
  datatype Reply = Reply(fate: Fate, etag: nat, stamp: nat)
  datatype Fate = Works | Fails | Lost

  const MAX_ATTEMPTS: nat := 6

  function Idle(task: Task): Actor {
    Actor(task, FetchCanonical, 0, 0, None, [], Archive(map[], 0), [], None, false)
  }

  function Finish(a: Actor, pc: Pc): Actor { a.(pc := pc) }

  function Fail(a: Actor): Actor { Finish(a, Failed(a.marked)) }

  /** The next attempt starts from a freshly fetched canonical database. */
  function Retry(a: Actor): Actor {
    if a.attempt + 1 < MAX_ATTEMPTS
    then a.(pc := FetchCanonical, attempt := a.attempt + 1, fetched := [], localDerived := [])
    else Fail(a)
  }

  /** A writer reports any failure after its canonical commit as committed and
      retries; a reconciler retries conflicts and gives up on other errors. */
  function DerivedTrouble(a: Actor, conflict: bool): Actor {
    if a.task.Writing? then Retry(a.(marked := true))
    else if conflict then Retry(a)
    else Fail(a)
  }

  /** Move to the next derived artifact that exists in the working directory. */
  function Advance(a: Actor, i: nat): (r: Actor)
    decreases |a.localDerived| - i
  {
    if i >= |a.localDerived| then a.(pc := FinalCheck)
    else if a.localDerived[i].None? then Advance(a, i + 1)
    else a.(pc := CheckLive(i), derivedAttempt := 0)
  }

  function Pkgs(s: Option<Stored<Archive>>): Option<Database> {
    if s.Some? then Some(s.value.content.pkgs) else None
  }

  /** The tool's contract: the archives it leaves beside a database describe it. */
  function BuiltFrom(local: Archive, n: nat): seq<Option<Derived>> {
    seq(n, (i: nat) => Some(Derived(i, local)))
  }

  /** The current object with its token, as one fetch returns both. */
  function LiveMatches(sh: Shared, local: Archive): bool {
    sh.canonical.Some? && sh.canonical.value.content == local
  }

  function EtagOf<T>(o: Option<Stored<T>>): Option<nat> {
    if o.Some? then Some(o.value.etag) else None
  }

  function WriteCanonical(sh: Shared, id: nat, a: Actor, etag: nat): Shared
    requires a.task.Writing?
  {
    sh.(canonical := Some(Stored(a.local, etag)),
        issued := sh.issued[etag := a.local],
        log := sh.log + [Commit(id, a.task.mutation)])
  }

  /** The mutation, or the rebuild of a reconciler, on the working copy. */
  function PrepareLocally(a: Actor, n: nat, r: Reply): Actor {
    if r.fate != Works then Fail(a)
    else match a.task
      case Reconciling =>
        if a.snapshot.None? then Finish(a, Succeeded)
        else
          var local := a.snapshot.value.content;
          Advance(a.(local := local, localDerived := BuiltFrom(local, n)), 0)
      case Writing(m) =>
        match Mutate(m, Pkgs(a.snapshot))
        case Rejected => Fail(a)
        case Untouched =>
          if a.snapshot.None? then Fail(a)
          else a.(pc := CommitCanonical, local := a.snapshot.value.content, localDerived := a.fetched)
        case Rewritten(db) =>
          var local := Archive(db, r.stamp);
          a.(pc := CommitCanonical, local := local, localDerived := BuiltFrom(local, n))
  }

  /** Seed the working directory: the canonical archive, then the derived ones.
      A reconciler needs only the files archive, the first of them. */
  function Fetch(sh: Shared, a: Actor, r: Reply): Actor {
    if r.fate != Works then Fail(a)
    else match a.pc
      case FetchDerived(i) =>
        if i >= |sh.derived| then a.(pc := Prepare)
        else
          var copy := if sh.derived[i].Some? then Some(sh.derived[i].value.content) else None;
          var more := a.task.Writing? && i + 1 < |sh.derived|;
          a.(fetched := a.fetched + [copy], pc := if more then FetchDerived(i + 1) else Prepare)
      case _ =>
        if a.task.Reconciling? && sh.canonical.None? then Finish(a, Succeeded)
        else a.(snapshot := sh.canonical, pc := FetchDerived(0))
  }

  /** The conditional write that publishes the mutated database. */
  function CommitDatabase(sh: Shared, id: nat, a: Actor, r: Reply): (Shared, Actor)
    requires a.task.Writing?
  {
    if r.fate == Fails then (sh, Retry(a.(marked := true)))
    else if EtagOf(sh.canonical) != EtagOf(a.snapshot) then
      (sh, if r.fate == Lost then Retry(a.(marked := true)) else Retry(a))
    else if r.fate == Lost then
      (WriteCanonical(sh, id, a, r.etag), Retry(a.(marked := true)))
    else (WriteCanonical(sh, id, a, r.etag), Advance(a, 0))
  }

  /** Both guards and the token read around one derived write; they only look. */
  function Look(sh: Shared, a: Actor, r: Reply): Actor {
    if r.fate != Works then DerivedTrouble(a, false)
    else match a.pc
      case ReadEtag(i) =>
        if i >= |sh.derived| then DerivedTrouble(a, false)
        else a.(seenEtag := EtagOf(sh.derived[i]), pc := StoreDerived(i))
      case CheckLive(i) =>
        if !LiveMatches(sh, a.local) then DerivedTrouble(a, true) else a.(pc := ReadEtag(i))
      case _ =>
        if !LiveMatches(sh, a.local) then DerivedTrouble(a, true) else Finish(a, Succeeded)
  }

  /** The conditional write of the `i`-th derived artifact. */
  function PublishDerived(sh: Shared, a: Actor, i: nat, r: Reply): (Shared, Actor) {
    if r.fate == Fails || i >= |sh.derived| || i >= |a.localDerived| || a.localDerived[i].None? then
      (sh, DerivedTrouble(a, false))
    else if EtagOf(sh.derived[i]) != a.seenEtag then
      if r.fate == Lost then (sh, DerivedTrouble(a, false))
      else if a.derivedAttempt + 1 < MAX_ATTEMPTS
      then (sh, a.(pc := CheckLive(i), derivedAttempt := a.derivedAttempt + 1))
      else (sh, DerivedTrouble(a, true))
    else
      var written := sh.(derived := sh.derived[i := Some(Stored(a.localDerived[i].value, r.etag))]);
      (written, if r.fate == Lost then DerivedTrouble(a, false) else Advance(a, i + 1))
  }

  /** One store call, or one local step, of transaction `a`. */
  function Act(sh: Shared, id: nat, a: Actor, r: Reply): (Shared, Actor) {
    match a.pc
    case FetchCanonical => (sh, Fetch(sh, a, r))
    case FetchDerived(_) => (sh, Fetch(sh, a, r))
    case Prepare => (sh, PrepareLocally(a, |sh.derived|, r))
    case CommitCanonical => if a.task.Writing? then CommitDatabase(sh, id, a, r) else (sh, Fail(a))
    case CheckLive(_) => (sh, Look(sh, a, r))
    case ReadEtag(_) => (sh, Look(sh, a, r))
    case StoreDerived(i) => PublishDerived(sh, a, i, r)
    case FinalCheck => (sh, Look(sh, a, r))
    case Succeeded => (sh, a)
    case Failed(_) => (sh, a)
  }

  /** The database after the first `k` committed mutations, applied in commit order. */
  function Fold(start: Option<Database>, log: seq<Commit>, k: nat): Option<Database>
    requires k <= |log|
  {
    if k == 0 then start else Effect(log[k - 1].mutation, Fold(start, log, k - 1))
  }

  /** A run is driven by events: a transaction begins, or one takes its next step. */
  datatype Event = Begin(id: nat, task: Task) | Step(id: nat, reply: Reply)

  datatype State = State(shared: Shared, actors: map<nat, Actor>)

  /** The store's promise about ETags: one token never names two contents. */
  predicate Allowed(st: State, e: Event) {
    match e
    case Begin(id, _) => id !in st.actors
    case Step(id, r) =>
      && id in st.actors
      && (r.etag in st.shared.issued ==> st.shared.issued[r.etag] == st.actors[id].local)
  }

  function Next(st: State, e: Event): State
    requires Allowed(st, e)
  {
    match e
    case Begin(id, task) => st.(actors := st.actors[id := Idle(task)])
    case Step(id, r) =>
      var (sh, a) := Act(st.shared, id, st.actors[id], r);
      State(sh, st.actors[id := a])
  }

  /** Before anything runs: some canonical object, or none, and any derived ones. */
  ghost predicate Initial(st: State) {
    && st.actors == map[]
    && st.shared.log == []
    && (st.shared.canonical.Some? ==>
          && st.shared.canonical.value.etag in st.shared.issued
          && st.shared.issued[st.shared.canonical.value.etag] == st.shared.canonical.value.content)
  }

  /** The states an interleaving passes through, one event between neighbours. */
  ghost predicate Run(states: seq<State>, events: seq<Event>) {
    && |states| == |events| + 1
    && Initial(states[0])
    && forall k | 0 <= k < |events| :: Allowed(states[k], events[k]) && states[k + 1] == Next(states[k], events[k])
  }
}
