/** What every interleaving of database transactions keeps. */
module RepoTransactionProofs {
  import opened Collections
  import opened Packages
  import opened RepoTransactions

  // ---------------------------------------------------------------- invariants

  predicate Publishing(pc: Pc) {
    pc.CheckLive? || pc.ReadEtag? || pc.StoreDerived? || pc.FinalCheck?
  }

  predicate Active(a: Actor) {
    !a.pc.Succeeded? && !a.pc.Failed?
  }

  ghost predicate Wrote(log: seq<Commit>, id: nat) {
    exists k :: 0 <= k < |log| && log[k].writer == id
  }

  /** The log holds this actor's mutation, and its result was exactly `db`. */
  ghost predicate Recorded(start: Option<Database>, log: seq<Commit>, id: nat, m: Mutation, db: Database) {
    exists k :: 0 <= k < |log| && log[k] == Commit(id, m) && Fold(start, log, k + 1) == Some(db)
  }

  /** An ETag was issued for one content only. */
  predicate IssuedFor(issued: map<nat, Archive>, s: Option<Stored<Archive>>) {
    s.Some? ==> s.value.etag in issued && issued[s.value.etag] == s.value.content
  }

  /** Every mutation in the log was accepted by the database it met. */
  ghost predicate AllAccepted(start: Option<Database>, log: seq<Commit>) {
    forall k | 0 < k <= |log| :: Fold(start, log, k).Some?
  }

  lemma {:induction false} FoldPrefix(start: Option<Database>, log: seq<Commit>, log': seq<Commit>, k: nat)
    requires k <= |log| <= |log'| && log'[..|log|] == log
    ensures Fold(start, log', k) == Fold(start, log, k)
  {
    if k > 0 {
      FoldPrefix(start, log, log', k - 1);
      assert log'[k - 1] == log'[..|log|][k - 1];
    }
  }

  ghost predicate SharedInv(start: Option<Database>, sh: Shared) {
    && IssuedFor(sh.issued, sh.canonical)
    && AllAccepted(start, sh.log)
    && Pkgs(sh.canonical) == Fold(start, sh.log, |sh.log|)
  }

  ghost predicate ActorInv(start: Option<Database>, sh: Shared, id: nat, a: Actor) {
    && IssuedFor(sh.issued, a.snapshot)
    && (a.pc.CommitCanonical? ==> a.task.Writing? && Effect(a.task.mutation, Pkgs(a.snapshot)) == Some(a.local.pkgs))
    && (a.task.Writing? && (Publishing(a.pc) || a.pc.Succeeded?) ==>
          Recorded(start, sh.log, id, a.task.mutation, a.local.pkgs))
    && (Wrote(sh.log, id) ==> a.task.Writing? && (a.marked || Publishing(a.pc) || a.pc.Succeeded?))
    && (a.pc.Failed? ==> a.pc.committedMarker == a.marked)
  }

  ghost predicate Inv(start: Option<Database>, st: State) {
    && SharedInv(start, st.shared)
    && (forall id | id in st.actors :: ActorInv(start, st.shared, id, st.actors[id]))
    && (forall k | 0 <= k < |st.shared.log| :: st.shared.log[k].writer in st.actors)
    && (forall k | 0 <= k < |st.shared.log| :: st.actors[st.shared.log[k].writer].task == Writing(st.shared.log[k].mutation))
  }

  /** What a step of transaction `id` may do to the shared objects. */
  ghost predicate Extends(sh: Shared, sh': Shared, id: nat) {
    && (forall e | e in sh.issued :: e in sh'.issued && sh'.issued[e] == sh.issued[e])
    && |sh.log| <= |sh'.log| <= |sh.log| + 1
    && sh'.log[..|sh.log|] == sh.log
    && (|sh'.log| == |sh.log| ==> sh'.canonical == sh.canonical)
    && (|sh'.log| == |sh.log| + 1 ==> sh'.log[|sh.log|].writer == id)
  }

  lemma AdvanceFrame(a: Actor, i: nat)
    ensures var r := Advance(a, i);
      r == a.(pc := r.pc, derivedAttempt := r.derivedAttempt) && Publishing(r.pc)
    decreases |a.localDerived| - i
  {
  }

  lemma RecordedStays(start: Option<Database>, log: seq<Commit>, log': seq<Commit>, id: nat, m: Mutation, db: Database)
    requires Recorded(start, log, id, m, db)
    requires |log| <= |log'| && log'[..|log|] == log
    ensures Recorded(start, log', id, m, db)
  {
    var k :| 0 <= k < |log| && log[k] == Commit(id, m) && Fold(start, log, k + 1) == Some(db);
    assert log'[k] == log'[..|log|][k];
    FoldPrefix(start, log, log', k + 1);
  }

  /** Steps of other transactions do not disturb what one transaction relies on. */
  lemma OthersUndisturbed(start: Option<Database>, sh: Shared, sh': Shared, mover: nat, id: nat, a: Actor)
    requires ActorInv(start, sh, id, a) && Extends(sh, sh', mover) && mover != id
    ensures ActorInv(start, sh', id, a)
  {
    if a.task.Writing? && (Publishing(a.pc) || a.pc.Succeeded?) {
      RecordedStays(start, sh.log, sh'.log, id, a.task.mutation, a.local.pkgs);
    }
    if Wrote(sh'.log, id) {
      var k :| 0 <= k < |sh'.log| && sh'.log[k].writer == id;
      assert sh'.log[k] == sh'.log[..|sh.log|][k];
      assert Wrote(sh.log, id);
    }
  }

  lemma CommitKeepsShared(start: Option<Database>, sh: Shared, id: nat, a: Actor, etag: nat)
    requires SharedInv(start, sh) && ActorInv(start, sh, id, a)
    requires a.pc.CommitCanonical?
    requires EtagOf(sh.canonical) == EtagOf(a.snapshot)
    requires etag in sh.issued ==> sh.issued[etag] == a.local
    ensures var sh' := WriteCanonical(sh, id, a, etag);
      && SharedInv(start, sh') && Extends(sh, sh', id)
      && Recorded(start, sh'.log, id, a.task.mutation, a.local.pkgs)
  {
    hide Effect;
    // Equal tokens name equal contents, so the mutation ran on exactly this database.
    assert Pkgs(sh.canonical) == Pkgs(a.snapshot);
    var log, log' := sh.log, sh.log + [Commit(id, a.task.mutation)];
    var n := |log|;
    FoldPrefix(start, log, log', n);
    assert log'[n] == Commit(id, a.task.mutation);
    forall k | 0 < k <= n ensures Fold(start, log', k).Some? {
      FoldPrefix(start, log, log', k);
    }
  }

  /** The guarantee of one step of transaction `id`. */
  ghost predicate Kept(start: Option<Database>, sh: Shared, id: nat, a: Actor, sh': Shared, a': Actor) {
    SharedInv(start, sh') && ActorInv(start, sh', id, a') && Extends(sh, sh', id) && a'.task == a.task
  }

  lemma PrepareKeepsInv(start: Option<Database>, sh: Shared, id: nat, a: Actor, r: Reply)
    requires SharedInv(start, sh) && ActorInv(start, sh, id, a) && a.pc.Prepare?
    ensures Kept(start, sh, id, a, sh, PrepareLocally(a, |sh.derived|, r))
  {
    hide Fold;
    if a.task.Reconciling? && a.snapshot.Some? && r.fate.Works? {
      AdvanceFrame(a.(local := a.snapshot.value.content,
                      localDerived := BuiltFrom(a.snapshot.value.content, |sh.derived|)), 0);
    }
  }

  lemma RetryKeepsInv(start: Option<Database>, sh: Shared, id: nat, a: Actor)
    requires ActorInv(start, sh, id, a) && Active(a)
    requires Wrote(sh.log, id) ==> a.marked
    ensures ActorInv(start, sh, id, Retry(a)) && Retry(a).task == a.task
  {
    hide Fold, Effect;
  }

  lemma TroubleKeepsInv(start: Option<Database>, sh: Shared, id: nat, a: Actor, conflict: bool)
    requires ActorInv(start, sh, id, a) && Publishing(a.pc)
    ensures ActorInv(start, sh, id, DerivedTrouble(a, conflict)) && DerivedTrouble(a, conflict).task == a.task
  {
    hide Fold, Effect;
  }

  lemma CommitKeepsInv(start: Option<Database>, sh: Shared, id: nat, a: Actor, r: Reply)
    requires SharedInv(start, sh) && ActorInv(start, sh, id, a) && a.pc.CommitCanonical?
    requires r.etag in sh.issued ==> sh.issued[r.etag] == a.local
    ensures var (sh', a') := CommitDatabase(sh, id, a, r); Kept(start, sh, id, a, sh', a')
  {
    hide Fold, Effect, Retry, Advance;
    AdvanceFrame(a, 0);
    RetryKeepsInv(start, sh, id, a.(marked := true));
    if EtagOf(sh.canonical) == EtagOf(a.snapshot) {
      CommitKeepsShared(start, sh, id, a, r.etag);
      RetryKeepsInv(start, WriteCanonical(sh, id, a, r.etag), id, a.(marked := true));
    } else if r.fate.Works? {
      RetryKeepsInv(start, sh, id, a);
    }
  }

  lemma LookKeepsInv(start: Option<Database>, sh: Shared, id: nat, a: Actor, r: Reply)
    requires ActorInv(start, sh, id, a) && Publishing(a.pc)
    ensures ActorInv(start, sh, id, Look(sh, a, r)) && Look(sh, a, r).task == a.task
  {
    hide Fold, Effect, DerivedTrouble;
    TroubleKeepsInv(start, sh, id, a, true);
    TroubleKeepsInv(start, sh, id, a, false);
  }

  /** Moving on between derived artifacts changes nothing the invariant speaks of. */
  lemma StillPublishing(start: Option<Database>, sh: Shared, id: nat, a: Actor, a': Actor)
    requires ActorInv(start, sh, id, a) && Publishing(a.pc) && Publishing(a'.pc)
    requires a' == a.(pc := a'.pc, derivedAttempt := a'.derivedAttempt)
    ensures ActorInv(start, sh, id, a')
  {
    hide Fold, Effect;
  }

  lemma DerivedWriteIsHarmless(start: Option<Database>, sh: Shared, sh': Shared, id: nat, a: Actor)
    requires SharedInv(start, sh) && ActorInv(start, sh, id, a) && sh' == sh.(derived := sh'.derived)
    ensures SharedInv(start, sh') && ActorInv(start, sh', id, a) && Extends(sh, sh', id)
  {
    hide Fold, Effect;
  }

  lemma PublishKeepsInv(start: Option<Database>, sh: Shared, id: nat, a: Actor, i: nat, r: Reply)
    requires SharedInv(start, sh) && ActorInv(start, sh, id, a) && Publishing(a.pc)
    ensures var (sh', a') := PublishDerived(sh, a, i, r); Kept(start, sh, id, a, sh', a')
  {
    hide Fold, Effect, DerivedTrouble, Advance, SharedInv, ActorInv, Extends;
    var (sh', a') := PublishDerived(sh, a, i, r);
    DerivedWriteIsHarmless(start, sh, sh', id, a);
    AdvanceFrame(a, i + 1);
    TroubleKeepsInv(start, sh', id, a, true);
    TroubleKeepsInv(start, sh', id, a, false);
    StillPublishing(start, sh', id, a, a.(pc := CheckLive(i), derivedAttempt := a.derivedAttempt + 1));
    StillPublishing(start, sh', id, a, Advance(a, i + 1));
  }

  lemma ActKeepsInv(start: Option<Database>, sh: Shared, id: nat, a: Actor, r: Reply)
    requires SharedInv(start, sh) && ActorInv(start, sh, id, a)
    requires r.etag in sh.issued ==> sh.issued[r.etag] == a.local
    ensures var (sh', a') := Act(sh, id, a, r); Kept(start, sh, id, a, sh', a')
  {
    hide Fold, Effect, PrepareLocally, CommitDatabase, Look, PublishDerived;
    match a.pc {
      case Prepare => PrepareKeepsInv(start, sh, id, a, r);
      case CommitCanonical => CommitKeepsInv(start, sh, id, a, r);
      case StoreDerived(i) => PublishKeepsInv(start, sh, id, a, i, r);
      case CheckLive(_) => LookKeepsInv(start, sh, id, a, r);
      case ReadEtag(_) => LookKeepsInv(start, sh, id, a, r);
      case FinalCheck => LookKeepsInv(start, sh, id, a, r);
      case _ =>
    }
  }

  lemma BeginKeepsInv(start: Option<Database>, st: State, id: nat, task: Task)
    requires Inv(start, st) && Allowed(st, Begin(id, task))
    ensures Inv(start, Next(st, Begin(id, task)))
  {
    hide Fold, Effect;
    assert !Wrote(st.shared.log, id);
  }

  lemma StepKeepsInv(start: Option<Database>, st: State, e: Event)
    requires Inv(start, st) && Allowed(st, e)
    ensures Inv(start, Next(st, e))
  {
    hide Act, Fold, Effect;
    match e {
      case Begin(id, task) => BeginKeepsInv(start, st, id, task);
      case Step(id, r) =>
        var st' := Next(st, e);
        ActKeepsInv(start, st.shared, id, st.actors[id], r);
        hide ActorInv, SharedInv;
        forall j | j in st'.actors ensures ActorInv(start, st'.shared, j, st'.actors[j]) {
          if j != id {
            OthersUndisturbed(start, st.shared, st'.shared, id, j, st.actors[j]);
          }
        }
        forall k | 0 <= k < |st'.shared.log|
          ensures st'.shared.log[k].writer in st'.actors
          ensures st'.actors[st'.shared.log[k].writer].task == Writing(st'.shared.log[k].mutation)
        {
          if k < |st.shared.log| {
            assert st'.shared.log[k] == st'.shared.log[..|st.shared.log|][k];
          } else {
            NewCommit(start, st, id, r);
          }
        }
    }
  }

  /** A new entry of the log is the stepping writer's own mutation. */
  lemma NewCommit(start: Option<Database>, st: State, id: nat, r: Reply)
    requires Inv(start, st) && Allowed(st, Step(id, r))
    ensures var (sh', a') := Act(st.shared, id, st.actors[id], r);
      |sh'.log| > |st.shared.log| ==> st.actors[id].task == Writing(sh'.log[|st.shared.log|].mutation)
  {
    hide Fold, Effect, PrepareLocally, Look;
  }

  lemma {:induction false} RunKeepsInv(states: seq<State>, events: seq<Event>, k: nat)
    requires Run(states, events) && k <= |events|
    ensures Inv(Pkgs(states[0].shared.canonical), states[k])
  {
    if k > 0 {
      RunKeepsInv(states, events, k - 1);
      StepKeepsInv(Pkgs(states[0].shared.canonical), states[k - 1], events[k - 1]);
    }
  }
}
