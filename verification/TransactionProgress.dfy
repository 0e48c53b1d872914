/** Transactions end, and they fail for a reason: how much interference one survives. */
module TransactionProgress {
  import opened Collections
  import opened Packages
  import opened RepoTransactions
  import opened RepoTransactionProofs

  // ------------------------------------------------------------------ how far it is

  function Max(a: nat, b: nat): nat {
    if a < b then b else a
  }

  /** Steps the current attempt can still take with `n` derived artifacts, each of which it may have to try again. */
  function StepsLeft(pc: Pc, derivedAttempt: nat, n: nat): int {
    match pc
    case FetchCanonical => Max(n, 1) + 3 * MAX_ATTEMPTS * n + 4
    case FetchDerived(i) => Max(n, 1) - i + 3 * MAX_ATTEMPTS * n + 3
    case Prepare => 3 * MAX_ATTEMPTS * n + 3
    case CommitCanonical => 3 * MAX_ATTEMPTS * n + 2
    case CheckLive(i) => 3 * MAX_ATTEMPTS * (n - i) - 3 * derivedAttempt + 1
    case ReadEtag(i) => 3 * MAX_ATTEMPTS * (n - i) - 3 * derivedAttempt
    case StoreDerived(i) => 3 * MAX_ATTEMPTS * (n - i) - 3 * derivedAttempt - 1
    case FinalCheck => 1
    case Succeeded => 0
    case Failed(_) => 0
  }

  /** Steps that `attempts` further attempts can take. */
  function Reserve(n: nat, attempts: int): nat
    decreases if attempts < 0 then 0 else attempts
  {
    if attempts <= 0 then 0 else Max(n, 1) + 3 * MAX_ATTEMPTS * n + 4 + Reserve(n, attempts - 1)
  }

  function Remaining(a: Actor, n: nat): int {
    if Active(a) then Reserve(n, MAX_ATTEMPTS - 1 - a.attempt) + StepsLeft(a.pc, a.derivedAttempt, n) else 0
  }

  /** No transaction takes more steps of its own. */
  function MostSteps(n: nat): nat {
    Reserve(n, MAX_ATTEMPTS)
  }

  lemma MostStepsIsLinear(n: nat)
    ensures MostSteps(n) == MAX_ATTEMPTS * ((if n == 0 then 1 else n) + 3 * MAX_ATTEMPTS * n + 4)
  {
    assert Reserve(n, 2) == 2 * Reserve(n, 1);
    assert Reserve(n, 4) == 2 * Reserve(n, 1) + Reserve(n, 2);
  }

  // ------------------------------------------------------------- what it relies on

  /** The derived artifact it is at exists in its working directory. */
  predicate At(a: Actor, n: nat, i: nat) {
    i < n && i < |a.localDerived| && a.localDerived[i].Some? && a.derivedAttempt < MAX_ATTEMPTS
  }

  /** Its working directory matches its program counter. */
  predicate Fits(a: Actor, n: nat) {
    && a.attempt < MAX_ATTEMPTS
    && (a.pc.FetchCanonical? ==> a.fetched == [])
    && (a.pc.FetchDerived? ==> a.pc.i < Max(n, 1) && |a.fetched| == a.pc.i)
    && (a.pc.Prepare? && a.task.Writing? ==> |a.fetched| == n)
    && (a.pc.CommitCanonical? ==> a.task.Writing?)
    && (a.pc.CommitCanonical? || Publishing(a.pc) ==> |a.localDerived| == n)
    && (a.pc.CheckLive? || a.pc.ReadEtag? || a.pc.StoreDerived? ==> At(a, n, a.pc.i))
  }

  /** What it has read in this attempt is still so. */
  predicate Undisturbed(sh: Shared, a: Actor) {
    && (a.pc.FetchDerived? || a.pc.Prepare? || a.pc.CommitCanonical? ==> a.snapshot == sh.canonical)
    && (Publishing(a.pc) ==> LiveMatches(sh, a.local))
    && (a.pc.StoreDerived? && a.pc.i < |sh.derived| ==> a.seenEtag == EtagOf(sh.derived[a.pc.i]))
  }

  /** The calls whose failure a writer answers with another attempt. */
  predicate Repeatable(pc: Pc) {
    pc.CommitCanonical? || Publishing(pc)
  }

  /** The step at which a transaction gives up at once: the mutation is refused,
      or a call fails whose failure it does not answer with another attempt. */
  predicate Dooms(a: Actor, r: Reply) {
    Active(a)
    && if r.fate.Works? then a.pc.Prepare? && a.task.Writing? && Effect(a.task.mutation, Pkgs(a.snapshot)).None?
       else a.task.Reconciling? || !Repeatable(a.pc)
  }

  // --------------------------------------------------------------------- one step

  /** What every step of an active transaction does. */
  ghost predicate Progresses(sh: Shared, a: Actor, r: Reply, sh': Shared, a': Actor) {
    var n := |sh.derived|;
    && |sh'.derived| == n && a'.task == a.task && Fits(a', n)
    && Remaining(a', n) < Remaining(a, n)
    && (a'.pc.Failed? ==> Dooms(a, r) || (a.attempt + 1 == MAX_ATTEMPTS && !(r.fate.Works? && Undisturbed(sh, a))))
    && (a'.attempt == a.attempt || (a'.attempt == a.attempt + 1 && a'.pc.FetchCanonical?))
    && (r.fate.Works? && Undisturbed(sh, a) ==> a'.attempt == a.attempt && Undisturbed(sh', a'))
  }

  /** Publication moves on to the next derived artifact there is, passing over no other. */
  lemma AdvanceAt(a: Actor, i: nat, n: nat)
    requires |a.localDerived| == n && i <= n
    ensures var r := Advance(a, i);
      forall j | i <= j < (if r.pc.CheckLive? then r.pc.i else n) && j < n :: a.localDerived[j].None?
    ensures var r := Advance(a, i);
      && r == a.(pc := r.pc, derivedAttempt := r.derivedAttempt)
      && (r.pc.FinalCheck? || (r.pc.CheckLive? && i <= r.pc.i && At(r, n, r.pc.i)))
      && 0 < StepsLeft(r.pc, r.derivedAttempt, n) <= 3 * MAX_ATTEMPTS * (n - i) + 1
    decreases n - i
  {
    if i < n && a.localDerived[i].None? {
      AdvanceAt(a, i + 1, n);
    }
  }

  lemma RetryProgresses(sh: Shared, a: Actor, r: Reply, sh': Shared, b: Actor)
    requires Fits(a, |sh.derived|) && Active(a) && StepsLeft(a.pc, a.derivedAttempt, |sh.derived|) > 0
    requires |sh'.derived| == |sh.derived| && b.task == a.task && b.attempt == a.attempt
    requires !(r.fate.Works? && Undisturbed(sh, a))
    ensures Progresses(sh, a, r, sh', Retry(b))
  {
    hide Undisturbed;
  }

  lemma FetchProgresses(sh: Shared, a: Actor, r: Reply)
    requires Fits(a, |sh.derived|) && (a.pc.FetchCanonical? || a.pc.FetchDerived?)
    ensures Progresses(sh, a, r, sh, Fetch(sh, a, r))
  {
    hide Reserve, Effect, LiveMatches, EtagOf;
    if a.pc.FetchDerived? {
      assert StepsLeft(Fetch(sh, a, r).pc, a.derivedAttempt, |sh.derived|) < StepsLeft(a.pc, a.derivedAttempt, |sh.derived|);
    }
  }

  lemma PrepareProgresses(sh: Shared, a: Actor, r: Reply)
    requires Fits(a, |sh.derived|) && a.pc.Prepare?
    ensures Progresses(sh, a, r, sh, PrepareLocally(a, |sh.derived|, r))
  {
    hide Mutate, Advance, Reserve, EtagOf;
    if a.task.Reconciling? && a.snapshot.Some? {
      var local := a.snapshot.value.content;
      AdvanceAt(a.(local := local, localDerived := BuiltFrom(local, |sh.derived|)), 0, |sh.derived|);
    }
  }

  lemma CommitProgresses(sh: Shared, id: nat, a: Actor, r: Reply)
    requires Fits(a, |sh.derived|) && a.pc.CommitCanonical?
    ensures var (sh', a') := CommitDatabase(sh, id, a, r); Progresses(sh, a, r, sh', a')
  {
    hide Advance, Retry;
    AdvanceAt(a, 0, |sh.derived|);
    var (sh', a') := CommitDatabase(sh, id, a, r);
    if !(r.fate.Works? && Undisturbed(sh, a)) {
      RetryProgresses(sh, a, r, sh', a.(marked := true));
      RetryProgresses(sh, a, r, sh', a);
    }
  }

  lemma TroubleProgresses(sh: Shared, a: Actor, r: Reply, sh': Shared, conflict: bool)
    requires Fits(a, |sh.derived|) && Publishing(a.pc) && |sh'.derived| == |sh.derived|
    requires !(r.fate.Works? && Undisturbed(sh, a)) && (conflict || !r.fate.Works?)
    ensures Progresses(sh, a, r, sh', DerivedTrouble(a, conflict))
  {
    hide Retry, Undisturbed;
    RetryProgresses(sh, a, r, sh', a.(marked := true));
    RetryProgresses(sh, a, r, sh', a);
  }

  lemma LookProgresses(sh: Shared, a: Actor, r: Reply)
    requires Fits(a, |sh.derived|) && (a.pc.CheckLive? || a.pc.ReadEtag? || a.pc.FinalCheck?)
    ensures Progresses(sh, a, r, sh, Look(sh, a, r))
  {
    hide DerivedTrouble;
    if !r.fate.Works? {
      TroubleProgresses(sh, a, r, sh, false);
    } else if !LiveMatches(sh, a.local) {
      TroubleProgresses(sh, a, r, sh, true);
    }
  }

  lemma PublishProgresses(sh: Shared, a: Actor, i: nat, r: Reply)
    requires Fits(a, |sh.derived|) && a.pc == StoreDerived(i)
    ensures var (sh', a') := PublishDerived(sh, a, i, r); Progresses(sh, a, r, sh', a')
  {
    hide DerivedTrouble, Advance, Reserve;
    AdvanceAt(a, i + 1, |sh.derived|);
    var (sh', a') := PublishDerived(sh, a, i, r);
    if !r.fate.Works? {
      TroubleProgresses(sh, a, r, sh', false);
    } else if !Undisturbed(sh, a) {
      TroubleProgresses(sh, a, r, sh', true);
    }
  }

  lemma ActProgresses(sh: Shared, id: nat, a: Actor, r: Reply)
    requires Fits(a, |sh.derived|) && Active(a)
    ensures var (sh', a') := Act(sh, id, a, r); Progresses(sh, a, r, sh', a')
  {
    match a.pc {
      case FetchCanonical => FetchProgresses(sh, a, r);
      case FetchDerived(_) => FetchProgresses(sh, a, r);
      case Prepare => PrepareProgresses(sh, a, r);
      case CommitCanonical => CommitProgresses(sh, id, a, r);
      case StoreDerived(i) => PublishProgresses(sh, a, i, r);
      case CheckLive(_) => LookProgresses(sh, a, r);
      case ReadEtag(_) => LookProgresses(sh, a, r);
      case FinalCheck => LookProgresses(sh, a, r);
    }
    hide Progresses, Fetch, PrepareLocally, CommitDatabase, PublishDerived, Look;
  }

  // ------------------------------------------------------------------------ whole runs

  /** While it runs, one of its own calls fails or loses its reply, or someone else changes a shared object. */
  predicate Hinders(st: State, e: Event, st': State, id: nat) {
    && e.Step? && id in st.actors
    && if e.id == id then !e.reply.fate.Works?
       else st'.shared.canonical != st.shared.canonical || st'.shared.derived != st.shared.derived
  }

  function Hindrances(states: seq<State>, events: seq<Event>, id: nat, k: nat): nat
    requires |states| == |events| + 1 && k <= |events|
  {
    if k == 0 then 0
    else
      var more := if Hinders(states[k - 1], events[k - 1], states[k], id) then 1 else 0;
      Hindrances(states, events, id, k - 1) + more
  }

  function OwnSteps(events: seq<Event>, id: nat, k: nat): nat
    requires k <= |events|
  {
    if k == 0 then 0 else OwnSteps(events, id, k - 1) + if events[k - 1].Step? && events[k - 1].id == id then 1 else 0
  }

  predicate DoomsAt(st: State, e: Event, id: nat) {
    e.Step? && e.id == id && id in st.actors && Dooms(st.actors[id], e.reply)
  }

  /** It gave up at once at some step before the `k`-th. */
  ghost predicate Doomed(states: seq<State>, events: seq<Event>, id: nat, k: nat)
    requires |states| == |events| + 1 && k <= |events|
  {
    exists j :: 0 <= j < k && DoomsAt(states[j], events[j], id)
  }

  /** Attempts are paid for by hindrances, steps by the rank. */
  ghost predicate Accounted(sh: Shared, a: Actor, hindrances: nat, steps: nat, doomed: bool) {
    && Fits(a, |sh.derived|)
    && a.attempt <= hindrances && (a.attempt < hindrances || Undisturbed(sh, a))
    && (a.pc.Failed? ==> doomed || hindrances >= MAX_ATTEMPTS)
    && (Active(a) ==> steps + Remaining(a, |sh.derived|) <= MostSteps(|sh.derived|))
  }

  lemma AccountBegin(sh: Shared, task: Task)
    ensures Accounted(sh, Idle(task), 0, 0, false)
  {
  }

  lemma AccountOwnStep(sh: Shared, id: nat, a: Actor, r: Reply, hindrances: nat, steps: nat, doomed: bool)
    requires Accounted(sh, a, hindrances, steps, doomed)
    ensures var (sh', a') := Act(sh, id, a, r);
      Accounted(sh', a', if r.fate.Works? then hindrances else hindrances + 1, steps + 1, doomed || Dooms(a, r))
  {
    if Active(a) {
      ActProgresses(sh, id, a, r);
      hide Act, Fits, StepsLeft, Dooms;
    }
  }

  /** A move of another transaction that changes a shared object counts as a hindrance; no other matters. */
  lemma OthersMove(sh: Shared, sh': Shared, a: Actor, hindrances: nat, steps: nat, doomed: bool)
    requires Accounted(sh, a, hindrances, steps, doomed) && |sh'.derived| == |sh.derived|
    ensures Accounted(sh', a, hindrances + 1, steps, doomed)
    ensures sh'.canonical == sh.canonical && sh'.derived == sh.derived ==> Accounted(sh', a, hindrances, steps, doomed)
  {
    hide Fits, Remaining, MostSteps;
  }

  lemma DerivedStay(sh: Shared, id: nat, a: Actor, r: Reply)
    ensures |Act(sh, id, a, r).0.derived| == |sh.derived|
  {
    hide Fetch, PrepareLocally, Look, DerivedTrouble, Retry, Advance;
  }

  ghost predicate RunAccounted(states: seq<State>, events: seq<Event>, id: nat, k: nat)
    requires |states| == |events| + 1 && k <= |events|
  {
    && |states[k].shared.derived| == |states[0].shared.derived|
    && if id in states[k].actors
       then Accounted(states[k].shared, states[k].actors[id], Hindrances(states, events, id, k),
                      OwnSteps(events, id, k), Doomed(states, events, id, k))
       else Hindrances(states, events, id, k) == 0 && OwnSteps(events, id, k) == 0
  }

  lemma StepKeepsAccount(states: seq<State>, events: seq<Event>, id: nat, k: nat)
    requires |states| == |events| + 1 && k < |events|
    requires Allowed(states[k], events[k]) && states[k + 1] == Next(states[k], events[k])
    requires RunAccounted(states, events, id, k)
    ensures RunAccounted(states, events, id, k + 1)
  {
    hide Act, Accounted, Dooms;
    var st, e := states[k], events[k];
    match e {
      case Begin(other, task) =>
        AccountBegin(st.shared, task);
        if other == id {
          AccountMonotone(st.shared, Idle(task), 0, 0, false, Doomed(states, events, id, k + 1));
        } else if id in st.actors {
          AccountMonotone(st.shared, st.actors[id], Hindrances(states, events, id, k), OwnSteps(events, id, k),
                          Doomed(states, events, id, k), Doomed(states, events, id, k + 1));
        }
      case Step(other, r) =>
        DerivedStay(st.shared, other, st.actors[other], r);
        if id in st.actors {
          var a, h, own, doomed := st.actors[id], Hindrances(states, events, id, k), OwnSteps(events, id, k),
            Doomed(states, events, id, k);
          if other == id {
            AccountOwnStep(st.shared, id, a, r, h, own, doomed);
            var (sh', a') := Act(st.shared, id, a, r);
            assert Dooms(a, r) ==> DoomsAt(st, e, id);
            AccountMonotone(sh', a', Hindrances(states, events, id, k + 1), own + 1, doomed || Dooms(a, r),
                            Doomed(states, events, id, k + 1));
          } else {
            OthersMove(st.shared, states[k + 1].shared, a, h, own, doomed);
            AccountMonotone(states[k + 1].shared, a, Hindrances(states, events, id, k + 1), own, doomed,
                            Doomed(states, events, id, k + 1));
          }
        }
    }
  }

  lemma AccountMonotone(sh: Shared, a: Actor, hindrances: nat, steps: nat, doomed: bool, doomed': bool)
    requires Accounted(sh, a, hindrances, steps, doomed) && (doomed ==> doomed')
    ensures Accounted(sh, a, hindrances, steps, doomed')
  {
    hide Fits, Undisturbed, Remaining, MostSteps;
  }

  lemma {:induction false} RunKeepsAccount(states: seq<State>, events: seq<Event>, id: nat, k: nat)
    requires Run(states, events) && k <= |events|
    ensures RunAccounted(states, events, id, k)
  {
    if k > 0 {
      RunKeepsAccount(states, events, id, k - 1);
      hide RunAccounted, Initial, Next, Allowed;
      assert Allowed(states[k - 1], events[k - 1]) && states[k] == Next(states[k - 1], events[k - 1]);
      StepKeepsAccount(states, events, id, k - 1);
    }
  }

  /**
   * A transaction fails only for a reason. Its mutation was refused by the database it fetched; or
   * a call failed that it does not repeat; or, since it began, as often as it has attempts, one of
   * its calls failed or lost its reply or another transaction changed a shared object.
   */
  lemma FailureHasAReason(states: seq<State>, events: seq<Event>, id: nat, k: nat)
    requires Run(states, events) && k <= |events|
    requires id in states[k].actors && states[k].actors[id].pc.Failed?
    ensures Hindrances(states, events, id, k) >= MAX_ATTEMPTS
      || exists j :: 0 <= j < k && DoomsAt(states[j], events[j], id)
  {
    RunKeepsAccount(states, events, id, k);
  }

  /** However others interfere, a transaction that takes enough steps of its own has ended. */
  lemma TransactionsEnd(states: seq<State>, events: seq<Event>, id: nat, k: nat)
    requires Run(states, events) && k <= |events| && id in states[k].actors
    requires OwnSteps(events, id, k) >= MostSteps(|states[0].shared.derived|)
    ensures states[k].actors[id].pc.Succeeded? || states[k].actors[id].pc.Failed?
  {
    RunKeepsAccount(states, events, id, k);
    hide Run, Hindrances, Doomed, Remaining, Fits, MostSteps, Undisturbed;
    if Active(states[k].actors[id]) {
      RemainingIsPositive(states[k].actors[id], |states[0].shared.derived|);
    }
  }

  lemma RemainingIsPositive(a: Actor, n: nat)
    requires Fits(a, n) && Active(a)
    ensures Remaining(a, n) > 0
  {
    hide Reserve;
  }

  /**
   * A writer whose mutation is not refused, and whose failing calls are all ones it repeats, gets
   * through although it is hindered up to five times; a reconciler must get no failures at all.
   */
  lemma SucceedsUnlessHindered(states: seq<State>, events: seq<Event>, id: nat, k: nat)
    requires Run(states, events) && k <= |events| && id in states[k].actors
    requires OwnSteps(events, id, k) >= MostSteps(|states[0].shared.derived|)
    requires Hindrances(states, events, id, k) < MAX_ATTEMPTS
    requires forall j | 0 <= j < k :: !DoomsAt(states[j], events[j], id)
    ensures states[k].actors[id].pc.Succeeded?
  {
    TransactionsEnd(states, events, id, k);
    if states[k].actors[id].pc.Failed? {
      FailureHasAReason(states, events, id, k);
    }
  }
}
