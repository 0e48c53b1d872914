/** What becomes of jobs: they are served in order, and a stored status tells how the job ended. */
module JobOutcomes {
  import opened Collections
  import opened JobService
  import opened JobServiceTheorems

  // ------------------------------------------------------------------------- in order

  /** The jobs the queue has accepted so far, in that order. */
  function Accepted(states: seq<State>, events: seq<Event>, k: nat): seq<Id>
    requires |states| == |events| + 1 && k <= |events|
  {
    if k == 0 then []
    else if events[k - 1].Push? && |states[k - 1].queue| < QUEUE_SIZE
    then Accepted(states, events, k - 1) + [events[k - 1].id]
    else Accepted(states, events, k - 1)
  }

  /** First come, first served: what was popped and what still waits is what was accepted, in order. */
  lemma {:induction false} ServedInOrder(workers: nat, states: seq<State>, events: seq<Event>, k: nat)
    requires Run(workers, states, events) && k <= |events|
    ensures states[k].popped + states[k].queue == Accepted(states, events, k)
  {
    if k > 0 {
      ServedInOrder(workers, states, events, k - 1);
      var s, e := states[k - 1], events[k - 1];
      assert Enabled(workers, s, e) && states[k] == Apply(workers, s, e);
      hide Run, Apply, Enabled;
      EventKeepsOrder(workers, s, e);
    }
  }

  lemma EventKeepsOrder(workers: nat, s: State, e: Event)
    requires Enabled(workers, s, e)
    ensures Apply(workers, s, e).popped + Apply(workers, s, e).queue
         == if e.Push? && |s.queue| < QUEUE_SIZE then s.popped + s.queue + [e.id] else s.popped + s.queue
  {
    hide Evicts, Without, Update;
    if e.Pop? {
      assert s.queue == [s.queue[0]] + s.queue[1..];
    }
  }

  // -------------------------------------------------------------------- how jobs ended

  /** The job is over: nobody holds it any more who could change its status. */
  ghost predicate Over(s: State, id: Id, status: Status) {
    && (status.Succeeded? || status.Failed? || status.Cancelled?)
    && id in s.used && id !in s.submits && id !in s.queue
    && (id in s.tasks ==> s.tasks[id] == Ended || s.tasks[id] == Finalized)
    && (id in s.store ==> s.store[id].status == status)
  }

  lemma FinishIsOver(workers: nat, s: State, id: Id, end: BuildEnd)
    requires JobInv(s, id) && Enabled(workers, s, Finish(id, end))
    ensures Over(Apply(workers, s, Finish(id, end)), id, Verdict(end))
  {
  }

  lemma WorkKeepsOver(workers: nat, s: State, e: Event, id: Id, status: Status)
    requires e.Look? || e.MarkRunning? || e.Finish? || e.FinalizeLog? || e.Release?
    requires Over(s, id, status) && Enabled(workers, s, e)
    ensures Over(Apply(workers, s, e), id, status)
  {
    hide Verdict, Evicts, Without;
  }

  lemma QueueKeepsOver(workers: nat, s: State, e: Event, id: Id, status: Status)
    requires e.Push? || e.Pop?
    requires Over(s, id, status) && Enabled(workers, s, e)
    ensures Over(Apply(workers, s, e), id, status)
  {
    hide Evicts, Without, Update;
    if e.Pop? {
      assert s.queue[0] in s.queue && forall x | x in s.queue[1..] :: x in s.queue;
    }
  }

  lemma SubmitKeepsOver(workers: nat, s: State, e: Event, id: Id, status: Status)
    requires e.OpenLog? || e.StoreJob? || e.CloseRefused? || e.FailRefused? || e.Cancel?
    requires Over(s, id, status) && Enabled(workers, s, e)
    ensures Over(Apply(workers, s, e), id, status)
  {
    hide Evicts;
  }

  lemma EventKeepsOver(workers: nat, s: State, e: Event, id: Id, status: Status)
    requires Over(s, id, status) && Enabled(workers, s, e)
    ensures Over(Apply(workers, s, e), id, status)
  {
    hide Over, Enabled, Apply;
    match e
    case Push(_) => QueueKeepsOver(workers, s, e, id, status);
    case Pop => QueueKeepsOver(workers, s, e, id, status);
    case OpenLog(_) => SubmitKeepsOver(workers, s, e, id, status);
    case StoreJob(_, _, _) => SubmitKeepsOver(workers, s, e, id, status);
    case CloseRefused(_) => SubmitKeepsOver(workers, s, e, id, status);
    case FailRefused(_) => SubmitKeepsOver(workers, s, e, id, status);
    case Cancel(_) => SubmitKeepsOver(workers, s, e, id, status);
    case _ => WorkKeepsOver(workers, s, e, id, status);
  }

  lemma {:induction false} StaysOver(workers: nat, states: seq<State>, events: seq<Event>, i: nat, k: nat, id: Id,
                                     end: BuildEnd)
    requires Run(workers, states, events) && i < k < |states| && events[i] == Finish(id, end)
    ensures Over(states[k], id, Verdict(end))
    decreases k
  {
    hide Apply, Enabled, Over, Initial;
    assert Enabled(workers, states[k - 1], events[k - 1]) && states[k] == Apply(workers, states[k - 1], events[k - 1]);
    if k == i + 1 {
      RunKeepsInv(workers, states, events, i);
      assert JobInv(states[i], id);
      hide Run, Inv;
      FinishIsOver(workers, states[i], id, end);
    } else {
      StaysOver(workers, states, events, i, k - 1, id, end);
      hide Run;
      EventKeepsOver(workers, states[k - 1], events[k - 1], id, Verdict(end));
    }
  }

  /**
   * Once a build has ended, its job's stored status tells how, for as long as the job is stored:
   * cancelled if the build was stopped or reports so, failed on any other error, else succeeded.
   */
  lemma FinishedStatusStays(workers: nat, states: seq<State>, events: seq<Event>, i: nat, k: nat, id: Id, end: BuildEnd)
    requires Run(workers, states, events) && i < k < |states|
    requires events[i] == Finish(id, end) && id in states[k].store
    ensures states[k].store[id].status.Cancelled? <==> end.stopped || end.error == CancelledError
    ensures states[k].store[id].status.Failed? <==> !end.stopped && end.error == OtherError
    ensures states[k].store[id].status.Succeeded? <==> !end.stopped && end.error == NoError
  {
    StaysOver(workers, states, events, i, k, id, end);
    hide Run;
  }

  /** What gives a job this status: its build, a cancellation while it was queued, or a full queue. */
  predicate Gives(e: Event, id: Id, status: Status) {
    match e
    case Finish(other, end) =>
      other == id
      && (if end.stopped || end.error == CancelledError then status.Cancelled?
          else if end.error == OtherError then status.Failed? else status.Succeeded?)
    case Cancel(other) => other == id && status.Cancelled?
    case FailRefused(other) => other == id && status.Failed?
    case _ => false
  }

  ghost predicate HasCause(states: seq<State>, events: seq<Event>, k: nat, id: Id)
    requires |states| == |events| + 1 && k <= |events|
  {
    id in states[k].store && Terminal(states[k].store[id]) ==>
      || (id in states[0].store && states[0].store[id] == states[k].store[id])
      || exists j :: 0 <= j < k && Gives(events[j], id, states[k].store[id].status)
  }

  lemma StatusComesFrom(workers: nat, s: State, e: Event, id: Id)
    requires Enabled(workers, s, e)
    ensures var t := Apply(workers, s, e);
      id in t.store && Terminal(t.store[id]) ==>
        Gives(e, id, t.store[id].status) || (id in s.store && s.store[id] == t.store[id])
  {
    hide Evicts;
  }

  lemma {:induction false} EveryEndHasCause(workers: nat, states: seq<State>, events: seq<Event>, k: nat, id: Id)
    requires Run(workers, states, events) && k <= |events|
    ensures HasCause(states, events, k, id)
  {
    if k > 0 {
      EveryEndHasCause(workers, states, events, k - 1, id);
      assert Enabled(workers, states[k - 1], events[k - 1]) && states[k] == Apply(workers, states[k - 1], events[k - 1]);
      hide Run, Apply, Enabled, Terminal, Gives;
      StatusComesFrom(workers, states[k - 1], events[k - 1], id);
    }
  }

  /** No job ends by itself: a terminal status was restored at the start or has such a cause. */
  lemma TerminalHasCause(workers: nat, states: seq<State>, events: seq<Event>, k: nat, id: Id)
    requires Run(workers, states, events) && k <= |events|
    requires id in states[k].store && Terminal(states[k].store[id])
    ensures (id in states[0].store && states[0].store[id] == states[k].store[id])
      || exists j :: 0 <= j < k && Gives(events[j], id, states[k].store[id].status)
  {
    EveryEndHasCause(workers, states, events, k, id);
  }
}
