/** The create-or-renew loop over one immutable key, raced by other loops, by
    conditional and plain deletes, and by calls that fail after taking effect. */
module ImmutableObjects {
  import opened Collections

  /** Bytes are compared through injective hashes, so contents stand for hashes. */
  type Content = string

  datatype Object = Object(content: Content, etag: nat)

  const MAX_TRIES: nat := 3

  datatype Phase =
    | Probe
    | RenewIf(etag: nat)
    | Create
    | Created
    | Renewed
    | Conflict
    | Contended
    | Broken

  /** One StoreFileImmutable call. */
  datatype Storer = Storer(want: Content, tries: nat, phase: Phase)

  /** `issued` records which content each ETag was ever issued for. */
  datatype State = State(live: Option<Object>, issued: map<nat, Content>, storers: map<nat, Storer>)

  datatype Fate = Works | Fails | Lost

  datatype Event =
    | Begin(id: nat, want: Content)
    | Step(id: nat, fate: Fate, etag: nat)
    | DeleteIf(etag: nat)
    | Delete

  /** A conflicting write means another look, unless three tries are spent. */
  function Again(s: Storer): Storer {
    if s.tries + 1 < MAX_TRIES then s.(tries := s.tries + 1, phase := Probe) else s.(phase := Contended)
  }

  function Put(st: State, s: Storer, etag: nat): State {
    st.(live := Some(Object(s.want, etag)), issued := st.issued[etag := s.want])
  }

  /** One store call of one storer. */
  function Act(st: State, s: Storer, fate: Fate, etag: nat): (State, Storer) {
    match s.phase
    case Probe =>
      if fate != Works then (st, s.(phase := Broken))
      else if st.live.None? then (st, s.(phase := Create))
      else if st.live.value.content == s.want then (st, s.(phase := RenewIf(st.live.value.etag)))
      else (st, s.(phase := Conflict))
    case RenewIf(seen) =>
      if fate == Fails then (st, s.(phase := Broken))
      else if st.live.None? || st.live.value.etag != seen then
        (st, if fate == Lost then s.(phase := Broken) else Again(s))
      else (Put(st, s, etag), s.(phase := if fate == Lost then Broken else Renewed))
    case Create =>
      if fate == Fails then (st, s.(phase := Broken))
      else if st.live.Some? then (st, if fate == Lost then s.(phase := Broken) else Again(s))
      else (Put(st, s, etag), s.(phase := if fate == Lost then Broken else Created))
    case _ => (st, s)
  }

  predicate Allowed(st: State, e: Event) {
    match e
    case Begin(id, _) => id !in st.storers
    case Step(id, _, etag) => id in st.storers && (etag in st.issued ==> st.issued[etag] == st.storers[id].want)
    case DeleteIf(_) => true
    case Delete => true
  }

  function Next(st: State, e: Event): State
    requires Allowed(st, e)
  {
    match e
    case Begin(id, want) => st.(storers := st.storers[id := Storer(want, 0, Probe)])
    case Step(id, fate, etag) =>
      var (st', s') := Act(st, st.storers[id], fate, etag);
      st'.(storers := st.storers[id := s'])
    case DeleteIf(etag) => if st.live.Some? && st.live.value.etag == etag then st.(live := None) else st
    case Delete => st.(live := None)
  }

  ghost predicate Inv(st: State) {
    && (st.live.Some? ==> st.live.value.etag in st.issued && st.issued[st.live.value.etag] == st.live.value.content)
    && forall id | id in st.storers && st.storers[id].phase.RenewIf? ::
         && st.storers[id].phase.etag in st.issued
         && st.issued[st.storers[id].phase.etag] == st.storers[id].want
  }

  ghost predicate Initial(st: State) {
    Inv(st) && st.storers == map[]
  }

  ghost predicate Run(states: seq<State>, events: seq<Event>) {
    && |states| == |events| + 1
    && Initial(states[0])
    && forall k | 0 <= k < |events| :: Allowed(states[k], events[k]) && states[k + 1] == Next(states[k], events[k])
  }

  /** Nothing turns one content into another without an absence in between. */
  predicate KeepsContent(st: State, st': State) {
    st.live.Some? && st'.live.Some? ==> st'.live.value.content == st.live.value.content
  }

  lemma StepKeepsInv(st: State, e: Event)
    requires Inv(st) && Allowed(st, e)
    ensures Inv(Next(st, e)) && KeepsContent(st, Next(st, e))
  {
  }

  lemma {:induction false} RunKeepsInv(states: seq<State>, events: seq<Event>, k: nat)
    requires Run(states, events) && k <= |events|
    ensures Inv(states[k])
  {
    if k > 0 {
      RunKeepsInv(states, events, k - 1);
      StepKeepsInv(states[k - 1], events[k - 1]);
    }
  }

  /** Between any two moments of a run, either the key held one content
      throughout, or it was absent in between. */
  lemma {:induction false} ContentNeverReplaced(states: seq<State>, events: seq<Event>, i: nat, k: nat)
    requires Run(states, events) && i <= k <= |events|
    requires forall j | i <= j <= k :: states[j].live.Some?
    ensures states[k].live.value.content == states[i].live.value.content
    decreases k - i
  {
    if i < k {
      ContentNeverReplaced(states, events, i, k - 1);
      RunKeepsInv(states, events, k - 1);
      StepKeepsInv(states[k - 1], events[k - 1]);
    }
  }

  predicate Stored(p: Phase) {
    p.Created? || p.Renewed?
  }

  /** Success is reported by the call's own conditional write, which leaves exactly
      the caller's bytes in place; `Created` only where nothing was there. */
  lemma SuccessPutTheBytes(states: seq<State>, events: seq<Event>, k: nat, id: nat)
    requires Run(states, events) && k < |events|
    requires id in states[k].storers && !Stored(states[k].storers[id].phase)
    requires Stored(states[k + 1].storers[id].phase)
    ensures events[k].Step? && events[k].id == id
    ensures states[k + 1].live == Some(Object(states[k].storers[id].want, events[k].etag))
    ensures states[k + 1].storers[id].phase.Created? <==> states[k].live.None?
    ensures states[k].live.Some? ==> states[k].live.value.content == states[k].storers[id].want
  {
    RunKeepsInv(states, events, k);
    assert states[k + 1] == Next(states[k], events[k]);
  }

  /** A refused call saw other bytes under the key at the moment it looked. */
  lemma ConflictSawOtherBytes(states: seq<State>, events: seq<Event>, k: nat, id: nat)
    requires Run(states, events) && k < |events|
    requires id in states[k].storers && !states[k].storers[id].phase.Conflict?
    requires states[k + 1].storers[id].phase.Conflict?
    ensures states[k].live.Some? && states[k].live.value.content != states[k].storers[id].want
    ensures states[k + 1].live == states[k].live
  {
    assert states[k + 1] == Next(states[k], events[k]);
  }

  // --------------------------------------------------------------------- how calls end

  predicate Settled(p: Phase) {
    p.Created? || p.Renewed? || p.Conflict?
  }

  predicate Over(p: Phase) {
    Settled(p) || p.Contended? || p.Broken?
  }

  predicate Own(e: Event, id: nat) {
    e.Step? && e.id == id
  }

  /** While the call runs, someone else writes or deletes the object. */
  predicate Interferes(st: State, e: Event, st': State, id: nat) {
    id in st.storers && !Own(e, id) && st'.live != st.live
  }

  function Interferences(states: seq<State>, events: seq<Event>, id: nat, k: nat): nat
    requires |states| == |events| + 1 && k <= |events|
  {
    if k == 0 then 0
    else
      var more := if Interferes(states[k - 1], events[k - 1], states[k], id) then 1 else 0;
      Interferences(states, events, id, k - 1) + more
  }

  function OwnSteps(events: seq<Event>, id: nat, k: nat): nat
    requires k <= |events|
  {
    if k == 0 then 0 else OwnSteps(events, id, k - 1) + if Own(events[k - 1], id) then 1 else 0
  }

  /** Some store call of this call failed or lost its reply. */
  ghost predicate Hampered(events: seq<Event>, id: nat, k: nat)
    requires k <= |events|
  {
    exists j :: 0 <= j < k && Own(events[j], id) && !events[j].fate.Works?
  }

  /** What the last probe saw is still so. */
  predicate StillSo(live: Option<Object>, p: Phase) {
    match p
    case RenewIf(seen) => live.Some? && live.value.etag == seen
    case Create => live.None?
    case _ => true
  }

  /** Every repeated try is paid for by an interference. */
  predicate Accounted(live: Option<Object>, s: Storer, interferences: nat, steps: nat, hampered: bool) {
    && s.tries <= interferences && (s.tries < interferences || StillSo(live, s.phase))
    && (s.phase.Contended? ==> interferences >= MAX_TRIES)
    && (s.phase.Broken? ==> hampered)
    && (!Over(s.phase) ==> steps + 2 * (MAX_TRIES - s.tries) - (if s.phase.Probe? then 0 else 1) <= 2 * MAX_TRIES)
    && s.tries < MAX_TRIES
  }

  ghost predicate CallAccounted(states: seq<State>, events: seq<Event>, id: nat, k: nat)
    requires |states| == |events| + 1 && k <= |events|
  {
    if id in states[k].storers
    then Accounted(states[k].live, states[k].storers[id], Interferences(states, events, id, k),
                   OwnSteps(events, id, k), Hampered(events, id, k))
    else Interferences(states, events, id, k) == 0 && OwnSteps(events, id, k) == 0
  }

  lemma ActIsAccounted(st: State, s: Storer, fate: Fate, etag: nat, interferences: nat, steps: nat, hampered: bool)
    requires Accounted(st.live, s, interferences, steps, hampered)
    ensures var (st', s') := Act(st, s, fate, etag);
      Accounted(st'.live, s', interferences, steps + 1, hampered || !fate.Works?)
  {
  }

  lemma {:induction false} RunIsAccounted(states: seq<State>, events: seq<Event>, id: nat, k: nat)
    requires Run(states, events) && k <= |events|
    ensures CallAccounted(states, events, id, k)
  {
    if k > 0 {
      RunIsAccounted(states, events, id, k - 1);
      var st, e := states[k - 1], events[k - 1];
      assert Allowed(st, e) && states[k] == Next(st, e);
      if id in st.storers && Own(e, id) {
        ActIsAccounted(st, st.storers[id], e.fate, e.etag, Interferences(states, events, id, k - 1),
                       OwnSteps(events, id, k - 1), Hampered(events, id, k - 1));
      }
      hide Run, Act;
      assert Hampered(events, id, k) <==> Hampered(events, id, k - 1) || (Own(e, id) && !e.fate.Works?);
    }
  }

  /**
   * A call gives up only for a reason: it reports contention after as many changes by others as it
   * has tries, and any other failure after one of its own store calls failed or lost its reply.
   */
  lemma GivesUpForAReason(states: seq<State>, events: seq<Event>, k: nat, id: nat)
    requires Run(states, events) && k <= |events| && id in states[k].storers
    ensures states[k].storers[id].phase.Contended? ==> Interferences(states, events, id, k) >= MAX_TRIES
    ensures states[k].storers[id].phase.Broken? ==>
      exists j :: 0 <= j < k && Own(events[j], id) && !events[j].fate.Works?
  {
    RunIsAccounted(states, events, id, k);
  }

  /** With working store calls and fewer changes by others than tries, it ends by creating or renewing
      the object or by refusing other bytes. */
  lemma CallSettles(states: seq<State>, events: seq<Event>, k: nat, id: nat)
    requires Run(states, events) && k <= |events| && id in states[k].storers
    requires OwnSteps(events, id, k) >= 2 * MAX_TRIES
    requires forall j | 0 <= j < k && Own(events[j], id) :: events[j].fate.Works?
    requires Interferences(states, events, id, k) < MAX_TRIES
    ensures Settled(states[k].storers[id].phase)
  {
    RunIsAccounted(states, events, id, k);
  }
}
