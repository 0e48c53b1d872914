/** One process after another syncing signed catalogs, with crashes and failed saves anywhere. */
module CatalogRuns {
  import opened Collections
  import opened CatalogPins

  // ------------------------------------------------------------------------- the system

  /** Where a source stands in a sync. */
  datatype Phase =
    | Idle
    | Checked(c: Catalog)    // signature and freshness hold
    | Persisted(c: Catalog)  // the floor has been raised
    | Swapped(c: Catalog)    // the index serves it, the bookkeeping is still the old one

  datatype Source = Source(
    insecure: bool,
    maxAge: int,
    phase: Phase,
    lastIssued: int,
    lastVerified: bool,
    expiresAt: int,
    served: Option<Served>)

  /** The process is down when it has no sources; `accepted` is the history of verified swaps. */
  datatype State = State(
    store: Store,
    up: bool,
    sources: map<string, Source>,
    accepted: map<string, seq<int>>)

  datatype Event =
    | Start(config: map<string, (bool, int)>)
    | Crash
    | TrustKey(name: string, p: Pin, outcome: SaveOutcome)
    | Check(name: string, c: Catalog, now: int)
    | Persist(name: string, now: int, outcome: SaveOutcome)
    | Swap(name: string)
    | Record(name: string)
    | SwapUnverified(name: string, c: Catalog)

  function Opened(pins: Pins, name: string, config: (bool, int)): Source {
    Source(config.0, config.1, Idle, Floor(pins, name), false, NO_TIME, None)
  }

  function History(s: State, name: string): seq<int> {
    if name in s.accepted then s.accepted[name] else []
  }

  function With(s: State, name: string, src: Source): State {
    s.(sources := s.sources[name := src])
  }

  /** What the system demands before an event can happen. */
  predicate Enabled(s: State, e: Event) {
    match e
    case Start(config) => !s.up
    case Crash => s.up
    case TrustKey(name, p, _) => s.up && name in s.sources && s.sources[name].phase.Idle? && p.lastIssued == NO_TIME
    case Check(name, c, now) =>
      && s.up && name in s.sources && s.sources[name].phase.Idle? && !s.sources[name].insecure
      && SaneClock(now, s.sources[name].maxAge)
      && CheckFreshness(c, now, s.sources[name].maxAge, s.sources[name].lastIssued).None?
    case Persist(name, _, _) => s.up && name in s.sources && s.sources[name].phase.Checked?
    case Swap(name) => s.up && name in s.sources && s.sources[name].phase.Persisted?
    case Record(name) => s.up && name in s.sources && s.sources[name].phase.Swapped?
    case SwapUnverified(name, _) =>
      s.up && name in s.sources && s.sources[name].phase.Idle? && s.sources[name].insecure
  }

  function Apply(s: State, e: Event): State
    requires Enabled(s, e)
  {
    match e
    case Start(config) =>
      s.(up := true, store := s.store.(data := s.store.disk),
         sources := map name | name in config :: Opened(s.store.disk, name, config[name]))
    case Crash => s.(up := false, sources := map[], store := s.store.(data := map[]))
    case TrustKey(name, p, outcome) => s.(store := Put(s.store, name, p, outcome))
    case Check(name, c, now) => With(s, name, s.sources[name].(phase := Checked(c)))
    case Persist(name, now, outcome) => ApplyPersist(s, name, now, outcome)
    case Swap(name) =>
      var c := s.sources[name].phase.c;
      With(s, name, s.sources[name].(phase := Swapped(c), served := Some(Served(c, true))))
      .(accepted := s.accepted[name := History(s, name) + [c.issuedAt]])
    case Record(name) =>
      var src := s.sources[name];
      var c := src.phase.c;
      With(s, name, src.(phase := Idle, lastVerified := true, expiresAt := c.expiresAt,
        lastIssued := if c.issuedAt > src.lastIssued then c.issuedAt else src.lastIssued))
    case SwapUnverified(name, c) =>
      With(s, name, s.sources[name].(served := Some(Served(c, false)), lastVerified := false, expiresAt := c.expiresAt))
  }

  function ApplyPersist(s: State, name: string, now: int, outcome: SaveOutcome): State
    requires name in s.sources && s.sources[name].phase.Checked?
  {
    var src := s.sources[name];
    var c := src.phase.c;
    var phase := if FloorRaised(s.store, name, c.issuedAt, outcome) then Persisted(c) else Idle;
    With(s, name, src.(phase := phase)).(store := SetLastIssued(s.store, name, c.issuedAt, now, outcome))
  }

  predicate Initial(s: State) {
    s == State(Store(map[], map[]), false, map[], map[])
  }

  /** A run of the system; `states[i]` is the state before event `i`. */
  ghost predicate Run(states: seq<State>, events: seq<Event>) {
    && |states| == |events| + 1
    && Initial(states[0])
    && forall i | 0 <= i < |events| :: Enabled(states[i], events[i]) && states[i + 1] == Apply(states[i], events[i])
  }

  /** Whether a source's catalog is reported as verified and still fresh. */
  predicate Verified(src: Source, now: int) {
    && src.lastVerified
    && !(src.expiresAt != NO_TIME && now > src.expiresAt)
    && !(src.maxAge > 0 && now - src.lastIssued > src.maxAge)
  }

  // ---------------------------------------------------------------------- the invariant

  ghost predicate Increasing(times: seq<int>) {
    forall i, j | 0 <= i < j < |times| :: times[i] < times[j]
  }

  /** Every accepted moment is at most `t`. */
  ghost predicate AtMost(times: seq<int>, t: int) {
    forall i | 0 <= i < |times| :: times[i] <= t
  }

  /** What one source's bookkeeping says about the catalogs accepted so far. */
  ghost predicate SourceInv(src: Source, past: seq<int>, floor: int) {
    && NO_TIME <= src.lastIssued <= floor
    && (match src.phase
        case Idle => AtMost(past, src.lastIssued)
        case Checked(c) => AtMost(past, src.lastIssued) && src.lastIssued < c.issuedAt
        case Persisted(c) => AtMost(past, src.lastIssued) && src.lastIssued < c.issuedAt <= floor
        case Swapped(c) => AtMost(past, c.issuedAt) && src.lastIssued < c.issuedAt <= floor && src.served == Some(Served(c, true)))
    && (!src.phase.Idle? ==> !src.insecure)
    && (src.served.Some? && src.served.value.verified ==> src.served.value.c.issuedAt <= floor)
    && (!src.phase.Swapped? ==> (src.lastVerified <==> src.served.Some? && src.served.value.verified))
    && (src.lastVerified && !src.phase.Swapped? ==>
         && src.lastIssued == src.served.value.c.issuedAt && src.expiresAt == src.served.value.c.expiresAt)
  }

  ghost predicate NameInv(s: State, name: string) {
    && Increasing(History(s, name))
    && AtMost(History(s, name), Floor(s.store.disk, name))
    && (s.up ==> AtMost(History(s, name), Floor(s.store.data, name)))
    && (name in s.sources ==> s.up && SourceInv(s.sources[name], History(s, name), Floor(s.store.data, name)))
  }

  ghost predicate Inv(s: State) {
    FileCovers(s.store) && forall name :: NameInv(s, name)
  }

  lemma FloorRises(src: Source, past: seq<int>, floor: int, higher: int)
    requires SourceInv(src, past, floor) && floor <= higher
    ensures SourceInv(src, past, higher)
  {
  }

  lemma AtMostHigher(past: seq<int>, t: int, u: int)
    requires AtMost(past, t) && t <= u
    ensures AtMost(past, u)
  {
  }

  /** A write that keeps the floors keeps everything else. */
  lemma WriteKeepsInv(s: State, store: Store)
    requires Inv(s) && s.up && FileCovers(store)
    requires forall name :: Floor(store.data, name) >= Floor(s.store.data, name)
    ensures Inv(s.(store := store))
  {
    var t := s.(store := store);
    hide SourceInv, Increasing, AtMost, Floor;
    forall name ensures NameInv(t, name) {
      assert NameInv(s, name) && History(t, name) == History(s, name);
      assert Floor(s.store.data, name) <= Floor(store.data, name) <= Floor(store.disk, name);
      AtMostHigher(History(s, name), Floor(s.store.data, name), Floor(store.data, name));
      AtMostHigher(History(s, name), Floor(s.store.data, name), Floor(store.disk, name));
      if name in s.sources {
        FloorRises(s.sources[name], History(s, name), Floor(s.store.data, name), Floor(store.data, name));
      }
    }
  }

  /** Replacing one source's bookkeeping by one that fits. */
  lemma WithKeepsInv(s: State, name: string, src: Source)
    requires Inv(s) && s.up && SourceInv(src, History(s, name), Floor(s.store.data, name))
    ensures Inv(With(s, name, src))
  {
    hide SourceInv, Increasing, AtMost, Floor;
    var t := With(s, name, src);
    forall n ensures NameInv(t, n) {
      assert NameInv(s, n) && History(t, n) == History(s, n);
    }
  }

  lemma SwapSource(src: Source, past: seq<int>, floor: int)
    requires SourceInv(src, past, floor) && src.phase.Persisted? && Increasing(past)
    ensures var c := src.phase.c;
      && Increasing(past + [c.issuedAt]) && AtMost(past + [c.issuedAt], floor)
      && SourceInv(src.(phase := Swapped(c), served := Some(Served(c, true))), past + [c.issuedAt], floor)
  {
  }

  lemma SwapKeepsInv(s: State, name: string)
    requires Inv(s) && Enabled(s, Swap(name))
    ensures Inv(Apply(s, Swap(name)))
  {
    var t := Apply(s, Swap(name));
    var c := s.sources[name].phase.c;
    var past := History(s, name);
    hide SourceInv, Increasing, AtMost, Floor;
    assert NameInv(s, name);
    assert SourceInv(s.sources[name], past, Floor(s.store.data, name)) && Increasing(past);
    SwapSource(s.sources[name], past, Floor(s.store.data, name));
    assert Floor(s.store.data, name) <= Floor(s.store.disk, name);
    AtMostHigher(past + [c.issuedAt], Floor(s.store.data, name), Floor(s.store.disk, name));
    hide FileCovers;
    forall n ensures NameInv(t, n) {
      assert NameInv(s, n);
      assert History(t, n) == if n == name then past + [c.issuedAt] else History(s, n);
    }
  }

  lemma CheckKeepsInv(s: State, name: string, c: Catalog, now: int)
    requires Inv(s) && Enabled(s, Check(name, c, now))
    ensures Inv(Apply(s, Check(name, c, now)))
  {
    assert NameInv(s, name);
    FreshExactly(c, now, s.sources[name].maxAge, s.sources[name].lastIssued);
    WithKeepsInv(s, name, s.sources[name].(phase := Checked(c)));
    hide Inv;
  }

  lemma PersistKeepsInv(s: State, name: string, now: int, outcome: SaveOutcome)
    requires Inv(s) && Enabled(s, Persist(name, now, outcome))
    ensures Inv(Apply(s, Persist(name, now, outcome)))
  {
    var src := s.sources[name];
    var c := src.phase.c;
    var store := SetLastIssued(s.store, name, c.issuedAt, now, outcome);
    forall other ensures Floor(store.data, other) >= Floor(s.store.data, other) && FileCovers(store) {
      RaisingKeepsFloors(s.store, name, c.issuedAt, now, outcome, other);
    }
    RaisingKeepsFloors(s.store, name, c.issuedAt, now, outcome, name);
    WriteKeepsInv(s, store);
    var t := s.(store := store);
    assert NameInv(t, name) && NameInv(s, name);
    hide Inv, SetLastIssued, FileCovers;
    WithKeepsInv(t, name, src.(phase := if FloorRaised(s.store, name, c.issuedAt, outcome) then Persisted(c) else Idle));
  }

  lemma RecordSource(src: Source, past: seq<int>, floor: int)
    requires SourceInv(src, past, floor) && src.phase.Swapped?
    ensures var c := src.phase.c;
      && src.lastIssued < c.issuedAt
      && SourceInv(src.(phase := Idle, lastVerified := true, expiresAt := c.expiresAt, lastIssued := c.issuedAt), past, floor)
  {
  }

  lemma RecordKeepsInv(s: State, name: string)
    requires Inv(s) && Enabled(s, Record(name))
    ensures Inv(Apply(s, Record(name)))
  {
    var src := s.sources[name];
    var c := src.phase.c;
    assert NameInv(s, name);
    RecordSource(src, History(s, name), Floor(s.store.data, name));
    WithKeepsInv(s, name, src.(phase := Idle, lastVerified := true, expiresAt := c.expiresAt, lastIssued := c.issuedAt));
    hide Inv, SourceInv;
  }

  lemma TrustKeepsInv(s: State, name: string, p: Pin, outcome: SaveOutcome)
    requires Inv(s) && Enabled(s, TrustKey(name, p, outcome))
    ensures Inv(Apply(s, TrustKey(name, p, outcome)))
  {
    var store := Put(s.store, name, p, outcome);
    forall other ensures Floor(store.data, other) >= Floor(s.store.data, other) && FileCovers(store) {
      PutKeepsFloors(s.store, name, p, outcome, other);
    }
    WriteKeepsInv(s, store);
  }

  lemma StartKeepsInv(s: State, config: map<string, (bool, int)>)
    requires Inv(s) && !s.up
    ensures Inv(Apply(s, Start(config)))
  {
    var t := Apply(s, Start(config));
    forall name ensures NO_TIME <= Floor(s.store.disk, name) {
      assert NO_TIME <= Floor(s.store.data, name) <= Floor(s.store.disk, name);
    }
    hide Floor, Increasing, AtMost;
    forall name ensures NameInv(t, name) {
      assert NameInv(s, name) && History(t, name) == History(s, name);
    }
  }

  lemma CrashKeepsInv(s: State)
    requires Inv(s) && s.up
    ensures Inv(Apply(s, Crash))
  {
    var t := Apply(s, Crash);
    forall name ensures NO_TIME <= Floor(t.store.data, name) <= Floor(t.store.disk, name) {
      assert NO_TIME <= Floor(s.store.data, name) <= Floor(s.store.disk, name);
    }
    hide Increasing, AtMost, Floor;
    forall name ensures NameInv(t, name) {
      assert NameInv(s, name) && History(t, name) == History(s, name);
    }
  }

  lemma StepKeepsInv(s: State, e: Event)
    requires Inv(s) && Enabled(s, e)
    ensures Inv(Apply(s, e))
  {
    match e
    case Start(config) => StartKeepsInv(s, config);
    case Crash => CrashKeepsInv(s);
    case TrustKey(name, p, outcome) => TrustKeepsInv(s, name, p, outcome);
    case Check(name, c, now) => CheckKeepsInv(s, name, c, now);
    case Persist(name, now, outcome) => PersistKeepsInv(s, name, now, outcome);
    case Swap(name) => SwapKeepsInv(s, name);
    case Record(name) => RecordKeepsInv(s, name);
    case SwapUnverified(name, c) =>
      assert NameInv(s, name);
      WithKeepsInv(s, name, s.sources[name].(
        served := Some(Served(c, false)), lastVerified := false, expiresAt := c.expiresAt));
  }

  lemma {:induction false} RunKeepsInv(states: seq<State>, events: seq<Event>, k: nat)
    requires Run(states, events) && k < |states|
    ensures Inv(states[k])
  {
    hide Apply, Enabled;
    if k == 0 {
    } else {
      hide Inv;
      RunKeepsInv(states, events, k - 1);
      StepKeepsInv(states[k - 1], events[k - 1]);
    }
  }

  // ------------------------------------------------------------------------ the theorems

  /** Over restarts, crashes and failed saves, accepted catalogs only get newer. */
  lemma AcceptedOnlyGetNewer(states: seq<State>, events: seq<Event>, k: nat, name: string)
    requires Run(states, events) && k < |states|
    ensures Increasing(History(states[k], name))
  {
    RunKeepsInv(states, events, k);
    assert NameInv(states[k], name);
    hide Run;
  }

  /** The floor in the file is at least every catalog ever accepted, and so the one being served. */
  lemma FileFloorCoversServed(states: seq<State>, events: seq<Event>, k: nat, name: string)
    requires Run(states, events) && k < |states|
    ensures AtMost(History(states[k], name), Floor(states[k].store.disk, name))
    ensures name in states[k].sources ==>
      var served := states[k].sources[name].served;
      served.Some? && served.value.verified ==> served.value.c.issuedAt <= Floor(states[k].store.disk, name)
  {
    RunKeepsInv(states, events, k);
    var s := states[k];
    assert NameInv(s, name);
    assert NO_TIME <= Floor(s.store.data, name) <= Floor(s.store.disk, name);
    hide Run, Inv, Increasing, AtMost, Floor;
  }

  /** A save that replaced the file and failed all the same. */
  predicate LosesSave(e: Event) {
    (e.TrustKey? || e.Persist?) && e.outcome == ReplacedButFailed
  }

  /** Since the process before event `k` was started it has lost a save. */
  ghost predicate LostSaveSinceStart(events: seq<Event>, k: nat)
    requires k <= |events|
  {
    exists j :: 0 <= j < k && LosesSave(events[j]) && forall i | j < i < k :: !events[i].Start?
  }

  ghost predicate MemoryMatchesFile(s: State) {
    forall name :: Floor(s.store.data, name) == Floor(s.store.disk, name)
  }

  lemma EventKeepsMatch(s: State, e: Event)
    requires Enabled(s, e) && (s.up ==> MemoryMatchesFile(s)) && !LosesSave(e)
    ensures Apply(s, e).up ==> MemoryMatchesFile(Apply(s, e))
  {
    var t := Apply(s, e);
    forall name | t.up ensures Floor(t.store.data, name) == Floor(t.store.disk, name) {
      assert s.up ==> Floor(s.store.data, name) == Floor(s.store.disk, name);
    }
  }

  lemma {:induction false} MatchUntilLostSave(states: seq<State>, events: seq<Event>, k: nat)
    requires Run(states, events) && k <= |events| && !LostSaveSinceStart(events, k) && states[k].up
    ensures MemoryMatchesFile(states[k])
  {
    hide MemoryMatchesFile, LosesSave;
    if k > 0 {
      var s, e := states[k - 1], events[k - 1];
      assert Enabled(s, e) && states[k] == Apply(s, e);
      if e.Start? {
        StartMatches(s, e);
      } else {
        assert !LosesSave(e);
        if s.up {
          assert !LostSaveSinceStart(events, k - 1);
          MatchUntilLostSave(states, events, k - 1);
        }
        hide Apply, Enabled;
        EventKeepsMatch(s, e);
      }
    }
  }

  lemma StartMatches(s: State, e: Event)
    requires Enabled(s, e) && e.Start?
    ensures MemoryMatchesFile(Apply(s, e))
  {
  }

  /** The file's floor falls in no event before the running process has lost a save. */
  lemma FileFloorFallsOnlyAfterLostSave(states: seq<State>, events: seq<Event>, k: nat, name: string)
    requires Run(states, events) && k < |events|
    requires Floor(states[k + 1].store.disk, name) < Floor(states[k].store.disk, name)
    ensures LostSaveSinceStart(events, k)
  {
    var s, e := states[k], events[k];
    assert Enabled(s, e) && states[k + 1] == Apply(s, e);
    if !LostSaveSinceStart(events, k) && s.up {
      MatchUntilLostSave(states, events, k);
      assert Floor(s.store.data, name) == Floor(s.store.disk, name);
      RunKeepsInv(states, events, k);
      hide Run, LostSaveSinceStart, Inv;
      match e {
        case TrustKey(n, p, outcome) => PinningLowersFileFloor(s.store, n, p, outcome, name);
        case Persist(n, now, outcome) => RaisingLowersFileFloor(s.store, n, s.sources[n].phase.c.issuedAt, now, outcome, name);
        case _ =>
      }
    }
    hide Floor;
  }

  /** Between syncs, a catalog is reported as verified exactly while it is signed, unexpired and young enough. */
  lemma VerifiedExactly(states: seq<State>, events: seq<Event>, k: nat, name: string, now: int)
    requires Run(states, events) && k < |states| && name in states[k].sources
    requires !states[k].sources[name].phase.Swapped?
    ensures var src := states[k].sources[name];
      Verified(src, now) <==>
        && src.served.Some? && src.served.value.verified
        && (src.served.value.c.expiresAt != NO_TIME ==> now <= src.served.value.c.expiresAt)
        && (src.maxAge > 0 ==> now - src.served.value.c.issuedAt <= src.maxAge)
  {
    RunKeepsInv(states, events, k);
    var s := states[k];
    assert NameInv(s, name);
    hide Run, Inv;
  }
}
