/** Orphan collection running beside publishers and removers on one repository.
    All clocks, including the modification times of objects, are one clock. */
module OrphanCollection {
  import opened Collections

  /** An object name; `isAny` is its architecture coordinate, as the parser of
      artifact names reads it. */
  datatype FileName = FileName(text: string, isAny: bool)
  datatype Key = Key(dir: string, file: FileName)
  datatype Object = Object(version: nat, mtime: int)

  const ANY: string := "any"

  /** Where the package file of a database entry is stored. */
  function StorageKey(arch: string, file: FileName): Key {
    Key(if file.isAny then ANY else arch, file)
  }

  /** An upload, promotion or rollback, and when it last renewed each object. */
  datatype Publisher = Publisher(leased: bool, renewed: map<Key, int>)

  /** Directory `i` is the i-th architecture, and past those the shared one. */
  datatype Phase = Waiting | ListArches | ReadDatabase(i: nat) | ListObjects(i: nat) | Deleting(i: nat) | Finished

  datatype Collector = Collector(
    cutoff: int,
    phase: Phase,
    arches: seq<string>,
    referenced: map<string, set<FileName>>,
    listing: map<Key, Object>)

  datatype State = State(
    now: int,
    grace: nat,
    objects: map<Key, Object>,
    dbs: map<string, set<FileName>>,
    lease: Option<nat>,
    publishers: map<nat, Publisher>,
    collectors: map<nat, Collector>)

  datatype Event =
    | Tick(elapsed: nat)
    | BeginPublish(id: nat, leased: bool)
    | AcquireForPublish(id: nat)
    | Renew(id: nat, key: Key, version: nat)
    | Register(id: nat, arch: string, added: set<FileName>, dropped: set<FileName>)
    | EndPublish(id: nat)
    | Deregister(arch: string, dropped: set<FileName>)
    | DeleteObject(key: Key)
    | BeginCollection(id: nat, olderThan: nat)
    | AcquireForCollection(id: nat)
    | TakeArches(id: nat, arches: seq<string>)
    | Advance(id: nat)
    | DeleteOrphan(id: nat, file: FileName)
    | EndCollection(id: nat)

  function Entries(dbs: map<string, set<FileName>>, arch: string): set<FileName> {
    if arch in dbs then dbs[arch] else {}
  }

  function Directory(c: Collector, i: nat): string {
    if i < |c.arches| then c.arches[i] else ANY
  }

  /** Names the collector refuses to delete from the directory it is working on. */
  predicate Protected(c: Collector, i: nat, file: FileName) {
    if i < |c.arches| then c.arches[i] in c.referenced && file in c.referenced[c.arches[i]]
    else file.isAny && exists a :: a in c.referenced && file in c.referenced[a]
  }

  function AdvancePhase(st: State, c: Collector): Collector {
    match c.phase
    case ReadDatabase(i) =>
      if i < |c.arches|
      then c.(phase := ListObjects(i), referenced := c.referenced[c.arches[i] := Entries(st.dbs, c.arches[i])])
      else c.(phase := ListObjects(i))
    case ListObjects(i) =>
      c.(phase := Deleting(i),
         listing := map key | key in st.objects && key.dir == Directory(c, i) :: st.objects[key])
    case Deleting(i) =>
      if i + 1 < |c.arches| then c.(phase := ReadDatabase(i + 1))
      else if i < |c.arches| then c.(phase := ListObjects(|c.arches|))
      else c.(phase := Finished)
    case _ => c
  }

  /** The conditional delete: unprotected, old enough when listed, and still the
      very object that was listed. */
  predicate Deletes(st: State, c: Collector, file: FileName) {
    && c.phase.Deleting?
    && !Protected(c, c.phase.i, file)
    && var key := Key(Directory(c, c.phase.i), file);
       && key in c.listing && key in st.objects
       && c.listing[key].mtime <= c.cutoff
       && st.objects[key] == c.listing[key]
       && st.objects[key].mtime <= c.cutoff
  }

  /** Publishers register under the lease, or soon after they renewed what they register;
      a collection is never asked to spare less than `grace`. */
  ghost predicate Allowed(st: State, e: Event) {
    match e
    case Tick(_) => true
    case BeginPublish(id, _) => id !in st.publishers && id !in st.collectors
    case AcquireForPublish(id) => id in st.publishers && st.publishers[id].leased && st.lease.None?
    case Renew(id, key, _) => id in st.publishers
    case Register(id, arch, added, _) =>
      && id in st.publishers && arch != ANY
      && (st.publishers[id].leased ==> st.lease == Some(id))
      && forall f | f in added ::
           || st.publishers[id].leased
           || (StorageKey(arch, f) in st.publishers[id].renewed
               && st.now < st.publishers[id].renewed[StorageKey(arch, f)] + st.grace)
    case EndPublish(id) => id in st.publishers
    case Deregister(_, _) => true
    case DeleteObject(_) => true
    case BeginCollection(id, olderThan) =>
      id !in st.publishers && id !in st.collectors && olderThan >= st.grace
    case AcquireForCollection(id) =>
      id in st.collectors && st.collectors[id].phase.Waiting? && st.lease.None?
    case TakeArches(id, arches) =>
      && id in st.collectors && st.collectors[id].phase.ListArches?
      && ANY !in arches && forall a | a in st.dbs :: a in arches
    case Advance(id) => id in st.collectors
    case DeleteOrphan(id, _) => id in st.collectors
    case EndCollection(id) => id in st.collectors
  }

  function Next(st: State, e: Event): State
    requires Allowed(st, e)
  {
    match e
    case Tick(elapsed) => st.(now := st.now + elapsed)
    case BeginPublish(id, leased) => st.(publishers := st.publishers[id := Publisher(leased, map[])])
    case AcquireForPublish(id) => st.(lease := Some(id))
    case Renew(id, key, version) =>
      var p := st.publishers[id];
      st.(objects := st.objects[key := Object(version, st.now)],
          publishers := st.publishers[id := p.(renewed := p.renewed[key := st.now])])
    case Register(_, arch, added, dropped) =>
      st.(dbs := st.dbs[arch := Entries(st.dbs, arch) - dropped + added])
    case EndPublish(id) =>
      st.(publishers := st.publishers - {id}, lease := if st.lease == Some(id) then None else st.lease)
    case Deregister(arch, dropped) =>
      if arch in st.dbs then st.(dbs := st.dbs[arch := st.dbs[arch] - dropped]) else st
    case DeleteObject(key) => st.(objects := st.objects - {key})
    case BeginCollection(id, olderThan) =>
      st.(collectors := st.collectors[id := Collector(st.now - olderThan, Waiting, [], map[], map[])])
    case AcquireForCollection(id) =>
      st.(lease := Some(id), collectors := st.collectors[id := st.collectors[id].(phase := ListArches)])
    case TakeArches(id, arches) =>
      st.(collectors := st.collectors[id := st.collectors[id].(
        arches := arches, phase := if |arches| == 0 then ListObjects(0) else ReadDatabase(0))])
    case Advance(id) =>
      st.(collectors := st.collectors[id := AdvancePhase(st, st.collectors[id])])
    case DeleteOrphan(id, file) =>
      var c := st.collectors[id];
      if Deletes(st, c, file) then st.(objects := st.objects - {Key(Directory(c, c.phase.i), file)}) else st
    case EndCollection(id) =>
      st.(collectors := st.collectors[id := st.collectors[id].(phase := Finished)],
          lease := if st.lease == Some(id) then None else st.lease)
  }

  ghost predicate Initial(st: State) {
    && st.publishers == map[] && st.collectors == map[] && st.lease.None?
    && ANY !in st.dbs
    && forall key | key in st.objects :: st.objects[key].mtime <= st.now
  }

  ghost predicate Run(states: seq<State>, events: seq<Event>) {
    && |states| == |events| + 1
    && Initial(states[0])
    && forall k | 0 <= k < |events| :: Allowed(states[k], events[k]) && states[k + 1] == Next(states[k], events[k])
  }

  /** Some architecture's database lists a package whose file is this object. */
  ghost predicate Named(st: State, key: Key) {
    exists arch :: arch in st.dbs && key.file in st.dbs[arch] && StorageKey(arch, key.file) == key
  }

  // ---------------------------------------------------------------- invariant

  predicate Working(c: Collector) {
    !c.phase.Waiting? && !c.phase.Finished?
  }

  /** How many of its architectures' databases the collector has read. */
  function ReadSoFar(c: Collector): nat {
    match c.phase
    case ReadDatabase(i) => i
    case ListObjects(i) => if i < |c.arches| then i + 1 else |c.arches|
    case Deleting(i) => if i < |c.arches| then i + 1 else |c.arches|
    case _ => 0
  }

  /** Neither the object as it is nor any later renewal of it is old enough. */
  predicate Spared(st: State, cutoff: int, key: Key) {
    cutoff < st.now && (key in st.objects ==> st.objects[key].mtime > cutoff)
  }

  /** An entry of `arch` is one the collector has seen, or its object is too young
      for the collector to delete. */
  predicate Accounted(st: State, c: Collector, arch: string, file: FileName) {
    || (arch in c.arches && arch !in c.referenced)
    || (arch in c.referenced && file in c.referenced[arch])
    || Spared(st, c.cutoff, StorageKey(arch, file))
  }

  ghost predicate CollectorInv(st: State, id: nat, c: Collector) {
    && c.cutoff <= st.now - st.grace
    && (Working(c) ==> st.lease == Some(id))
    && (Working(c) && !c.phase.ListArches? ==>
          && ANY !in c.arches
          && (c.phase.ReadDatabase? ==> c.phase.i < |c.arches|)
          && (forall a :: a in c.referenced <==> a in c.arches[..ReadSoFar(c)])
          && forall arch, file | arch in st.dbs && file in st.dbs[arch] :: Accounted(st, c, arch, file))
    && (c.phase.ListArches? ==> c.referenced == map[])
    && (c.phase.Waiting? ==> c.referenced == map[])
  }

  ghost predicate PublisherInv(st: State, p: Publisher) {
    forall key | key in p.renewed ::
      p.renewed[key] <= st.now && (key in st.objects ==> st.objects[key].mtime >= p.renewed[key])
  }

  ghost predicate Inv(st: State) {
    && ANY !in st.dbs
    && (forall key | key in st.objects :: st.objects[key].mtime <= st.now)
    && (forall id | id in st.publishers :: PublisherInv(st, st.publishers[id]))
    && (forall id | id in st.collectors :: CollectorInv(st, id, st.collectors[id]))
    && (forall id | id in st.collectors :: id !in st.publishers)
  }

  /** Objects are only ever renewed to now, or removed. */
  predicate ObjectsAge(st: State, st': State) {
    && st.now <= st'.now
    && forall key | key in st'.objects ::
         (key in st.objects && st'.objects[key] == st.objects[key]) || st'.objects[key].mtime == st'.now
  }

  /** A collector is undisturbed when databases gain only entries it can account for. */
  lemma CollectorStable(st: State, st': State, id: nat, c: Collector)
    requires CollectorInv(st, id, c) && ObjectsAge(st, st') && st'.grace == st.grace
    requires forall key | key in st.objects :: st.objects[key].mtime <= st.now
    requires Working(c) ==> st'.lease == st.lease
    requires Working(c) ==> forall arch, file | arch in st'.dbs && file in st'.dbs[arch] ::
      (arch in st.dbs && file in st.dbs[arch]) || Spared(st', c.cutoff, StorageKey(arch, file))
    ensures CollectorInv(st', id, c)
  {
    if Working(c) && !c.phase.ListArches? {
      forall arch, file | arch in st'.dbs && file in st'.dbs[arch] ensures Accounted(st', c, arch, file) {
        if arch in st.dbs && file in st.dbs[arch] {
          assert Accounted(st, c, arch, file);
        }
      }
    }
  }

  // ------------------------------------------------------------------- steps

  lemma RegisterIsAccounted(st: State, e: Event, id: nat)
    requires Inv(st) && e.Register? && Allowed(st, e) && id in st.collectors && Working(st.collectors[id])
    ensures var st', c := Next(st, e), st.collectors[id];
      forall arch, file | arch in st'.dbs && file in st'.dbs[arch] ::
        (arch in st.dbs && file in st.dbs[arch]) || Spared(st', c.cutoff, StorageKey(arch, file))
  {
    var st', c := Next(st, e), st.collectors[id];
    assert CollectorInv(st, id, c);
    assert PublisherInv(st, st.publishers[e.id]);
    assert e.id != id;
  }

  /** Every event keeps what a collector that it does not move relies on. */
  lemma OtherCollectorKept(st: State, e: Event, id: nat)
    requires Inv(st) && Allowed(st, e) && id in st.collectors
    requires match e
      case AcquireForCollection(i) => i != id
      case TakeArches(i, _) => i != id
      case Advance(i) => i != id
      case EndCollection(i) => i != id
      case BeginCollection(i, _) => i != id
      case _ => true
    ensures id in Next(st, e).collectors && CollectorInv(Next(st, e), id, st.collectors[id])
  {
    hide CollectorInv, PublisherInv;
    var st', c := Next(st, e), st.collectors[id];
    assert CollectorInv(st, id, c);
    if Working(c) {
      LeaseStays(st, e, id);
      if e.Register? {
        RegisterIsAccounted(st, e, id);
      }
    }
    CollectorStable(st, st', id, c);
  }

  lemma LeaseStays(st: State, e: Event, id: nat)
    requires Inv(st) && Allowed(st, e) && id in st.collectors && Working(st.collectors[id])
    requires e.EndCollection? ==> e.id != id
    ensures Next(st, e).lease == st.lease
  {
    assert CollectorInv(st, id, st.collectors[id]);
  }

  lemma ReadKeepsCollector(st: State, id: nat, c: Collector)
    requires CollectorInv(st, id, c) && c.phase.ReadDatabase?
    ensures CollectorInv(st, id, AdvancePhase(st, c))
  {
    var c' := AdvancePhase(st, c);
    var i := c.phase.i;
    assert c.arches[..i + 1] == c.arches[..i] + [c.arches[i]];
    forall arch, file | arch in st.dbs && file in st.dbs[arch] ensures Accounted(st, c', arch, file) {
      assert Accounted(st, c, arch, file);
    }
  }

  lemma AdvanceKeepsCollector(st: State, id: nat, c: Collector)
    requires CollectorInv(st, id, c)
    ensures CollectorInv(st, id, AdvancePhase(st, c))
  {
    var c' := AdvancePhase(st, c);
    if c.phase.ReadDatabase? {
      ReadKeepsCollector(st, id, c);
    } else if Working(c') && !c'.phase.ListArches? {
      assert c'.referenced == c.referenced && c'.arches == c.arches && ReadSoFar(c') == ReadSoFar(c);
      forall arch, file | arch in st.dbs && file in st.dbs[arch] ensures Accounted(st, c', arch, file) {
        assert Accounted(st, c, arch, file);
      }
    }
  }

  lemma TakeArchesKeepsCollector(st: State, id: nat, arches: seq<string>)
    requires Inv(st) && Allowed(st, TakeArches(id, arches))
    ensures CollectorInv(Next(st, TakeArches(id, arches)), id, Next(st, TakeArches(id, arches)).collectors[id])
  {
    assert CollectorInv(st, id, st.collectors[id]);
    assert arches[..0] == [];
  }

  lemma MovedCollectorKept(st: State, e: Event, id: nat)
    requires Inv(st) && Allowed(st, e)
    requires match e
      case AcquireForCollection(i) => i == id
      case TakeArches(i, _) => i == id
      case Advance(i) => i == id
      case EndCollection(i) => i == id
      case BeginCollection(i, _) => i == id
      case _ => false
    ensures CollectorInv(Next(st, e), id, Next(st, e).collectors[id])
  {
    if e.Advance? {
      AdvanceKeepsCollector(st, id, st.collectors[id]);
      var st', c' := Next(st, e), AdvancePhase(st, st.collectors[id]);
      hide AdvancePhase;
      CollectorStable(st, st', id, c');
    } else if e.TakeArches? {
      TakeArchesKeepsCollector(st, id, e.arches);
    } else if !e.BeginCollection? {
      assert CollectorInv(st, id, st.collectors[id]);
    }
  }

  lemma PublishersKept(st: State, e: Event)
    requires Inv(st) && Allowed(st, e)
    ensures forall id | id in Next(st, e).publishers :: PublisherInv(Next(st, e), Next(st, e).publishers[id])
  {
    var st' := Next(st, e);
    forall id | id in st'.publishers ensures PublisherInv(st', st'.publishers[id]) {
      if id in st.publishers {
        assert PublisherInv(st, st.publishers[id]);
      }
    }
  }

  lemma StepKeepsInv(st: State, e: Event)
    requires Inv(st) && Allowed(st, e)
    ensures Inv(Next(st, e))
  {
    var st' := Next(st, e);
    PublishersKept(st, e);
    forall id | id in st'.collectors ensures CollectorInv(st', id, st'.collectors[id]) {
      hide CollectorInv, PublisherInv, AdvancePhase, Deletes;
      if !(match e
        case AcquireForCollection(i) => i == id
        case TakeArches(i, _) => i == id
        case Advance(i) => i == id
        case EndCollection(i) => i == id
        case BeginCollection(i, _) => i == id
        case _ => false)
      {
        OtherCollectorKept(st, e, id);
        assert st'.collectors[id] == st.collectors[id];
      } else {
        MovedCollectorKept(st, e, id);
      }
    }
    hide CollectorInv, PublisherInv;
  }

  lemma {:induction false} RunKeepsInv(states: seq<State>, events: seq<Event>, k: nat)
    requires Run(states, events) && k <= |events|
    ensures Inv(states[k])
  {
    if k > 0 {
      RunKeepsInv(states, events, k - 1);
      hide Inv, Next, Allowed, Initial;
      StepKeepsInv(states[k - 1], events[k - 1]);
    }
  }

  /** An object the collector may delete is not named by any database, as it
      stands at that very moment. */
  lemma DeletableIsUnnamed(st: State, id: nat, file: FileName)
    requires Inv(st) && id in st.collectors && Deletes(st, st.collectors[id], file)
    ensures !Named(st, Key(Directory(st.collectors[id], st.collectors[id].phase.i), file))
  {
    var c := st.collectors[id];
    assert CollectorInv(st, id, c);
    var i := c.phase.i;
    var key := Key(Directory(c, i), file);
    if i < |c.arches| {
      assert c.arches[i] != ANY && c.arches[i] in c.arches[..i + 1];
    } else {
      assert c.arches[..ReadSoFar(c)] == c.arches;
    }
    forall arch | arch in st.dbs && file in st.dbs[arch] ensures StorageKey(arch, file) != key {
      assert Accounted(st, c, arch, file);
    }
  }

  /** In every interleaving, a collection deletes no object that a database names
      at that moment. */
  lemma CollectionSparesNamedObjects(states: seq<State>, events: seq<Event>, k: nat, key: Key)
    requires Run(states, events) && k < |events| && events[k].DeleteOrphan?
    requires key in states[k].objects && Named(states[k], key)
    ensures key in states[k + 1].objects
  {
    RunKeepsInv(states, events, k);
    var st, id, file := states[k], events[k].id, events[k].file;
    hide Inv;
    if Deletes(st, st.collectors[id], file) {
      DeletableIsUnnamed(st, id, file);
    }
  }

  // ------------------------------------------------------------- what is collected

  lemma CutoffIsFixed(st: State, e: Event, id: nat)
    requires Allowed(st, e) && id in st.collectors
    ensures id in Next(st, e).collectors && Next(st, e).collectors[id].cutoff == st.collectors[id].cutoff
  {
  }

  lemma {:induction false} CutoffStays(states: seq<State>, events: seq<Event>, i: nat, k: nat, id: nat, olderThan: nat)
    requires Run(states, events) && i < k <= |events| && events[i] == BeginCollection(id, olderThan)
    ensures id in states[k].collectors && states[k].collectors[id].cutoff == states[i].now - olderThan
    ensures states[i].now <= states[k].now
    decreases k
  {
    hide Next, Allowed, Initial;
    var st, e := states[k - 1], events[k - 1];
    assert Allowed(st, e) && states[k] == Next(st, e);
    if k == i + 1 {
      BeginSetsCutoff(st, id, olderThan);
    } else {
      CutoffStays(states, events, i, k - 1, id, olderThan);
      CutoffIsFixed(st, e, id);
      TimePasses(st, e);
    }
  }

  lemma BeginSetsCutoff(st: State, id: nat, olderThan: nat)
    requires Allowed(st, BeginCollection(id, olderThan))
    ensures var st' := Next(st, BeginCollection(id, olderThan));
      id in st'.collectors && st'.collectors[id].cutoff == st.now - olderThan && st'.now == st.now
  {
  }

  lemma TimePasses(st: State, e: Event)
    requires Allowed(st, e)
    ensures st.now <= Next(st, e).now
  {
  }

  /** A collection takes only what had been renewed last at least `olderThan` before it began, and
      has not been renewed since. */
  lemma OnlyOldIsTaken(states: seq<State>, events: seq<Event>, i: nat, k: nat, id: nat, olderThan: nat, file: FileName, key: Key)
    requires Run(states, events) && i < k < |events|
    requires events[i] == BeginCollection(id, olderThan) && events[k] == DeleteOrphan(id, file)
    requires key in states[k].objects && key !in states[k + 1].objects
    ensures key.file == file && states[k].objects[key].mtime + olderThan <= states[i].now
  {
    CutoffStays(states, events, i, k, id, olderThan);
    assert Allowed(states[k], events[k]) && states[k + 1] == Next(states[k], events[k]);
    hide Run, Protected, Directory;
  }

  /** The listing holds the directory's objects as they are. */
  lemma ListingIsComplete(st: State, id: nat, key: Key)
    requires id in st.collectors && st.collectors[id].phase.ListObjects?
    ensures var c, c' := st.collectors[id], Next(st, Advance(id)).collectors[id];
      var dir := if c.phase.i < |c.arches| then c.arches[c.phase.i] else "any";
      && c'.phase == Deleting(c.phase.i)
      && (key in c'.listing <==> key in st.objects && key.dir == dir)
      && (key in c'.listing ==> c'.listing[key] == st.objects[key])
  {
  }

  /**
   * Where nothing has changed since the collector read the databases and listed the directory, it
   * takes an object exactly when it is old enough and no database of that directory lists the file.
   */
  lemma OldOrphanIsTaken(st: State, id: nat, file: FileName)
    requires Inv(st) && id in st.collectors && st.collectors[id].phase.Deleting?
    requires var c := st.collectors[id];
      forall a | a in c.arches[..ReadSoFar(c)] && a in c.referenced :: c.referenced[a] == Entries(st.dbs, a)
    requires var c := st.collectors[id];
      var key := Key(Directory(c, c.phase.i), file);
      key in st.objects && key in c.listing && c.listing[key] == st.objects[key]
    ensures var c := st.collectors[id];
      var i := c.phase.i;
      var key := Key(if i < |c.arches| then c.arches[i] else "any", file);
      key !in Next(st, DeleteOrphan(id, file)).objects <==>
        && st.objects[key].mtime <= c.cutoff
        && if i < |c.arches| then c.arches[i] !in st.dbs || file !in st.dbs[c.arches[i]]
           else !(file.isAny && exists a :: a in c.arches && a in st.dbs && file in st.dbs[a])
  {
    var c := st.collectors[id];
    assert CollectorInv(st, id, c);
    if c.phase.i < |c.arches| {
      assert c.arches[c.phase.i] in c.arches[..c.phase.i + 1];
    } else {
      assert c.arches[..ReadSoFar(c)] == c.arches;
    }
  }
}
