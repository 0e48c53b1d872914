/** What the rate limiter guarantees over every sequence of calls with one limit and one window. */
module RateLimiterTheorems {
  import opened Collections
  import opened RateLimiter

  /** The settings all calls of a run share. */
  datatype Settings = Settings(maxClients: int, limit: int, window: int) {
    predicate Valid() {
      maxClients > 0 && limit > 0 && window > 0
    }
  }

  /** `tables[i]` is the table before call `i`; the first one is empty. */
  ghost predicate Run(cfg: Settings, tables: seq<Table>, events: seq<Event>)
    requires cfg.Valid()
  {
    && |tables| == |events| + 1
    && tables[0] == map[]
    && forall i | 0 <= i < |events| ::
         Step(cfg.maxClients, cfg.limit, cfg.window, tables[i], events[i], tables[i + 1])
  }

  /** Calls take the lock in the order in which they read the clock. */
  ghost predicate InOrder(events: seq<Event>) {
    forall i, j | 0 <= i < j < |events| :: events[i].now <= events[j].now
  }

  ghost predicate Spares(events: seq<Event>, client: string) {
    forall i | 0 <= i < |events| :: events[i].evicted != Some(client)
  }

  predicate CallsIn(e: Event, client: string, window: int, index: int)
    requires window > 0
  {
    e.client == client && Index(e.now, window) == index
  }

  /** How often `client` called in the window `index`, among the first `k` calls. */
  function Calls(events: seq<Event>, client: string, window: int, index: int, k: nat): nat
    requires window > 0 && k <= |events|
  {
    if k == 0 then 0
    else Calls(events, client, window, index, k - 1) + if CallsIn(events[k - 1], client, window, index) then 1 else 0
  }

  /** How many of those calls were admitted. */
  function Admissions(events: seq<Event>, client: string, window: int, index: int, k: nat): nat
    requires window > 0 && k <= |events|
  {
    if k == 0 then 0
    else
      Admissions(events, client, window, index, k - 1)
      + if CallsIn(events[k - 1], client, window, index) && events[k - 1].admitted then 1 else 0
  }

  function Min(a: int, b: int): int {
    if a < b then a else b
  }

  // ------------------------------------------------------------------ the table's size

  lemma FewerKeys(a: Table, b: Table)
    requires a.Keys <= b.Keys
    ensures |a| <= |b|
  {
    SubsetIsSmaller(a.Keys, b.Keys);
  }

  lemma RoomIsMade(maxClients: int, t: Table, now: int, evicted: Option<string>, u: Table)
    requires 0 < maxClients && |t| <= maxClients && MakesRoom(maxClients, t, now, evicted, u)
    ensures |u| < maxClients && u.Keys <= t.Keys
    ensures forall c | c in u :: u[c] == t[c]
  {
    var kept := Unexpired(t, now);
    FewerKeys(kept, t);
    if |t| >= maxClients && |kept| >= maxClients {
      assert u.Keys == kept.Keys - {evicted.value};
    }
  }

  lemma StepKeepsBound(cfg: Settings, t: Table, e: Event, after: Table)
    requires cfg.Valid() && |t| <= cfg.maxClients && Step(cfg.maxClients, cfg.limit, cfg.window, t, e, after)
    ensures |after| <= cfg.maxClients
  {
    hide Index, Retry, MakesRoom;
    if e.client in t {
      assert after.Keys == t.Keys;
    } else {
      var u :| MakesRoom(cfg.maxClients, t, e.now, e.evicted, u) && after.Keys == u.Keys + {e.client};
      RoomIsMade(cfg.maxClients, t, e.now, e.evicted, u);
    }
  }

  /** No run makes the table outgrow its bound, whatever the clocks say. */
  lemma {:induction false} TableIsBounded(cfg: Settings, tables: seq<Table>, events: seq<Event>, k: nat)
    requires cfg.Valid() && Run(cfg, tables, events) && k < |tables|
    ensures |tables[k]| <= cfg.maxClients
  {
    hide Step;
    if k > 0 {
      TableIsBounded(cfg, tables, events, k - 1);
      StepKeepsBound(cfg, tables[k - 1], events[k - 1], tables[k]);
    }
  }

  // ----------------------------------------------------------------- counting one client

  /** Every bucket ends with its window. */
  ghost predicate Dated(t: Table, window: int) {
    forall c | c in t :: t[c].window == window && t[c].expiresAt == (t[c].index + 1) * window
  }

  lemma StepKeepsDates(cfg: Settings, t: Table, e: Event, after: Table)
    requires cfg.Valid() && |t| <= cfg.maxClients && Dated(t, cfg.window)
    requires Step(cfg.maxClients, cfg.limit, cfg.window, t, e, after)
    ensures Dated(after, cfg.window)
  {
    hide Index, MakesRoom;
    if e.client !in t {
      var bucket := after[e.client];
      var u :| MakesRoom(cfg.maxClients, t, e.now, e.evicted, u) && after == u[e.client := bucket];
      RoomIsMade(cfg.maxClients, t, e.now, e.evicted, u);
    }
  }

  /** Another client's call leaves an open bucket alone unless it evicts it. */
  lemma OthersKeepBucket(cfg: Settings, t: Table, e: Event, after: Table, client: string)
    requires cfg.Valid() && |t| <= cfg.maxClients
    requires Step(cfg.maxClients, cfg.limit, cfg.window, t, e, after)
    requires e.client != client && e.evicted != Some(client)
    requires client in t && e.now < t[client].expiresAt
    ensures client in after && after[client] == t[client]
  {
    hide Index, Retry;
    if e.client !in t {
      var bucket := after[e.client];
      var u :| MakesRoom(cfg.maxClients, t, e.now, e.evicted, u) && after == u[e.client := bucket];
      assert client in Unexpired(t, e.now);
    }
  }

  /** What another client's call can do to a bucket at all. */
  lemma OthersAddNothing(cfg: Settings, t: Table, e: Event, after: Table, client: string)
    requires cfg.Valid() && |t| <= cfg.maxClients
    requires Step(cfg.maxClients, cfg.limit, cfg.window, t, e, after) && e.client != client
    ensures client in after ==> client in t && after[client] == t[client]
  {
    hide Index, Retry, MakesRoom;
    if e.client !in t {
      var bucket := after[e.client];
      var u :| MakesRoom(cfg.maxClients, t, e.now, e.evicted, u) && after == u[e.client := bucket];
      RoomIsMade(cfg.maxClients, t, e.now, e.evicted, u);
    }
  }

  /** A moment of the window `index` or an earlier one lies before that window's end. */
  lemma WindowIsOpenUntil(now: int, window: int, index: int)
    requires window > 0 && Index(now, window) <= index
    ensures now < (index + 1) * window
  {
    RetryBounds(now, window);
    var i := Index(now, window);
    hide Index;
    TimesMonotone(i + 1, index + 1, window);
  }

  // ------------------------------------------------------- the law for every lock order

  /** Call `k` dropped the client's bucket, by eviction or by sweeping it. */
  predicate Lost(tables: seq<Table>, k: nat, client: string)
    requires k + 1 < |tables|
  {
    client in tables[k] && client !in tables[k + 1]
  }

  /** The lengths of a client's blocks of calls in one window; `open` is the last one's while it may grow. */
  datatype Blocks = Blocks(closed: seq<nat>, open: nat)

  function End(b: Blocks): Blocks {
    if b.open == 0 then b else Blocks(b.closed + [b.open], 0)
  }

  function Lengths(b: Blocks): seq<nat> {
    End(b).closed
  }

  /** A block of calls in a window ends where the client calls in another window or loses its bucket. */
  function Grown(b: Blocks, e: Event, lost: bool, client: string, window: int, index: int): Blocks
    requires window > 0
  {
    if CallsIn(e, client, window, index) then b.(open := b.open + 1)
    else if e.client == client || lost then End(b)
    else b
  }

  function BlocksOf(tables: seq<Table>, events: seq<Event>, client: string, window: int, index: int, k: nat): Blocks
    requires window > 0 && k <= |events| < |tables|
  {
    if k == 0 then Blocks([], 0)
    else
      Grown(BlocksOf(tables, events, client, window, index, k - 1), events[k - 1], Lost(tables, k - 1, client),
            client, window, index)
  }

  function Sum(lengths: seq<nat>): nat {
    if lengths == [] then 0 else Sum(lengths[..|lengths| - 1]) + lengths[|lengths| - 1]
  }

  /** Each block gets at most `limit`. */
  function SumUpTo(limit: int, lengths: seq<nat>): int {
    if lengths == [] then 0 else SumUpTo(limit, lengths[..|lengths| - 1]) + Min(limit, lengths[|lengths| - 1])
  }

  ghost predicate AllPositive(lengths: seq<nat>) {
    forall i | 0 <= i < |lengths| :: lengths[i] > 0
  }

  lemma LengthsSum(limit: int, b: Blocks)
    requires limit > 0
    ensures Sum(Lengths(b)) == Sum(b.closed) + b.open
    ensures SumUpTo(limit, Lengths(b)) == SumUpTo(limit, b.closed) + Min(limit, b.open)
    ensures AllPositive(b.closed) ==> AllPositive(Lengths(b))
  {
    assert (b.closed + [b.open])[..|b.closed|] == b.closed;
  }

  /** What the table knows of the open block, and what the counts are so far. */
  ghost predicate Tallied(cfg: Settings, t: Table, client: string, index: int, b: Blocks, calls: nat, admissions: nat) {
    && AllPositive(b.closed)
    && (b.open > 0 <==> Counting(t, client, cfg.window, index))
    && (b.open > 0 ==> t[client].count == Min(cfg.limit, b.open))
    && calls == Sum(b.closed) + b.open
    && admissions == SumUpTo(cfg.limit, b.closed) + Min(cfg.limit, b.open)
  }

  lemma EndKeepsTally(cfg: Settings, t: Table, after: Table, client: string, index: int, b: Blocks, calls: nat, admissions: nat)
    requires cfg.Valid() && Tallied(cfg, t, client, index, b, calls, admissions)
    requires !Counting(after, client, cfg.window, index)
    ensures Tallied(cfg, after, client, index, End(b), calls, admissions)
  {
    LengthsSum(cfg.limit, b);
  }

  lemma CountOwnCall(cfg: Settings, t: Table, e: Event, after: Table, index: int, b: Blocks, calls: nat, admissions: nat)
    requires cfg.Valid() && Tallied(cfg, t, e.client, index, b, calls, admissions)
    requires Step(cfg.maxClients, cfg.limit, cfg.window, t, e, after) && Index(e.now, cfg.window) == index
    ensures Tallied(cfg, after, e.client, index, b.(open := b.open + 1), calls + 1, admissions + if e.admitted then 1 else 0)
  {
    hide Index, Retry, MakesRoom, Sum, SumUpTo;
  }

  lemma OtherWindowIsCounted(cfg: Settings, t: Table, e: Event, after: Table, index: int)
    requires cfg.Valid() && Step(cfg.maxClients, cfg.limit, cfg.window, t, e, after)
    requires Index(e.now, cfg.window) != index
    ensures !Counting(after, e.client, cfg.window, index)
  {
    hide Index, Retry, MakesRoom;
  }

  lemma TallyCall(cfg: Settings, t: Table, e: Event, after: Table, client: string, index: int,
                  b: Blocks, calls: nat, admissions: nat)
    requires cfg.Valid() && |t| <= cfg.maxClients && Tallied(cfg, t, client, index, b, calls, admissions)
    requires Step(cfg.maxClients, cfg.limit, cfg.window, t, e, after)
    ensures var counted := CallsIn(e, client, cfg.window, index);
      Tallied(cfg, after, client, index, Grown(b, e, client in t && client !in after, client, cfg.window, index),
              calls + if counted then 1 else 0, admissions + if counted && e.admitted then 1 else 0)
  {
    hide Step, Index;
    if CallsIn(e, client, cfg.window, index) {
      CountOwnCall(cfg, t, e, after, index, b, calls, admissions);
      hide Tallied;
    } else if e.client == client {
      OtherWindowIsCounted(cfg, t, e, after, index);
      EndKeepsTally(cfg, t, after, client, index, b, calls, admissions);
      hide Tallied;
    } else {
      OthersAddNothing(cfg, t, e, after, client);
      if client in t && client !in after {
        EndKeepsTally(cfg, t, after, client, index, b, calls, admissions);
        hide Tallied;
      }
    }
  }

  lemma NothingTallied(cfg: Settings, client: string, index: int)
    requires cfg.Valid()
    ensures Tallied(cfg, map[], client, index, Blocks([], 0), 0, 0)
  {
  }

  lemma {:induction false} RunIsTallied(
    cfg: Settings, tables: seq<Table>, events: seq<Event>, client: string, index: int, k: nat)
    requires cfg.Valid() && Run(cfg, tables, events) && k <= |events|
    ensures Tallied(cfg, tables[k], client, index, BlocksOf(tables, events, client, cfg.window, index, k),
                    Calls(events, client, cfg.window, index, k), Admissions(events, client, cfg.window, index, k))
  {
    hide Step, CallsIn, Tallied, Grown;
    if k == 0 {
      NothingTallied(cfg, client, index);
    } else {
      var e := events[k - 1];
      RunIsTallied(cfg, tables, events, client, index, k - 1);
      TableIsBounded(cfg, tables, events, k - 1);
      assert Step(cfg.maxClients, cfg.limit, cfg.window, tables[k - 1], e, tables[k]);
      hide Run;
      TallyCall(cfg, tables[k - 1], e, tables[k], client, index,
                BlocksOf(tables, events, client, cfg.window, index, k - 1),
                Calls(events, client, cfg.window, index, k - 1), Admissions(events, client, cfg.window, index, k - 1));
    }
  }

  /** The blocks account for all calls of the client in the window, none of them empty. */
  lemma BlocksCoverCalls(cfg: Settings, tables: seq<Table>, events: seq<Event>, client: string, index: int, k: nat)
    requires cfg.Valid() && Run(cfg, tables, events) && k <= |events|
    ensures var lengths := Lengths(BlocksOf(tables, events, client, cfg.window, index, k));
      AllPositive(lengths) && Sum(lengths) == Calls(events, client, cfg.window, index, k)
  {
    RunIsTallied(cfg, tables, events, client, index, k);
    LengthsSum(cfg.limit, BlocksOf(tables, events, client, cfg.window, index, k));
    hide Run, BlocksOf, Lengths, Sum, SumUpTo;
  }

  /** In whatever order calls take the lock, a client is admitted min(limit, length) times in each block. */
  lemma AdmittedByBlocks(cfg: Settings, tables: seq<Table>, events: seq<Event>, client: string, index: int, k: nat)
    requires cfg.Valid() && Run(cfg, tables, events) && k <= |events|
    ensures Admissions(events, client, cfg.window, index, k)
         == SumUpTo(cfg.limit, Lengths(BlocksOf(tables, events, client, cfg.window, index, k)))
  {
    RunIsTallied(cfg, tables, events, client, index, k);
    LengthsSum(cfg.limit, BlocksOf(tables, events, client, cfg.window, index, k));
    hide Run, BlocksOf, Lengths, Sum, SumUpTo;
  }

  lemma {:induction false} SumsCompared(limit: int, lengths: seq<nat>)
    requires limit > 0 && AllPositive(lengths)
    ensures SumUpTo(limit, lengths) <= Sum(lengths)
    ensures Sum(lengths) <= limit ==> SumUpTo(limit, lengths) == Sum(lengths)
    ensures lengths != [] ==> SumUpTo(limit, lengths) >= Min(limit, Sum(lengths)) && Sum(lengths) > 0
    ensures SumUpTo(limit, lengths) > limit <==> Sum(lengths) > limit && |lengths| >= 2
  {
    if lengths != [] {
      var front, last := lengths[..|lengths| - 1], lengths[|lengths| - 1];
      SumsCompared(limit, front);
      assert last > 0;
    }
  }

  /** The limit is exceeded exactly when more calls than the limit fall into more than one block. */
  lemma LimitIsExceeded(cfg: Settings, tables: seq<Table>, events: seq<Event>, client: string, index: int, k: nat)
    requires cfg.Valid() && Run(cfg, tables, events) && k <= |events|
    ensures Admissions(events, client, cfg.window, index, k) > cfg.limit
       <==> Calls(events, client, cfg.window, index, k) > cfg.limit
            && |Lengths(BlocksOf(tables, events, client, cfg.window, index, k))| >= 2
  {
    AdmittedByBlocks(cfg, tables, events, client, index, k);
    BlocksCoverCalls(cfg, tables, events, client, index, k);
    SumsCompared(cfg.limit, Lengths(BlocksOf(tables, events, client, cfg.window, index, k)));
    hide Run, BlocksOf, Lengths, Sum, SumUpTo, Calls, Admissions;
  }

  // ---------------------------------------------------------------- what ends a block

  /** Besides the client's own calls in other windows, only evictions end its block, and sweeps by calls of later windows. */
  lemma BucketIsLostTo(cfg: Settings, tables: seq<Table>, events: seq<Event>, client: string, index: int, k: nat)
    requires cfg.Valid() && Run(cfg, tables, events) && k < |events|
    requires Counting(tables[k], client, cfg.window, index) && Lost(tables, k, client)
    ensures |tables[k]| == cfg.maxClients && events[k].client !in tables[k]
    ensures events[k].evicted == Some(client) || index < Index(events[k].now, cfg.window)
  {
    var t, e, after := tables[k], events[k], tables[k + 1];
    TableIsBounded(cfg, tables, events, k);
    RunIsDated(cfg, tables, events, k);
    assert Step(cfg.maxClients, cfg.limit, cfg.window, t, e, after);
    if e.evicted != Some(client) && Index(e.now, cfg.window) <= index {
      WindowIsOpenUntil(e.now, cfg.window, index);
      hide Index, Run;
      assert e.client != client;
      OthersKeepBucket(cfg, t, e, after, client);
    }
    hide Index, Retry, Run;
  }

  /** Nothing is lost while new clients find room, so then blocks are just the client's consecutive calls in the window. */
  lemma NothingLostWhileRoom(cfg: Settings, tables: seq<Table>, events: seq<Event>, client: string, k: nat)
    requires cfg.Valid() && Run(cfg, tables, events) && k < |events|
    requires events[k].client in tables[k] || |tables[k]| < cfg.maxClients
    ensures !Lost(tables, k, client)
  {
    assert Step(cfg.maxClients, cfg.limit, cfg.window, tables[k], events[k], tables[k + 1]);
    hide Run, Index, Retry;
  }

  lemma {:induction false} RunIsDated(cfg: Settings, tables: seq<Table>, events: seq<Event>, k: nat)
    requires cfg.Valid() && Run(cfg, tables, events) && k < |tables|
    ensures Dated(tables[k], cfg.window)
  {
    hide Step;
    if k > 0 {
      RunIsDated(cfg, tables, events, k - 1);
      TableIsBounded(cfg, tables, events, k - 1);
      StepKeepsDates(cfg, tables[k - 1], events[k - 1], tables[k]);
    }
  }

  // ------------------------------------------------------------ calls in clock order

  /** Seen in clock order, at most one block has begun, and it has ended only if the window is over. */
  ghost predicate OneBlock(b: Blocks, now: int, window: int, index: int)
    requires window > 0
  {
    && |Lengths(b)| <= 1
    && (Lengths(b) != [] ==> index <= Index(now, window))
    && (b.closed != [] ==> index < Index(now, window))
  }

  lemma OneBlockGrows(b: Blocks, e: Event, lost: bool, client: string, window: int, index: int, before: int)
    requires window > 0 && OneBlock(b, before, window, index) && Index(before, window) <= Index(e.now, window)
    requires lost && b.open > 0 && e.client != client ==> index < Index(e.now, window)
    ensures OneBlock(Grown(b, e, lost, client, window, index), e.now, window, index)
  {
    hide Index;
  }

  lemma OpenMeansCounting(
    cfg: Settings, tables: seq<Table>, events: seq<Event>, client: string, index: int, k: nat)
    requires cfg.Valid() && Run(cfg, tables, events) && k <= |events|
    ensures BlocksOf(tables, events, client, cfg.window, index, k).open > 0
       <==> Counting(tables[k], client, cfg.window, index)
  {
    RunIsTallied(cfg, tables, events, client, index, k);
    hide Run, BlocksOf, Counting, Calls, Admissions;
  }

  lemma OpenBlockIsLostLater(
    cfg: Settings, tables: seq<Table>, events: seq<Event>, client: string, index: int, k: nat)
    requires cfg.Valid() && Run(cfg, tables, events) && Spares(events, client) && 0 < k <= |events|
    requires Lost(tables, k - 1, client)
    ensures BlocksOf(tables, events, client, cfg.window, index, k - 1).open > 0
        ==> index < Index(events[k - 1].now, cfg.window)
  {
    hide Step, Index, BlocksOf, Counting, Lost, Calls, Admissions;
    assert events[k - 1].evicted != Some(client) && |tables| == |events| + 1;
    hide Spares, Run;
    OpenMeansCounting(cfg, tables, events, client, index, k - 1);
    if BlocksOf(tables, events, client, cfg.window, index, k - 1).open > 0 {
      BucketIsLostTo(cfg, tables, events, client, index, k - 1);
    }
  }

  lemma {:induction false} InOrderIsOneBlock(
    cfg: Settings, tables: seq<Table>, events: seq<Event>, client: string, index: int, k: nat)
    requires cfg.Valid() && Run(cfg, tables, events) && InOrder(events) && Spares(events, client)
    requires 0 < k <= |events|
    ensures OneBlock(BlocksOf(tables, events, client, cfg.window, index, k), events[k - 1].now, cfg.window, index)
  {
    hide Step, OneBlock, Grown, Index, Tallied, Counting;
    var e := events[k - 1];
    var b := BlocksOf(tables, events, client, cfg.window, index, k - 1);
    if Lost(tables, k - 1, client) {
      OpenBlockIsLostLater(cfg, tables, events, client, index, k);
    }
    if k > 1 {
      InOrderIsOneBlock(cfg, tables, events, client, index, k - 1);
      IndexMonotone(events[k - 2].now, e.now, cfg.window);
      OneBlockGrows(b, e, Lost(tables, k - 1, client), client, cfg.window, index, events[k - 2].now);
    } else {
      NoBlockYet(e.now, cfg.window, index);
      OneBlockGrows(b, e, Lost(tables, k - 1, client), client, cfg.window, index, e.now);
    }
  }

  lemma NoBlockYet(now: int, window: int, index: int)
    requires window > 0
    ensures OneBlock(Blocks([], 0), now, window, index)
  {
  }

  /** A client that is never evicted is served min(limit, calls) times in a window, when calls are counted in clock order. */
  lemma ServedUpToLimit(cfg: Settings, tables: seq<Table>, events: seq<Event>, client: string, index: int)
    requires cfg.Valid() && Run(cfg, tables, events) && InOrder(events) && Spares(events, client)
    ensures Admissions(events, client, cfg.window, index, |events|)
         == Min(cfg.limit, Calls(events, client, cfg.window, index, |events|))
  {
    if events != [] {
      var n := |events|;
      InOrderIsOneBlock(cfg, tables, events, client, index, n);
      AdmittedByBlocks(cfg, tables, events, client, index, n);
      BlocksCoverCalls(cfg, tables, events, client, index, n);
      var lengths := Lengths(BlocksOf(tables, events, client, cfg.window, index, n));
      hide Run, InOrder, Spares, BlocksOf, Lengths, Calls, Admissions;
      SumsCompared(cfg.limit, lengths);
    }
  }

  /** An eviction takes a client no other had been silent for longer than, from a full table of open windows. */
  lemma EvictionIsLastResort(cfg: Settings, tables: seq<Table>, events: seq<Event>, k: nat, other: string)
    requires cfg.Valid() && Run(cfg, tables, events) && k < |events| && events[k].evicted.Some?
    ensures var t, now, victim := tables[k], events[k].now, events[k].evicted.value;
      && |t| == cfg.maxClients && victim in t && now < t[victim].expiresAt
      && (other in t ==> now < t[other].expiresAt && t[victim].lastSeen <= t[other].lastSeen)
  {
    var t, e, after := tables[k], events[k], tables[k + 1];
    TableIsBounded(cfg, tables, events, k);
    assert Step(cfg.maxClients, cfg.limit, cfg.window, t, e, after);
    hide Run, Index, Retry;
    var bucket := after[e.client];
    var u :| MakesRoom(cfg.maxClients, t, e.now, e.evicted, u) && after == u[e.client := bucket];
    var kept := Unexpired(t, e.now);
    FewerKeys(kept, t);
    FullSubset(kept.Keys, t.Keys);
  }

  /** The moment of the client's latest call among the first `k`. */
  function LastCall(events: seq<Event>, client: string, k: nat): Option<int>
    requires k <= |events|
  {
    if k == 0 then None else if events[k - 1].client == client then Some(events[k - 1].now)
    else LastCall(events, client, k - 1)
  }

  lemma OwnCallIsSeen(cfg: Settings, t: Table, e: Event, after: Table)
    requires cfg.Valid() && Step(cfg.maxClients, cfg.limit, cfg.window, t, e, after)
    ensures e.client in after && after[e.client].lastSeen == e.now
  {
    hide Index, Retry, MakesRoom;
  }

  /** A client in the table was last seen at its latest call. */
  lemma {:induction false} SeenAtLastCall(cfg: Settings, tables: seq<Table>, events: seq<Event>, k: nat, client: string)
    requires cfg.Valid() && Run(cfg, tables, events) && k <= |events| && client in tables[k]
    ensures LastCall(events, client, k) == Some(tables[k][client].lastSeen)
  {
    if k > 0 {
      var t, e, after := tables[k - 1], events[k - 1], tables[k];
      assert Step(cfg.maxClients, cfg.limit, cfg.window, t, e, after);
      TableIsBounded(cfg, tables, events, k - 1);
      hide Step;
      OwnCallIsSeen(cfg, t, e, after);
      if e.client != client {
        OthersAddNothing(cfg, t, e, after, client);
        SeenAtLastCall(cfg, tables, events, k - 1, client);
      }
    }
  }

  /** So the evicted client's latest call is no later than that of any other in the table. */
  lemma EvictedCalledFirst(cfg: Settings, tables: seq<Table>, events: seq<Event>, k: nat, other: string)
    requires cfg.Valid() && Run(cfg, tables, events) && k < |events| && events[k].evicted.Some?
    requires other in tables[k]
    ensures var victim := events[k].evicted.value;
      && LastCall(events, victim, k).Some? && LastCall(events, other, k).Some?
      && LastCall(events, victim, k).value <= LastCall(events, other, k).value
  {
    EvictionIsLastResort(cfg, tables, events, k, other);
    SeenAtLastCall(cfg, tables, events, k, other);
    SeenAtLastCall(cfg, tables, events, k, events[k].evicted.value);
    hide Run;
  }

  // ------------------------------------------------------------- clocks read out of order

  /**
   * The clock is read before the lock is taken, so two calls can be counted in the other
   * order; a late call from the previous window then opens that window a second time.
   */
  lemma OutOfOrderCallsOverrun() returns (cfg: Settings, tables: seq<Table>, events: seq<Event>)
    ensures cfg.Valid() && Run(cfg, tables, events) && Spares(events, "a") && !InOrder(events)
    ensures Admissions(events, "a", cfg.window, 0, |events|) > cfg.limit
  {
    cfg := Settings(8, 1, 10);
    var e0 := Event("a", 5, true, None);
    var e1 := Event("a", 12, true, None);
    var e2 := Event("a", 7, true, None);
    var t1: Table := map["a" := Bucket(10, 0, 1, 5, 10)];
    var t2: Table := map["a" := Bucket(10, 1, 1, 12, 20)];
    var t3: Table := map["a" := Bucket(10, 0, 1, 7, 10)];
    events := [e0, e1, e2];
    tables := [map[], t1, t2, t3];
    var empty: Table := map[];
    assert MakesRoom(8, empty, 5, None, empty);
    assert empty["a" := Bucket(10, 0, 1, 5, 10)] == t1;
    assert Step(8, 1, 10, empty, e0, t1);
    assert Step(8, 1, 10, t1, e1, t2);
    assert Step(8, 1, 10, t2, e2, t3);
    assert Admissions(events, "a", 10, 0, 1) == 1;
    assert Admissions(events, "a", 10, 0, 2) == 1;
    assert events[0].now <= events[1].now && !(events[1].now <= events[2].now);
  }
}
