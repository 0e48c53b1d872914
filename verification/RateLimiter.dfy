/** The in-memory rate limiter: fixed windows per client in a table of bounded size. */
module RateLimiter {
  import opened Collections

  datatype Bucket = Bucket(window: int, index: int, count: int, lastSeen: int, expiresAt: int)

  type Table = map<string, Bucket>

  // ------------------------------------------------------------------------ windows

  /** Integer division that truncates toward zero. */
  function Quotient(a: int, b: int): int
    requires b > 0
  {
    if a >= 0 then a / b else -(-a / b)
  }

  /** The window a moment falls into. */
  function Index(now: int, window: int): int
    requires window > 0
  {
    Quotient(now, window)
  }

  /** How long until that window ends. */
  function Retry(now: int, window: int): int
    requires window > 0
  {
    (Index(now, window) + 1) * window - now
  }

  lemma DivisionBounds(a: int, b: int)
    requires b > 0 && a >= 0
    ensures 0 <= a / b && a / b * b <= a < a / b * b + b
  {
  }

  lemma QuotientBounds(a: int, b: int)
    requires b > 0
    ensures a >= 0 ==> Quotient(a, b) * b <= a < Quotient(a, b) * b + b
    ensures a < 0 ==> Quotient(a, b) * b - b < a <= Quotient(a, b) * b
  {
    var m := if a >= 0 then a else -a;
    var q := m / b;
    DivisionBounds(m, b);
    assert Quotient(a, b) == if a >= 0 then q else -q;
    hide Quotient;
    assert -q * b == -(q * b);
  }

  lemma TimesMonotone(x: int, y: int, b: int)
    requires b > 0 && x <= y
    ensures x * b <= y * b
  {
  }

  lemma Distribute(x: int, b: int)
    ensures (x + 1) * b == x * b + b
  {
  }

  /** A quotient whose multiple is reached is not overtaken. */
  lemma NotOvertaken(q: int, r: int, a: int, b: int)
    requires b > 0 && q * b <= a < r * b + b
    ensures q <= r
  {
    if r < q {
      TimesMonotone(r + 1, q, b);
      Distribute(r, b);
    }
  }

  lemma QuotientMonotone(a: int, later: int, b: int)
    requires b > 0 && 0 <= a <= later
    ensures 0 <= Quotient(a, b) <= Quotient(later, b)
  {
    DivisionBounds(a, b);
    DivisionBounds(later, b);
    var q, r := a / b, later / b;
    assert Quotient(a, b) == q && Quotient(later, b) == r;
    hide Quotient;
    NotOvertaken(q, r, later, b);
  }

  lemma NegativeQuotient(a: int, b: int)
    requires b > 0 && a < 0
    ensures Quotient(a, b) == -Quotient(-a, b)
  {
  }

  lemma IndexMonotone(now: int, later: int, window: int)
    requires window > 0 && now <= later
    ensures Index(now, window) <= Index(later, window)
  {
    hide Quotient;
    if now >= 0 {
      QuotientMonotone(now, later, window);
    } else if later >= 0 {
      NegativeQuotient(now, window);
      QuotientMonotone(0, -now, window);
      QuotientMonotone(0, later, window);
    } else {
      NegativeQuotient(now, window);
      NegativeQuotient(later, window);
      QuotientMonotone(-later, -now, window);
    }
  }

  /** A wait is never zero, and it is within one window exactly for these moments. */
  lemma RetryBounds(now: int, window: int)
    requires window > 0
    ensures 0 < Retry(now, window) < 2 * window
    ensures Retry(now, window) <= window <==> now >= 0 || Index(now, window) * window == now
  {
    QuotientBounds(now, window);
    Distribute(Quotient(now, window), window);
    hide Quotient;
  }

  /** After the wait, and no earlier, the next window has begun. */
  lemma RetryEndsWindow(now: int, window: int, later: int)
    requires window > 0 && 0 <= now <= later
    ensures later < now + Retry(now, window) <==> Index(later, window) == Index(now, window)
    ensures later == now + Retry(now, window) ==> Index(later, window) == Index(now, window) + 1
  {
    var q, r := Index(now, window), Index(later, window);
    QuotientBounds(now, window);
    QuotientBounds(later, window);
    Distribute(q, window);
    Distribute(r, window);
    IndexMonotone(now, later, window);
    hide Quotient;
    if r > q {
      TimesMonotone(q + 1, r, window);
    }
    if later == (q + 1) * window {
      NotOvertaken(q + 1, r, later, window);
      if r > q + 1 {
        TimesMonotone(q + 2, r, window);
        Distribute(q + 1, window);
      }
    }
  }

  // --------------------------------------------------------------------- one request

  datatype Event = Event(client: string, now: int, admitted: bool, evicted: Option<string>)

  function Unexpired(t: Table, now: int): Table {
    map client | client in t && t[client].expiresAt > now :: t[client]
  }

  ghost predicate LeastRecent(t: Table, client: string) {
    client in t && forall other | other in t :: t[client].lastSeen <= t[other].lastSeen
  }

  /** The table after room for one more client has been made. */
  ghost predicate MakesRoom(maxClients: int, t: Table, now: int, evicted: Option<string>, u: Table) {
    if |t| < maxClients then evicted == None && u == t
    else if |Unexpired(t, now)| < maxClients then evicted == None && u == Unexpired(t, now)
    else
      && evicted.Some?
      && LeastRecent(Unexpired(t, now), evicted.value)
      && u == Unexpired(t, now) - {evicted.value}
  }

  predicate Counting(t: Table, client: string, window: int, index: int) {
    client in t && t[client].window == window && t[client].index == index
  }

  /** One call of the limiter, from the table `t` to the table `after`. */
  ghost predicate Step(maxClients: int, limit: int, window: int, t: Table, e: Event, after: Table)
    requires window > 0
  {
    var index := Index(e.now, window);
    if Counting(t, e.client, window, index) then
      && e.evicted == None
      && (e.admitted <==> t[e.client].count < limit)
      && after == t[e.client := t[e.client].(
           lastSeen := e.now,
           count := if e.admitted then t[e.client].count + 1 else t[e.client].count)]
    else
      && e.admitted
      && Opens(maxClients, window, t, e, after)
  }

  /** A fresh window opens; a client without a bucket first needs room in the table. */
  ghost predicate Opens(maxClients: int, window: int, t: Table, e: Event, after: Table)
    requires window > 0
  {
    var fresh' := Bucket(window, Index(e.now, window), 1, e.now, e.now + Retry(e.now, window));
    && e.client in after && after[e.client] == fresh'
    && if e.client in t then e.evicted == None && after == t[e.client := fresh']
       else exists u :: MakesRoom(maxClients, t, e.now, e.evicted, u) && after == u[e.client := fresh']
  }

  const DEFAULT_MAX_CLIENTS: int := 100000

  class MemoryRateLimiter {
    const maxClients: int
    var buckets: Table

    ghost predicate Valid()
      reads this
    {
      0 < maxClients && |buckets| <= maxClients
    }

    constructor (maxClients: int)
      ensures Valid() && buckets == map[]
      ensures this.maxClients == if maxClients <= 0 then DEFAULT_MAX_CLIENTS else maxClients
    {
      this.maxClients := if maxClients <= 0 then DEFAULT_MAX_CLIENTS else maxClients;
      buckets := map[];
    }

    method Allow(client: string, limit: int, window: int, now: int)
      returns (admitted: bool, retry: int, ghost evicted: Option<string>)
      requires Valid()
      modifies this
      ensures Valid()
      ensures limit <= 0 || window <= 0 ==> admitted && retry == 0 && buckets == old(buckets)
      ensures limit > 0 && window > 0 ==>
        && Step(maxClients, limit, window, old(buckets), Event(client, now, admitted, evicted), buckets)
        && retry == if admitted then 0 else Retry(now, window)
    {
      evicted := None;
      if limit <= 0 || window <= 0 {
        return true, 0, None;
      }
      var index := Index(now, window);
      var wait := Retry(now, window);
      hide Index, Retry;
      if client !in buckets || buckets[client].window != window || buckets[client].index != index {
        var isNew := client !in buckets;
        if isNew {
          evicted := MakeRoom(now);
          ghost var u := buckets;
          assert client !in u;
          buckets := buckets[client := Bucket(window, index, 1, now, now + wait)];
          assert |buckets| == |u| + 1 by {
            assert buckets.Keys == u.Keys + {client};
          }
        } else {
          buckets := buckets[client := Bucket(window, index, 1, now, now + wait)];
          assert buckets.Keys == old(buckets).Keys;
        }
        return true, 0, evicted;
      }
      var current := buckets[client].(lastSeen := now);
      if current.count >= limit {
        buckets := buckets[client := current];
        assert buckets.Keys == old(buckets).Keys;
        return false, wait, None;
      }
      current := current.(count := current.count + 1);
      buckets := buckets[client := current];
      assert buckets.Keys == old(buckets).Keys;
      return true, 0, None;
    }

    method MakeRoom(now: int) returns (ghost evicted: Option<string>)
      requires Valid()
      modifies this
      ensures |buckets| < maxClients && buckets.Keys <= old(buckets).Keys
      ensures MakesRoom(maxClients, old(buckets), now, evicted, buckets)
    {
      evicted := None;
      if |buckets| >= maxClients {
        Sweep(now);
        if |buckets| >= maxClients {
          var victim := EvictOldest();
          evicted := Some(victim);
        }
      }
    }

    /** Drop every expired bucket and no other. */
    method Sweep(now: int)
      modifies this
      ensures buckets == Unexpired(old(buckets), now)
      ensures |buckets| <= |old(buckets)|
    {
      var rest := buckets.Keys;
      while rest != {}
        invariant rest <= old(buckets).Keys && buckets.Keys <= old(buckets).Keys
        invariant forall c | c in old(buckets) ::
          if c in rest || old(buckets)[c].expiresAt > now then c in buckets && buckets[c] == old(buckets)[c]
          else c !in buckets
        decreases |rest|
      {
        var client :| client in rest;
        if client in buckets && !(buckets[client].expiresAt > now) {
          buckets := buckets - {client};
        }
        rest := rest - {client};
      }
      SubsetIsSmaller(buckets.Keys, old(buckets).Keys);
    }

    /** Drop one client seen no later than any other. */
    method EvictOldest() returns (oldest: string)
      requires buckets != map[]
      modifies this
      ensures LeastRecent(old(buckets), oldest)
      ensures buckets == old(buckets) - {oldest} && |buckets| == |old(buckets)| - 1
    {
      var rest := buckets.Keys;
      var found := false;
      oldest := "";
      while rest != {}
        invariant rest <= buckets.Keys && buckets == old(buckets)
        invariant found ==> oldest in buckets
        invariant !found ==> rest == buckets.Keys
        invariant forall c | c in buckets && c !in rest :: found && buckets[oldest].lastSeen <= buckets[c].lastSeen
        decreases |rest|
      {
        var client :| client in rest;
        if !found || buckets[client].lastSeen < buckets[oldest].lastSeen {
          oldest, found := client, true;
        }
        rest := rest - {client};
      }
      buckets := buckets - {oldest};
      assert buckets.Keys == old(buckets).Keys - {oldest};
    }
  }

}
