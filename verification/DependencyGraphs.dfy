/** Dependency graphs: construction, and the order in which packages can be built. */
module DependencyGraphs {
  import opened Collections
  import opened Sorting

  /** A package base by its name. */
  datatype Node = Node(name: string)

  predicate Before(a: Node, b: Node) {
    Less(a.name, b.name)
  }

  type Deps = map<Node, seq<Node>>

  predicate DependsOn(deps: Deps, n: Node, d: Node) {
    n in deps && d in deps[n]
  }

  function DepSet(deps: Deps, n: Node): set<Node> {
    if n in deps then set d | d in deps[n] else {}
  }

  /** Listed nodes and all that occur in an edge. */
  function NodeSet(nodes: seq<Node>, deps: Deps): set<Node> {
    (set n | n in nodes) + deps.Keys + (set n, d | n in deps && d in deps[n] :: d)
  }

  // --------------------------------------------------------------- what an order must be

  /** Every dependency of a listed node stands before it. */
  ghost predicate DependenciesFirst(order: seq<Node>, deps: Deps) {
    forall i, d | 0 <= i < |order| && DependsOn(deps, order[i], d) :: d in order[..i]
  }

  /** A node all of whose dependencies are in `done`. */
  predicate Ready(deps: Deps, done: set<Node>, n: Node) {
    n !in done && DepSet(deps, n) <= done
  }

  /** Each step emits the smallest node that is ready then. */
  ghost predicate SmallestFirst(order: seq<Node>, all: set<Node>, deps: Deps) {
    forall i, n | 0 <= i < |order| && n in all && Ready(deps, Elements(order[..i]), n) :: !Before(n, order[i])
  }

  /** Nodes that wait for each other: every one needs another of them. */
  ghost predicate Deadlocked(waiting: set<Node>, deps: Deps) {
    waiting != {} && forall n | n in waiting :: Waits(n, waiting, deps)
  }

  ghost predicate Waits(n: Node, waiting: set<Node>, deps: Deps) {
    exists d :: d in waiting && DependsOn(deps, n, d)
  }

  /** The first node of a set to appear in such an order waits for none of the others. */
  lemma {:induction false} FirstIsFree(order: seq<Node>, waiting: set<Node>, deps: Deps, k: nat) returns (i: nat)
    requires DependenciesFirst(order, deps) && k < |order| && order[k] in waiting
    ensures i < |order| && order[i] in waiting && !Waits(order[i], waiting, deps)
    decreases k
  {
    if j :| 0 <= j < k && order[j] in waiting {
      i := FirstIsFree(order, waiting, deps, j);
    } else {
      i := k;
      forall d | DependsOn(deps, order[k], d) ensures d !in waiting {
        assert d in order[..k];
      }
    }
  }

  /** So a complete order means that no nodes wait for each other. */
  lemma NoDeadlock(order: seq<Node>, all: set<Node>, deps: Deps)
    requires DependenciesFirst(order, deps) && Elements(order) == all
    ensures forall waiting | waiting <= all :: !Deadlocked(waiting, deps)
  {
    forall waiting | waiting <= all ensures !Deadlocked(waiting, deps) {
      if waiting != {} {
        var n :| n in waiting;
        assert n in Elements(order);
        var k :| 0 <= k < |order| && order[k] == n;
        var i := FirstIsFree(order, waiting, deps, k);
      }
    }
  }

  /** The smallest-first order is the only one. */
  lemma {:induction false} OrderIsDetermined(a: seq<Node>, b: seq<Node>, all: set<Node>, deps: Deps, n: nat)
    requires n <= |a| && n <= |b|
    requires Distinct(a) && DependenciesFirst(a, deps) && SmallestFirst(a, all, deps) && Elements(a) <= all
    requires Distinct(b) && DependenciesFirst(b, deps) && SmallestFirst(b, all, deps) && Elements(b) <= all
    ensures a[..n] == b[..n]
  {
    if n > 0 {
      OrderIsDetermined(a, b, all, deps, n - 1);
      var m := n - 1;
      EmittedWasReady(a, all, deps, m);
      EmittedWasReady(b, all, deps, m);
      hide Before, Ready, DependenciesFirst;
      assert Elements(a[..m]) == Elements(b[..m]);
      assert !Before(b[m], a[m]) && !Before(a[m], b[m]);
      LessIsTotal(a[m].name, b[m].name);
      assert a[..n] == a[..m] + [a[m]] && b[..n] == b[..m] + [b[m]];
    }
  }

  lemma EmittedWasReady(order: seq<Node>, all: set<Node>, deps: Deps, m: nat)
    requires m < |order| && Distinct(order) && DependenciesFirst(order, deps) && Elements(order) <= all
    ensures order[m] in all && Ready(deps, Elements(order[..m]), order[m])
  {
    assert order[m] in Elements(order);
    forall d | d in DepSet(deps, order[m]) ensures d in Elements(order[..m]) {
      assert DependsOn(deps, order[m], d);
    }
  }

  // -------------------------------------------------------------------- topological sort

  /** How many dependencies of `n` are still missing. */
  function Missing(deps: Deps, done: set<Node>, n: Node): nat {
    |DepSet(deps, n) - done|
  }

  ghost predicate Counted(remaining: map<Node, int>, all: set<Node>, deps: Deps, done: set<Node>) {
    remaining.Keys == all && forall n | n in all :: remaining[n] == Missing(deps, done, n)
  }

  /** For every node, the ones among `sources` that depend on it. */
  ghost predicate Reversed(dependents: Deps, all: set<Node>, sources: set<Node>, deps: Deps) {
    && dependents.Keys == all
    && (forall d | d in all :: Distinct(dependents[d]))
    && (forall d, n | d in all :: n in dependents[d] <==> n in sources && DependsOn(deps, n, d))
  }

  ghost predicate Closed(all: set<Node>, deps: Deps) {
    forall n | n in all :: DepSet(deps, n) <= all
  }

  lemma OneFewerMissing(deps: Deps, done: set<Node>, n: Node, emitted: Node)
    requires emitted !in done
    ensures Missing(deps, done + {emitted}, n)
         == Missing(deps, done, n) - if DependsOn(deps, n, emitted) then 1 else 0
  {
    var before, after := DepSet(deps, n) - done, DepSet(deps, n) - (done + {emitted});
    if DependsOn(deps, n, emitted) {
      assert before == after + {emitted};
    } else {
      assert before == after;
    }
  }

  lemma NothingMissing(deps: Deps, done: set<Node>, n: Node)
    ensures Missing(deps, done, n) == 0 <==> DepSet(deps, n) <= done
  {
    var missing := DepSet(deps, n) - done;
    assert |missing| == 0 <==> missing == {};
    assert missing == {} ==> forall d | d in DepSet(deps, n) :: d in done || d in missing;
    hide DepSet;
  }

  /** `n` has been entered behind the dependents of every node in `seen`. */
  ghost predicate Entered(before: Deps, after: Deps, all: set<Node>, seen: set<Node>, n: Node) {
    && before.Keys == all && after.Keys == all
    && forall d | d in all :: after[d] == if d in seen then before[d] + [n] else before[d]
  }

  lemma EnterMore(before: Deps, after: Deps, all: set<Node>, seen: set<Node>, n: Node, d: Node)
    requires Entered(before, after, all, seen, n) && d in all && d !in seen
    ensures Entered(before, after[d := after[d] + [n]], all, seen + {d}, n)
  {
  }

  lemma ReversedMore(before: Deps, after: Deps, all: set<Node>, sources: set<Node>, deps: Deps, n: Node)
    requires Reversed(before, all, sources, deps) && n !in sources
    requires Entered(before, after, all, DepSet(deps, n), n)
    ensures Reversed(after, all, sources + {n}, deps)
  {
    forall d | d in all ensures Distinct(after[d]) {
      assert n !in before[d];
    }
    forall d, m | d in all ensures m in after[d] <==> m in sources + {n} && DependsOn(deps, m, d) {
      assert d in DepSet(deps, n) <==> DependsOn(deps, n, d);
      assert m in before[d] <==> m in sources && DependsOn(deps, m, d);
    }
  }

  lemma ElementsMore(list: seq<Node>, i: nat)
    requires i < |list|
    ensures Elements(list[..i + 1]) == Elements(list[..i]) + {list[i]}
  {
    assert list[..i + 1] == list[..i] + [list[i]];
  }

  lemma ListedDeps(deps: Deps, n: Node)
    ensures Elements(if n in deps then deps[n] else []) == DepSet(deps, n)
    ensures Missing(deps, {}, n) == |DepSet(deps, n)|
  {
    assert DepSet(deps, n) - {} == DepSet(deps, n);
  }

  /** What reading one more dependency means for the nodes seen so far. */
  lemma SeeOneMore(list: seq<Node>, i: nat, before: Deps, after: Deps, all: set<Node>, seen: set<Node>, n: Node)
    requires i < |list| && Elements(list) <= all && seen == Elements(list[..i]) && Entered(before, after, all, seen, n)
    ensures var d := list[i];
      && d in after
      && (d in seen ==> Elements(list[..i + 1]) == seen)
      && (d !in seen ==>
           && Elements(list[..i + 1]) == seen + {d}
           && Entered(before, after[d := after[d] + [n]], all, seen + {d}, n))
  {
    var d := list[i];
    ElementsMore(list, i);
    assert d in Elements(list);
    if d !in seen {
      EnterMore(before, after, all, seen, n, d);
    } else {
      assert seen + {d} == seen;
    }
  }

  /** Count the dependencies of one node and enter it with each of them. */
  method CountNode(n: Node, all: set<Node>, deps: Deps, dependents: Deps) returns (count: int, after: Deps)
    requires dependents.Keys == all && DepSet(deps, n) <= all
    ensures count == Missing(deps, {}, n)
    ensures Entered(dependents, after, all, DepSet(deps, n), n)
  {
    var list := if n in deps then deps[n] else [];
    ListedDeps(deps, n);
    hide Missing, DepSet;
    var seen: set<Node> := {};
    count, after := 0, dependents;
    var i := 0;
    while i < |list|
      invariant 0 <= i <= |list|
      invariant seen == Elements(list[..i]) && count == |seen|
      invariant Entered(dependents, after, all, seen, n)
    {
      hide Entered, Elements;
      var d := list[i];
      SeeOneMore(list, i, dependents, after, all, seen, n);
      if d !in seen {
        seen := seen + {d};
        count := count + 1;
        after := after[d := after[d] + [n]];
      }
      i := i + 1;
    }
    assert list[..i] == list;
  }

  lemma CountedMore(remaining: map<Node, int>, sources: set<Node>, deps: Deps, n: Node, count: int)
    requires Counted(remaining, sources, deps, {}) && count == Missing(deps, {}, n)
    ensures Counted(remaining[n := count], sources + {n}, deps, {})
  {
    hide Missing;
  }

  /** The counters and reverse edges the sort starts from. */
  method CountAll(all: set<Node>, deps: Deps) returns (remaining: map<Node, int>, dependents: Deps)
    requires Closed(all, deps)
    ensures Counted(remaining, all, deps, {}) && Reversed(dependents, all, all, deps)
  {
    hide Missing, DepSet, DependsOn;
    remaining := map[];
    dependents := map n | n in all :: [];
    var rest := all;
    while rest != {}
      invariant rest <= all
      invariant Counted(remaining, all - rest, deps, {})
      invariant Reversed(dependents, all, all - rest, deps)
      decreases |rest|
    {
      var n :| n in rest;
      assert DepSet(deps, n) <= all && dependents.Keys == all;
      hide Reversed, Closed, Entered;
      var count, after := CountNode(n, all, deps, dependents);
      ReversedMore(dependents, after, all, all - rest, deps, n);
      CountedMore(remaining, all - rest, deps, n, count);
      hide Counted;
      assert all - (rest - {n}) == all - rest + {n};
      dependents := after;
      remaining := remaining[n := count];
      rest := rest - {n};
    }
    assert all - rest == all;
  }

  /** One dependency of each of these nodes is met. */
  method Release(dependents: seq<Node>, remaining: map<Node, int>) returns (after: map<Node, int>)
    requires Distinct(dependents) && forall n | n in dependents :: n in remaining
    ensures after.Keys == remaining.Keys
    ensures forall n | n in remaining :: after[n] == remaining[n] - if n in dependents then 1 else 0
  {
    after := remaining;
    var i := 0;
    while i < |dependents|
      invariant 0 <= i <= |dependents|
      invariant after.Keys == remaining.Keys
      invariant forall n | n in remaining :: after[n] == remaining[n] - if n in dependents[..i] then 1 else 0
    {
      var n := dependents[i];
      assert dependents[..i + 1] == dependents[..i] + [n];
      assert n in dependents;
      after := after[n := after[n] - 1];
      i := i + 1;
    }
    assert dependents[..i] == dependents;
  }

  /** The smallest node not emitted yet whose count is down to zero. */
  method PickReady(all: set<Node>, done: set<Node>, remaining: map<Node, int>) returns (next: Option<Node>)
    requires remaining.Keys == all
    ensures next.None? ==> forall n | n in all && n !in done :: remaining[n] != 0
    ensures next.Some? ==>
      && next.value in all && next.value !in done && remaining[next.value] == 0
      && forall n | n in all && n !in done && remaining[n] == 0 :: !Before(n, next.value)
  {
    next := None;
    var rest := all;
    while rest != {}
      invariant rest <= all
      invariant next.Some? ==> next.value in all && next.value !in done && remaining[next.value] == 0
      invariant forall n | n in all - rest && n !in done && remaining[n] == 0 :: next.Some? && !Before(n, next.value)
      decreases |rest|
    {
      hide Before;
      var n :| n in rest;
      if n !in done && remaining[n] == 0 && (next.None? || Before(n, next.value)) {
        forall m | m in all - rest && m !in done && remaining[m] == 0 ensures !Before(m, n) {
          if Before(m, n) {
            LessIsTransitive(m.name, n.name, next.value.name);
          }
        }
        LessIsTotal(n.name, n.name);
        next := Some(n);
      }
      rest := rest - {n};
    }
  }

  lemma NodesAreClosed(nodes: seq<Node>, deps: Deps)
    ensures Closed(NodeSet(nodes, deps), deps)
  {
  }

  /** The nodes in dependency-first order, or nothing when some of them wait for each other. */
  method TopoSort(nodes: seq<Node>, deps: Deps) returns (r: Option<seq<Node>>)
    ensures r.Some? ==> IsBuildOrder(r.value, NodeSet(nodes, deps), deps)
    ensures r.Some? <==> forall waiting | waiting <= NodeSet(nodes, deps) :: !Deadlocked(waiting, deps)
  {
    var all := NodeSet(nodes, deps);
    NodesAreClosed(nodes, deps);
    hide NodeSet, Missing, DepSet, Before;
    var remaining, dependents := CountAll(all, deps);
    var order: seq<Node> := [];
    var emitted: set<Node> := {};
    while |order| < |all|
      invariant emitted <= all && |order| == |emitted| <= |all|
      invariant Emits(order, emitted, all, deps)
      invariant Counted(remaining, all, deps, emitted)
      decreases |all| - |order|
    {
      hide Reversed, Deadlocked, Closed, Elements;
      var next := PickReady(all, emitted, remaining);
      if next.None? {
        StuckIsDeadlocked(all, emitted, remaining, deps);
        return None;
      }
      hide Counted, Emits;
      PickedIsSmallest(all, emitted, remaining, deps, next.value);
      EmitOne(order, emitted, all, deps, next.value);
      remaining := Advance(all, deps, emitted, remaining, dependents, next.value);
      order := order + [next.value];
      emitted := emitted + {next.value};
      SubsetIsSmaller(emitted, all);
    }
    FullSubset(emitted, all);
    NoDeadlock(order, all, deps);
    hide Deadlocked, Closed, Reversed, Counted, Elements;
    r := Some(order);
  }

  /** All nodes once, dependencies first, and the smallest ready node at every step. */
  ghost predicate IsBuildOrder(order: seq<Node>, all: set<Node>, deps: Deps) {
    Distinct(order) && Elements(order) == all && DependenciesFirst(order, deps) && SmallestFirst(order, all, deps)
  }

  /** What holds of the nodes emitted so far. */
  ghost predicate Emits(order: seq<Node>, emitted: set<Node>, all: set<Node>, deps: Deps) {
    Distinct(order) && Elements(order) == emitted && DependenciesFirst(order, deps) && SmallestFirst(order, all, deps)
  }

  method Advance(
    all: set<Node>, deps: Deps, emitted: set<Node>, remaining: map<Node, int>, dependents: Deps, next: Node)
    returns (after: map<Node, int>)
    requires Counted(remaining, all, deps, emitted) && Reversed(dependents, all, all, deps)
    requires next in all && next !in emitted
    ensures Counted(after, all, deps, emitted + {next})
  {
    after := Release(dependents[next], remaining);
    forall n | n in all ensures after[n] == Missing(deps, emitted + {next}, n) {
      OneFewerMissing(deps, emitted, n, next);
    }
  }

  lemma PickedIsSmallest(
    all: set<Node>, emitted: set<Node>, remaining: map<Node, int>, deps: Deps, next: Node)
    requires Counted(remaining, all, deps, emitted)
    requires next in all && next !in emitted && remaining[next] == 0
    requires forall n | n in all && n !in emitted && remaining[n] == 0 :: !Before(n, next)
    ensures Ready(deps, emitted, next)
    ensures forall n | n in all && Ready(deps, emitted, n) :: !Before(n, next)
  {
    hide Before, DepSet, Missing;
    NothingMissing(deps, emitted, next);
    forall n | n in all && Ready(deps, emitted, n) ensures !Before(n, next) {
      NothingMissing(deps, emitted, n);
    }
  }

  lemma EmitOne(order: seq<Node>, emitted: set<Node>, all: set<Node>, deps: Deps, next: Node)
    requires Emits(order, emitted, all, deps) && Ready(deps, emitted, next)
    requires forall n | n in all && Ready(deps, emitted, n) :: !Before(n, next)
    ensures Emits(order + [next], emitted + {next}, all, deps)
  {
    hide Before;
    var more := order + [next];
    forall i | 0 <= i <= |order| ensures more[..i] == order[..i] {}
    assert order[..|order|] == order;
    assert next !in order by { assert next !in Elements(order); }
    forall i, d | 0 <= i < |more| && DependsOn(deps, more[i], d) ensures d in more[..i] {
      if i == |order| {
        assert d in DepSet(deps, next);
        assert d in Elements(order);
      }
    }
    assert Elements(more) == Elements(order) + {next};
    hide DepSet, DependsOn;
  }

  lemma MissingIsWaiting(all: set<Node>, emitted: set<Node>, deps: Deps, n: Node)
    requires Missing(deps, emitted, n) != 0 && DepSet(deps, n) <= all
    ensures Waits(n, all - emitted, deps)
  {
    var missing := DepSet(deps, n) - emitted;
    assert missing != {};
    var d :| d in missing;
    assert d in all - emitted && DependsOn(deps, n, d);
  }

  lemma StuckIsDeadlocked(all: set<Node>, emitted: set<Node>, remaining: map<Node, int>, deps: Deps)
    requires emitted <= all && |emitted| < |all| && Closed(all, deps) && Counted(remaining, all, deps, emitted)
    requires forall n | n in all && n !in emitted :: remaining[n] != 0
    ensures Deadlocked(all - emitted, deps)
  {
    hide Missing, DepSet, Waits;
    assert all * emitted == emitted;
    assert |all - emitted| > 0;
    forall n | n in all - emitted ensures Waits(n, all - emitted, deps) {
      MissingIsWaiting(all, emitted, deps, n);
    }
  }

}
