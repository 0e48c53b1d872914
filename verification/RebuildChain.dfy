/** Which packages must be rebuilt after one of them changed, and in which order. */
module RebuildChain {
  import opened Collections
  import opened Sorting
  import opened DependencyGraphs

  // ---------------------------------------------------------------------- the graph

  /** Forward edges lead to dependencies, reverse edges to dependents. */
  datatype Graph = Graph(nodes: seq<Node>, forward: Deps, reverse: Deps)

  ghost predicate WellFormed(g: Graph) {
    && (forall n, d :: DependsOn(g.forward, n, d) <==> DependsOn(g.reverse, d, n))
    && (forall n :: !DependsOn(g.forward, n, n))
    && (forall n | n in g.forward :: n in g.nodes)
    && (forall n | n in g.reverse :: n in g.nodes)
  }

  function Dependents(g: Graph, n: Node): seq<Node> {
    if n in g.reverse then g.reverse[n] else []
  }

  /** Edge sets while the graph is being built: `done` names the packages entered so far. */
  ghost predicate Building(
    forward: map<Node, set<Node>>, reverse: map<Node, set<Node>>, all: set<Node>, deps: Deps, done: set<Node>)
  {
    && forward.Keys == all && reverse.Keys == all
    && (forall n, d | n in all :: d in forward[n] <==> n in done && n != d && DependsOn(deps, n, d))
    && (forall n, d | d in all :: n in reverse[d] <==> n in done && n != d && DependsOn(deps, n, d))
  }

  /** The edges from `n` to `targets` have been added to the reverse sets. */
  ghost predicate ReverseEntered(
    before: map<Node, set<Node>>, after: map<Node, set<Node>>, n: Node, targets: set<Node>)
  {
    && after.Keys == before.Keys
    && forall d | d in before :: after[d] == if d in targets then before[d] + {n} else before[d]
  }

  method EnterEdges(n: Node, list: seq<Node>, forward: map<Node, set<Node>>, reverse: map<Node, set<Node>>)
    returns (f: map<Node, set<Node>>, r: map<Node, set<Node>>)
    requires n in forward && forall d | d in list :: d in reverse
    ensures f == forward[n := forward[n] + (Elements(list) - {n})]
    ensures ReverseEntered(reverse, r, n, Elements(list) - {n})
  {
    f, r := forward, reverse;
    ghost var targets: set<Node> := {};
    assert forward[n] + targets == forward[n];
    assert forward[n := forward[n] + targets] == forward;
    var i := 0;
    while i < |list|
      invariant 0 <= i <= |list|
      invariant targets == Elements(list[..i]) - {n}
      invariant f == forward[n := forward[n] + targets]
      invariant ReverseEntered(reverse, r, n, targets)
    {
      var d := list[i];
      ElementsMore(list, i);
      hide Elements;
      assert d in list;
      if d != n {
        assert forward[n] + (targets + {d}) == f[n] + {d};
        f := f[n := f[n] + {d}];
        r := r[d := r[d] + {n}];
        targets := targets + {d};
      }
      i := i + 1;
    }
    assert list[..i] == list;
  }

  lemma BuildMore(
    forward: map<Node, set<Node>>, reverse: map<Node, set<Node>>, r: map<Node, set<Node>>,
    all: set<Node>, deps: Deps, done: set<Node>, n: Node)
    requires Building(forward, reverse, all, deps, done) && n in all && n in deps && n !in done
    requires ReverseEntered(reverse, r, n, Elements(deps[n]) - {n})
    ensures Building(forward[n := forward[n] + (Elements(deps[n]) - {n})], r, all, deps, done + {n})
  {
    assert forall d :: d in Elements(deps[n]) <==> DependsOn(deps, n, d);
    hide Elements, DependsOn;
    forall m, d | d in all ensures m in r[d] <==> m in done + {n} && m != d && DependsOn(deps, m, d) {
      assert m in reverse[d] <==> m in done && m != d && DependsOn(deps, m, d);
    }
  }

  /** The members of a set as a sorted list. */
  method SortedList(s: set<Node>) returns (list: seq<Node>)
    ensures Elements(list) == s
    ensures forall i, j | 0 <= i < j < |list| :: Before(list[i], list[j])
  {
    var names := SortKeys(set n | n in s :: n.name);
    list := seq(|names|, i requires 0 <= i < |names| => Node(names[i]));
    forall n: Node ensures n in Elements(list) <==> n in s {
      assert n in s <==> n.name in names;
      if n.name in names {
        var i :| 0 <= i < |names| && names[i] == n.name;
        assert list[i] == n;
      }
    }
  }

  method SortedLists(sets: map<Node, set<Node>>) returns (lists: Deps)
    ensures lists.Keys == sets.Keys
    ensures forall n, d :: DependsOn(lists, n, d) <==> n in sets && d in sets[n]
  {
    lists := map[];
    var rest := sets.Keys;
    while rest != {}
      invariant rest <= sets.Keys && lists.Keys == sets.Keys - rest
      invariant forall n | n in lists :: Elements(lists[n]) == sets[n]
      decreases |rest|
    {
      var n :| n in rest;
      var list := SortedList(sets[n]);
      lists := lists[n := list];
      rest := rest - {n};
    }
    forall n, d ensures DependsOn(lists, n, d) <==> n in sets && d in sets[n] {
      assert n in lists ==> (d in lists[n] <==> d in Elements(lists[n]));
    }
  }

  /** Both directions of the edges, without a package's edges to itself. */
  method NewGraph(pkgs: seq<Node>, deps: Deps) returns (g: Graph)
    ensures WellFormed(g) && Elements(g.nodes) == NodeSet(pkgs, deps)
    ensures forall n, d :: DependsOn(g.forward, n, d) <==> n != d && DependsOn(deps, n, d)
  {
    var all := NodeSet(pkgs, deps);
    var forward, reverse := BuildEdges(all, deps);
    var nodes := SortedList(all);
    var f := SortedLists(forward);
    var r := SortedLists(reverse);
    g := Graph(nodes, f, r);
    assert forall n | n in all :: n in Elements(nodes);
    forall n, d ensures DependsOn(f, n, d) <==> n != d && DependsOn(deps, n, d) {
      assert n in deps ==> n in all;
    }
    forall n, d ensures DependsOn(r, d, n) <==> n != d && DependsOn(deps, n, d) {
      assert DependsOn(deps, n, d) ==> d in all;
    }
    hide NodeSet, DependsOn;
  }

  method BuildEdges(all: set<Node>, deps: Deps)
    returns (forward: map<Node, set<Node>>, reverse: map<Node, set<Node>>)
    requires deps.Keys <= all && forall n, d | DependsOn(deps, n, d) :: d in all
    ensures Building(forward, reverse, all, deps, deps.Keys)
  {
    forward := map n | n in all :: {};
    reverse := map n | n in all :: {};
    var rest := deps.Keys;
    while rest != {}
      invariant rest <= deps.Keys && Building(forward, reverse, all, deps, deps.Keys - rest)
      decreases |rest|
    {
      var n :| n in rest;
      assert forall d | d in deps[n] :: DependsOn(deps, n, d);
      var f, r := EnterEdges(n, deps[n], forward, reverse);
      BuildMore(forward, reverse, r, all, deps, deps.Keys - rest, n);
      hide Building;
      assert deps.Keys - (rest - {n}) == deps.Keys - rest + {n};
      forward, reverse := f, r;
      rest := rest - {n};
    }
    assert deps.Keys - rest == deps.Keys;
  }

  // ------------------------------------------------------------ transitive dependents

  /** A chain of dependencies from its first node to its last. */
  ghost predicate Chain(g: Graph, path: seq<Node>) {
    |path| >= 2 && forall i | 0 <= i < |path| - 1 :: DependsOn(g.forward, path[i], path[i + 1])
  }

  /** `n` depends on `on`, directly or through others. */
  ghost predicate Requires(g: Graph, n: Node, on: Node) {
    exists path :: Chain(g, path) && path[0] == n && path[|path| - 1] == on
  }

  lemma RequiresDirectly(g: Graph, n: Node, on: Node)
    requires DependsOn(g.forward, n, on)
    ensures Requires(g, n, on)
  {
    assert Chain(g, [n, on]);
  }

  lemma RequiresThrough(g: Graph, n: Node, d: Node, on: Node)
    requires DependsOn(g.forward, n, d) && Requires(g, d, on)
    ensures Requires(g, n, on)
  {
    var path :| Chain(g, path) && path[0] == d && path[|path| - 1] == on;
    var longer := [n] + path;
    forall i | 0 <= i < |longer| - 1 ensures DependsOn(g.forward, longer[i], longer[i + 1]) {
      assert i > 0 ==> DependsOn(g.forward, path[i - 1], path[i]);
    }
    assert Chain(g, longer);
  }

  /** A set that holds every dependent of the changed package and of its own members. */
  ghost predicate Saturated(g: Graph, affected: set<Node>, bumped: Node) {
    forall n, d | DependsOn(g.forward, n, d) && (d == bumped || d in affected) :: n == bumped || n in affected
  }

  lemma {:induction false} SaturatedHoldsAll(g: Graph, affected: set<Node>, bumped: Node, path: seq<Node>)
    requires Saturated(g, affected, bumped) && Chain(g, path) && path[|path| - 1] == bumped
    ensures path[0] == bumped || path[0] in affected
    decreases |path|
  {
    assert DependsOn(g.forward, path[0], path[1]);
    if |path| > 2 {
      var rest := path[1..];
      forall i | 0 <= i < |rest| - 1 ensures DependsOn(g.forward, rest[i], rest[i + 1]) {
        assert DependsOn(g.forward, path[i + 1], path[i + 2]);
      }
      SaturatedHoldsAll(g, affected, bumped, rest);
    }
  }

  /** The packages that require `bumped`, without `bumped` itself. */
  ghost predicate IsAffected(g: Graph, affected: set<Node>, bumped: Node) {
    forall n :: n in affected <==> n != bumped && Requires(g, n, bumped)
  }

  lemma AffectedExactly(g: Graph, affected: set<Node>, bumped: Node)
    requires Saturated(g, affected, bumped) && Sound(g, affected, bumped)
    ensures IsAffected(g, affected, bumped)
  {
    forall n | n != bumped && Requires(g, n, bumped) ensures n in affected {
      var path :| Chain(g, path) && path[0] == n && path[|path| - 1] == bumped;
      SaturatedHoldsAll(g, affected, bumped, path);
    }
  }

  ghost predicate Sound(g: Graph, affected: set<Node>, bumped: Node) {
    forall n | n in affected :: n != bumped && Requires(g, n, bumped)
  }

  // ---------------------------------------------------------------------- the worklist

  /** Every dependent of `n` is known, unless it is the changed package. */
  ghost predicate Explored(g: Graph, affected: set<Node>, bumped: Node, n: Node) {
    forall d | d in Dependents(g, n) :: d == bumped || d in affected
  }

  ghost predicate Worklist(g: Graph, affected: set<Node>, queue: seq<Node>, bumped: Node) {
    && affected <= Elements(g.nodes)
    && Sound(g, affected, bumped)
    && Explored(g, affected, bumped, bumped)
    && (forall n | n in queue :: n in affected)
    && (forall n | n in affected && n !in queue :: Explored(g, affected, bumped, n))
  }

  lemma FinishedIsSaturated(g: Graph, affected: set<Node>, bumped: Node)
    requires WellFormed(g) && Worklist(g, affected, [], bumped)
    ensures Saturated(g, affected, bumped)
  {
    forall n, d | DependsOn(g.forward, n, d) && (d == bumped || d in affected) ensures n == bumped || n in affected {
      assert DependsOn(g.reverse, d, n);
      assert Explored(g, affected, bumped, d);
    }
  }

  method FindAffected(g: Graph, bumped: Node) returns (affected: set<Node>)
    requires WellFormed(g)
    ensures IsAffected(g, affected, bumped) && affected <= Elements(g.nodes)
  {
    var queue := Dependents(g, bumped);
    affected := Elements(queue);
    StartWorklist(g, bumped);
    while queue != []
      invariant Worklist(g, affected, queue, bumped)
      decreases Elements(g.nodes) - affected, |queue|
    {
      hide WellFormed;
      affected, queue := Explore(g, affected, queue, bumped);
    }
    FinishedIsSaturated(g, affected, bumped);
    AffectedExactly(g, affected, bumped);
  }

  lemma StartWorklist(g: Graph, bumped: Node)
    requires WellFormed(g)
    ensures Worklist(g, Elements(Dependents(g, bumped)), Dependents(g, bumped), bumped)
  {
    hide Requires;
    forall d | d in Dependents(g, bumped) ensures d in g.nodes && d != bumped && Requires(g, d, bumped) {
      assert DependsOn(g.reverse, bumped, d);
      assert DependsOn(g.forward, d, bumped);
      RequiresDirectly(g, d, bumped);
    }
  }

  /** Take one package off the queue and add its dependents that are not known yet. */
  method Explore(g: Graph, known: set<Node>, queue: seq<Node>, bumped: Node)
    returns (affected: set<Node>, rest: seq<Node>)
    requires WellFormed(g) && queue != [] && Worklist(g, known, queue, bumped)
    ensures Worklist(g, affected, rest, bumped)
    ensures known < affected || (known == affected && |rest| < |queue|)
  {
    hide WellFormed, Requires;
    var n := queue[0];
    var dependents := Dependents(g, n);
    affected, rest := known, queue[1..];
    assert forall m | m in queue :: m == n || m in rest;
    var i := 0;
    while i < |dependents|
      invariant 0 <= i <= |dependents|
      invariant known <= affected <= Elements(g.nodes) && Sound(g, affected, bumped)
      invariant known == affected ==> rest == queue[1..]
      invariant forall m | m in rest :: m in affected
      invariant forall m | m in affected && m !in rest && m != n :: m in known && m !in queue
      invariant forall d | d in dependents[..i] :: d == bumped || d in affected
    {
      var d := dependents[i];
      assert dependents[..i + 1] == dependents[..i] + [d];
      if d != bumped && d !in affected {
        DependentIsAffected(g, n, d, bumped);
        affected := affected + {d};
        rest := rest + [d];
      }
      i := i + 1;
    }
    assert dependents[..i] == dependents;
    forall m | m in affected && m !in rest ensures Explored(g, affected, bumped, m) {
      if m != n {
        assert Explored(g, known, bumped, m);
      }
    }
  }

  lemma DependentIsAffected(g: Graph, n: Node, d: Node, bumped: Node)
    requires WellFormed(g) && d in Dependents(g, n) && Requires(g, n, bumped)
    ensures Requires(g, d, bumped) && d in Elements(g.nodes)
  {
    assert DependsOn(g.reverse, n, d);
    assert DependsOn(g.forward, d, n);
    RequiresThrough(g, d, n, bumped);
    assert d in g.forward;
  }

  // ------------------------------------------------------------------------- the chain

  /** What the caller is promised about a chain of rebuilds. */
  ghost predicate IsRebuildChain(g: Graph, bumped: Node, chain: seq<Node>) {
    && Distinct(chain)
    && IsAffected(g, Elements(chain), bumped)
    && forall i, d | 0 <= i < |chain| && d in chain && DependsOn(g.forward, chain[i], d) :: d in chain[..i]
  }

  /** A graph whose packages can be put into an order. */
  ghost predicate Orderable(g: Graph) {
    forall waiting | waiting <= NodeSet(g.nodes, g.forward) :: !Deadlocked(waiting, g.forward)
  }

  method Rebuilds(g: Graph, bumped: Node) returns (chain: Option<seq<Node>>)
    requires WellFormed(g)
    ensures chain.Some? ==> IsRebuildChain(g, bumped, chain.value)
    ensures chain.None? <==> !Orderable(g) && exists n :: n != bumped && Requires(g, n, bumped)
  {
    var affected := FindAffected(g, bumped);
    if affected == {} {
      assert Elements([]) == affected;
      return Some([]);
    }
    var some :| some in affected;
    assert some != bumped && Requires(g, some, bumped);
    var order := TopoSort(g.nodes, g.forward);
    if order.None? {
      return None;
    }
    hide Requires, WellFormed, NodeSet;
    var out := Select(order.value, affected);
    SelectionIsOrdered(order.value, out, affected, g.forward);
    assert Elements(out) == affected by {
      NodesInOrder(g, order.value);
    }
    chain := Some(out);
  }

  lemma NodesInOrder(g: Graph, order: seq<Node>)
    requires Elements(order) == NodeSet(g.nodes, g.forward)
    ensures Elements(g.nodes) <= Elements(order)
  {
  }

  function Kept(order: seq<Node>, affected: set<Node>): seq<Node> {
    if order == [] then []
    else
      var front, last := Kept(order[..|order| - 1], affected), order[|order| - 1];
      if last in affected then front + [last] else front
  }

  method Select(order: seq<Node>, affected: set<Node>) returns (out: seq<Node>)
    ensures out == Kept(order, affected)
  {
    out := [];
    var i := 0;
    while i < |order|
      invariant 0 <= i <= |order|
      invariant out == Kept(order[..i], affected)
    {
      assert order[..i + 1][..i] == order[..i];
      if order[i] in affected {
        out := out + [order[i]];
      }
      i := i + 1;
    }
    assert order[..i] == order;
  }

  lemma {:induction false} SelectionIsOrdered(order: seq<Node>, out: seq<Node>, affected: set<Node>, deps: Deps)
    requires Distinct(order) && DependenciesFirst(order, deps) && out == Kept(order, affected)
    ensures Distinct(out)
    ensures forall n :: n in out <==> n in order && n in affected
    ensures forall i, d | 0 <= i < |out| && d in out && DependsOn(deps, out[i], d) :: d in out[..i]
    decreases |order|
  {
    if order != [] {
      var before, last := order[..|order| - 1], order[|order| - 1];
      var front := Kept(before, affected);
      forall i, d | 0 <= i < |before| && DependsOn(deps, before[i], d) ensures d in before[..i] {
        assert d in order[..i] && order[..i] == before[..i];
      }
      SelectionIsOrdered(before, front, affected, deps);
      assert order == before + [last];
      if last in affected {
        forall i, d | 0 <= i < |out| && d in out && DependsOn(deps, out[i], d) ensures d in out[..i] {
          SelectionStep(order, before, front, affected, deps, i, d);
          assert out[..i] == front[..i];
        }
      }
    }
  }

  lemma SelectionStep(
    order: seq<Node>, before: seq<Node>, front: seq<Node>, affected: set<Node>, deps: Deps, i: nat, d: Node)
    requires order != [] && before == order[..|order| - 1] && DependenciesFirst(order, deps)
    requires forall n :: n in front <==> n in before && n in affected
    requires forall j, e | 0 <= j < |front| && e in front && DependsOn(deps, front[j], e) :: e in front[..j]
    requires i <= |front| && d in affected
    requires DependsOn(deps, if i < |front| then front[i] else order[|order| - 1], d)
    ensures d in front[..i]
  {
    if i < |front| {
      assert front[i] in before;
      var j :| 0 <= j < |before| && before[j] == front[i];
      assert order[j] == before[j];
      assert d in order[..j] && order[..j] == before[..j];
      assert d in front;
    } else {
      assert d in order[..|order| - 1];
      assert front[..i] == front;
    }
  }
}
