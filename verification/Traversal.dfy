/** Walking the migration graph: the cycle check, the plans for one target, the
    roots and leaves, and the full plan. */
module Traversal {
  import opened Digraph
  import opened Keys
  import opened Wrappers
  import opened Graph
  import opened DepthFirst

  /** What has to come before what: parents first forwards, children first backwards. */
  ghost function StepsOf(e: set<(Key, Key)>, forwards: bool): Steps {
    if forwards then Flip(e) else e
  }

  ghost predicate Acyclic(g: Graph)
    reads g, g.nodeMap.Values
  {
    Within(g.Edges(), g.nodeMap.Keys) && !HasCycle(g.Edges())
  }

  lemma StepsAcyclic(e: set<(Key, Key)>, v: set<Key>, forwards: bool)
    requires Within(e, v) && !HasCycle(e)
    ensures Within(StepsOf(e, forwards), v) && !HasCycle(StepsOf(e, forwards))
  {
    FlipAcyclic(e, v);
  }

  ghost function PlanFor(e: set<(Key, Key)>, v: set<Key>, n: Key, forwards: bool): (r: seq<Key>)
    requires Within(e, v) && !HasCycle(e) && n in v
  {
    StepsAcyclic(e, v, forwards);
    FinishOrder(StepsOf(e, forwards), v, n)
  }

  /** The keys linked to k, parents or children. */
  method NextKeys(g: Graph, k: Key, forwards: bool, ghost e: set<(Key, Key)>) returns (ns: seq<Key>)
    requires g.Valid() && k in g.nodeMap && e == g.Edges()
    ensures ns == Sorted(Succ(StepsOf(e, forwards), k))
  {
    var n := g.nodeMap[k];
    var next := if forwards then n.parents else n.children;
    var keys := set m | m in next :: m.key;
    forall x
      ensures x in keys <==> x in Succ(StepsOf(g.Edges(), forwards), k)
    {
      FlipHas(g.Edges(), k, x);
      if x in keys {
        var m :| m in next && m.key == x;
        assert m in g.nodeMap.Values;
      }
      if x in Succ(StepsOf(g.Edges(), forwards), k) {
        assert g.nodeMap[x] in next && g.nodeMap[x].key == x;
      }
    }
    assert keys == Succ(StepsOf(g.Edges(), forwards), k);
    ns := SortKeys(keys);
  }

  /** Every node begun but not yet listed still has its processed mark on the
      stack, and everything above that mark ranks lower. */
  ghost predicate StackOk(rank: map<Key, nat>, stack: seq<Frame>, begun: set<Key>, visited: seq<Key>) {
    && (forall f :: f in stack ==> f.n in rank)
    && (forall k :: k in begun ==> k in visited || Frame(k, true) in stack)
    && (forall i, j :: 0 <= i < j < |stack| && stack[i].processed ==> Below(rank, stack[j].n, stack[i].n))
  }

  ghost predicate Below(rank: map<Key, nat>, a: Key, b: Key) {
    a in rank && b in rank && rank[a] < rank[b]
  }

  lemma PopOk(rank: map<Key, nat>, rest: seq<Frame>, f: Frame, begun: set<Key>, visited: seq<Key>)
    requires StackOk(rank, rest + [f], begun, visited)
    ensures f.n in visited ==> StackOk(rank, rest, begun, visited)
    ensures f.processed ==> StackOk(rank, rest, begun, visited + [f.n])
  {
    var s := rest + [f];
    forall i, j | 0 <= i < j < |rest| && rest[i].processed
      ensures Below(rank, rest[j].n, rest[i].n)
    {
      assert s[i] == rest[i] && s[j] == rest[j];
    }
    assert forall g :: g in rest ==> g in s;
  }

  lemma NotBegun(rank: map<Key, nat>, rest: seq<Frame>, n: Key, begun: set<Key>, visited: seq<Key>)
    requires StackOk(rank, rest + [Frame(n, false)], begun, visited) && n !in visited
    ensures n !in begun && n in rank
  {
    var s := rest + [Frame(n, false)];
    assert s[|rest|] == Frame(n, false);
    forall m | Frame(m, true) in s
      ensures Below(rank, n, m)
    {
      var i :| 0 <= i < |s| && s[i] == Frame(m, true);
      if i < |rest| {
        assert Below(rank, s[|rest|].n, s[i].n);
      }
    }
  }

  lemma PushOk(e: Steps, rank: map<Key, nat>, rest: seq<Frame>, n: Key, ns: seq<Key>, begun: set<Key>,
      visited: seq<Key>)
    requires Descends(e, rank) && forall x :: x in ns ==> (n, x) in e
    requires StackOk(rank, rest + [Frame(n, false)], begun, visited)
    ensures StackOk(rank, rest + [Frame(n, true)] + Pushed(ns), begun + {n}, visited)
  {
    var s, t := rest + [Frame(n, false)], rest + [Frame(n, true)] + Pushed(ns);
    assert s[|rest|] == Frame(n, false) && t[|rest|] == Frame(n, true);
    forall j | 0 <= j < |t|
      ensures t[j].n in rank && (j > |rest| ==> Below(rank, t[j].n, n))
    {
      if j < |rest| {
        assert t[j] == s[j];
      } else if j > |rest| {
        assert t[j].n == ns[j - |rest| - 1];
      }
    }
    forall i, j | 0 <= i < j < |t| && t[i].processed
      ensures Below(rank, t[j].n, t[i].n)
    {
      if i < |rest| {
        assert t[i] == s[i];
        assert Below(rank, s[|rest|].n, s[i].n);
        if j < |rest| {
          assert t[j] == s[j];
        }
      }
    }
    forall k | k in begun + {n}
      ensures k in visited || Frame(k, true) in t
    {
      if k in begun && k !in visited {
        var i :| 0 <= i < |s| && s[i] == Frame(k, true);
        assert t[i] == s[i];
      }
    }
  }

  /** What the loop of the traversal keeps. */
  ghost predicate OnTheWay(e: Steps, rank: map<Key, nat>, stack: seq<Frame>, begun: set<Key>, visited: seq<Key>,
      goal: seq<Key>) {
    && Descends(e, rank)
    && StackOk(rank, stack, begun, visited)
    && Finish(e, rank, stack, visited) == goal
  }

  lemma Popped(e: Steps, rank: map<Key, nat>, stack: seq<Frame>, begun: set<Key>, visited: seq<Key>, goal: seq<Key>)
    requires OnTheWay(e, rank, stack, begun, visited, goal) && stack != []
    ensures var f, rest := stack[|stack| - 1], stack[..|stack| - 1];
      && (f.n in visited ==> OnTheWay(e, rank, rest, begun, visited, goal))
      && (f.n !in visited && f.processed ==> OnTheWay(e, rank, rest, begun, visited + [f.n], goal))
  {
    var f, rest := stack[|stack| - 1], stack[..|stack| - 1];
    assert stack == rest + [f];
    PopOk(rank, rest, f, begun, visited);
    if f.n in visited || f.processed {
      FinishPop(e, rank, rest, f, visited);
    }
  }

  lemma Expanded(e: Steps, rank: map<Key, nat>, stack: seq<Frame>, begun: set<Key>, visited: seq<Key>, goal: seq<Key>)
    requires OnTheWay(e, rank, stack, begun, visited, goal) && stack != []
    requires !stack[|stack| - 1].processed && stack[|stack| - 1].n !in visited
    ensures var n, rest := stack[|stack| - 1].n, stack[..|stack| - 1];
      && n in rank && n !in begun
      && OnTheWay(e, rank, rest + [Frame(n, true)] + Pushed(Sorted(Succ(e, n))), begun + {n}, visited, goal)
  {
    var n, rest := stack[|stack| - 1].n, stack[..|stack| - 1];
    assert stack == rest + [Frame(n, false)];
    NotBegun(rank, rest, n, begun, visited);
    ExpandTop(e, rank, rest, n, visited);
    SortedLists(Succ(e, n));
    PushOk(e, rank, rest, n, Sorted(Succ(e, n)), begun, visited);
  }

  lemma AtFirst(e: Steps, rank: map<Key, nat>, n: Key)
    requires Descends(e, rank) && n in rank
    ensures OnTheWay(e, rank, [Frame(n, false)], {}, [], Visit(e, rank, n, []))
  {
    FinishTop(e, rank, [], n, []);
    assert [] + [Frame(n, false)] == [Frame(n, false)];
  }

  lemma AtLast(e: Steps, rank: map<Key, nat>, begun: set<Key>, visited: seq<Key>, goal: seq<Key>)
    requires OnTheWay(e, rank, [], begun, visited, goal)
    ensures visited == goal
  {}

  /** The iterative two-phase traversal finishes on every acyclic graph, with the
      order of the recursive one. */
  method IterativeDFS(g: Graph, start: Key, forwards: bool) returns (visited: seq<Key>)
    requires g.Valid() && Acyclic(g) && start in g.nodeMap
    ensures visited == PlanFor(g.Edges(), g.nodeMap.Keys, start, forwards)
  {
    hide Graph.Valid, OnTheWay;
    ghost var v := g.nodeMap.Keys;
    StepsAcyclic(g.Edges(), v, forwards);
    ghost var e := StepsOf(g.Edges(), forwards);
    ghost var rank := RankOf(e, v);
    ghost var begun: set<Key> := {};
    ghost var goal := FinishOrder(e, v, start);
    visited := [];
    var seen: set<Key> := {};
    var stack := [Frame(start, false)];
    AtFirst(e, rank, start);
    while |stack| > 0
      invariant forall k :: k in seen <==> k in visited
      invariant begun <= v && OnTheWay(e, rank, stack, begun, visited, goal)
      decreases v - begun, |stack|
    {
      var it, rest := stack[|stack| - 1], stack[..|stack| - 1];
      if it.n in seen {
        Popped(e, rank, stack, begun, visited, goal);
        stack := rest;
      } else if it.processed {
        Popped(e, rank, stack, begun, visited, goal);
        seen, visited := seen + {it.n}, visited + [it.n];
        stack := rest;
      } else {
        Expanded(e, rank, stack, begun, visited, goal);
        var ns := NextKeys(g, it.n, forwards, g.Edges());
        stack := rest + [Frame(it.n, true)] + Pushed(ns);
        begun := begun + {it.n};
      }
    }
    AtLast(e, rank, begun, visited, goal);
  }
  // --- The cycle check ---

  /** The stack is a path; what is neither on it nor still to do is finished, has
      only finished children, and is ranked above them. */
  ghost predicate Searching(e: set<(Key, Key)>, v: set<Key>, todo: set<Key>, stack: seq<Key>, rank: map<Key, nat>,
      count: nat) {
    && Within(e, v) && todo <= v && Distinct(stack)
    && (forall k :: k in stack ==> k in v && k !in todo)
    && (forall i :: 0 <= i < |stack| - 1 ==> (stack[i], stack[i + 1]) in e)
    && (forall k :: k in v ==> k in todo || k in stack || k in rank)
    && (forall k :: k in rank ==> k in v && k !in todo && k !in stack)
    && Finished(e, rank, count)
  }

  ghost predicate Finished(e: set<(Key, Key)>, rank: map<Key, nat>, count: nat) {
    && (forall k :: k in rank ==> rank[k] < count)
    && (forall a, b :: (a, b) in e && a in rank ==> b in rank && rank[b] < rank[a])
  }

  /** Looks at the children of the top of the stack in order: the first one that
      is on the stack closes a cycle, the first one still to do is entered. */
  method ScanChildren(children: seq<Key>, stack: seq<Key>, todo: set<Key>)
      returns (cycleAt: Option<nat>, next: Option<Key>)
    ensures cycleAt.Some? ==> cycleAt.value < |stack| && stack[cycleAt.value] in children
    ensures next.Some? ==> next.value in children && next.value in todo && next.value !in stack
    ensures cycleAt.None? && next.None? ==> forall c :: c in children ==> c !in stack && c !in todo
  {
    for j := 0 to |children|
      invariant forall c :: c in children[..j] ==> c !in stack && c !in todo
    {
      var child := children[j];
      for i := 0 to |stack|
        invariant child !in stack[..i]
      {
        if stack[i] == child {
          return Some(i), None;
        }
      }
      assert stack[..|stack|] == stack;
      if child in todo {
        return None, Some(child);
      }
      assert children[..j + 1] == children[..j] + [child];
    }
    assert children[..|children|] == children;
    return None, None;
  }

  lemma ClosesCycle(e: set<(Key, Key)>, v: set<Key>, todo: set<Key>, stack: seq<Key>, rank: map<Key, nat>, count: nat,
      i: nat)
    requires Searching(e, v, todo, stack, rank, count) && i < |stack| && (stack[|stack| - 1], stack[i]) in e
    ensures IsCycle(e, stack[i..])
  {
    var c := stack[i..];
    forall j | 0 <= j < |c| - 1
      ensures (c[j], c[j + 1]) in e
    {
      assert c[j] == stack[i + j] && c[j + 1] == stack[i + j + 1];
    }
  }

  lemma Entered(e: set<(Key, Key)>, v: set<Key>, todo: set<Key>, stack: seq<Key>, rank: map<Key, nat>, count: nat,
      child: Key)
    requires Searching(e, v, todo, stack, rank, count) && child in todo
    requires stack == [] || (stack[|stack| - 1], child) in e
    ensures Searching(e, v, todo - {child}, stack + [child], rank, count)
  {
    var s := stack + [child];
    forall i | 0 <= i < |s| - 1
      ensures (s[i], s[i + 1]) in e
    {
      assert s[i] == stack[i] && s[i + 1] == if i + 1 < |stack| then stack[i + 1] else child;
    }
    assert forall k :: k in s <==> k in stack || k == child;
  }

  lemma FinishedMore(e: set<(Key, Key)>, rank: map<Key, nat>, count: nat, top: Key)
    requires Finished(e, rank, count) && top !in rank && forall c :: (top, c) in e ==> c in rank
    ensures Finished(e, rank[top := count], count + 1)
  {
    var r := rank[top := count];
    forall a, b | (a, b) in e && a in r
      ensures b in r && r[b] < r[a]
    {
      if a != top {
        assert a in rank;
      }
    }
  }

  lemma Left(e: set<(Key, Key)>, v: set<Key>, todo: set<Key>, stack: seq<Key>, rank: map<Key, nat>, count: nat)
    requires Searching(e, v, todo, stack, rank, count) && stack != []
    requires forall c :: (stack[|stack| - 1], c) in e ==> c !in stack && c !in todo
    ensures Searching(e, v, todo, stack[..|stack| - 1], rank[stack[|stack| - 1] := count], count + 1)
  {
    var top, rest := stack[|stack| - 1], stack[..|stack| - 1];
    assert stack == rest + [top];
    assert top in stack && top !in rest;
    forall c | (top, c) in e
      ensures c in rank
    {
      assert (top, c).1 in v;
    }
    FinishedMore(e, rank, count, top);
  }

  lemma DescendingMeansAcyclic(e: set<(Key, Key)>, rank: map<Key, nat>)
    requires Descends(e, rank)
    ensures !HasCycle(e)
  {
    forall d | d in Flip(e)
      ensures d.0 in rank && d.1 in rank && rank[d.0] < rank[d.1]
    {
      FlipHas(e, d.0, d.1);
      assert d == (d.0, d.1);
    }
    forall c: seq<Key> {
      FlippedIsNoCycle(Flip(e), rank, c);
    }
    FlipFlip(e);
  }

  /** Fails exactly when the graph has a cycle, and reports one. */
  method EnsureNotCyclic(g: Graph) returns (err: Option<GraphError>)
    requires g.Valid()
    ensures err.Some? <==> HasCycle(g.Edges())
    ensures err.Some? ==> err.value.CircularDependency? && IsCycle(g.Edges(), err.value.cycle)
    ensures err.None? ==> Acyclic(g)
  {
    ghost var e, v := g.Edges(), g.nodeMap.Keys;
    g.EdgesWithin();
    var starts := ListKeys(g.nodes.Keys);
    ghost var todo, rank, count;
    err, todo, rank, count := SearchAll(g, starts, e, v);
    if err.None? {
      AllFinished(e, v, starts, todo, rank, count);
    }
  }

  method SearchAll(g: Graph, starts: seq<Key>, ghost e: set<(Key, Key)>, ghost v: set<Key>)
    returns (err: Option<GraphError>, ghost left: set<Key>, ghost rank: map<Key, nat>, ghost count: nat)
    requires g.Valid() && e == g.Edges() && v == g.nodeMap.Keys && Within(e, v)
    ensures err.Some? ==> err.value.CircularDependency? && IsCycle(e, err.value.cycle) && HasCycle(e)
    ensures err.None? ==> Searching(e, v, left, [], rank, count) && forall j :: 0 <= j < |starts| ==> starts[j] !in left
  {
    hide Searching;
    var todo := g.nodes.Keys;
    rank, count, left, err := map[], 0, todo, None;
    AtStart(e, v);
    for i := 0 to |starts|
      invariant err.None? && Searching(e, v, todo, [], rank, count)
      invariant forall j :: 0 <= j < i ==> starts[j] !in todo
    {
      err, todo, rank, count := SearchFrom(g, starts[i], todo, rank, count, e, v);
      if err.Some? {
        return;
      }
    }
    left := todo;
  }

  lemma AtStart(e: set<(Key, Key)>, v: set<Key>)
    requires Within(e, v)
    ensures Searching(e, v, v, [], map[], 0)
  {}

  lemma AllFinished(e: set<(Key, Key)>, v: set<Key>, starts: seq<Key>, todo: set<Key>, rank: map<Key, nat>, count: nat)
    requires Searching(e, v, todo, [], rank, count)
    requires Lists(starts, v) && forall j :: 0 <= j < |starts| ==> starts[j] !in todo
    ensures !HasCycle(e)
  {
    forall k | k in v
      ensures k in rank
    {
      assert k in starts;
    }
    forall a, b | (a, b) in e
      ensures a in rank && b in rank && rank[b] < rank[a]
    {
      assert (a, b).0 in v;
    }
    DescendingMeansAcyclic(e, rank);
  }

  /** The search from one start node, unless an earlier one has been there. */
  method SearchFrom(g: Graph, start: Key, todo0: set<Key>, ghost rank0: map<Key, nat>, ghost count0: nat,
                    ghost e: set<(Key, Key)>, ghost v: set<Key>)
    returns (err: Option<GraphError>, todo: set<Key>, ghost rank: map<Key, nat>, ghost count: nat)
    requires g.Valid() && e == g.Edges() && v == g.nodeMap.Keys
    requires Searching(e, v, todo0, [], rank0, count0)
    ensures err.Some? ==> err.value.CircularDependency? && IsCycle(e, err.value.cycle) && HasCycle(e)
    ensures err.None? ==> todo <= todo0 - {start} && Searching(e, v, todo, [], rank, count)
  {
    hide Graph.Valid;
    todo, rank, count := todo0, rank0, count0;
    if start !in todo {
      return None, todo, rank, count;
    }
    Entered(e, v, todo, [], rank, count, start);
    assert [] + [start] == [start];
    todo := todo - {start};
    var stack := [start];
    while |stack| > 0
      invariant todo <= todo0 - {start} && Searching(e, v, todo, stack, rank, count)
      decreases todo, |stack|
    {
      var top := stack[|stack| - 1];
      var children := NextKeys(g, top, false, e);
      SortedLists(Succ(e, top));
      var cycleAt, next := ScanChildren(children, stack, todo);
      if cycleAt.Some? {
        ClosesCycle(e, v, todo, stack, rank, count, cycleAt.value);
        return Some(CircularDependency(stack[cycleAt.value..])), todo, rank, count;
      }
      if next.Some? {
        Entered(e, v, todo, stack, rank, count, next.value);
        stack, todo := stack + [next.value], todo - {next.value};
      } else {
        Left(e, v, todo, stack, rank, count);
        rank, count := rank[top := count], count + 1;
        stack := stack[..|stack| - 1];
      }
    }
    err := None;
    assert stack == [];
  }
  // --- Roots, leaves and the plan for several targets ---

  /** The nodes without a neighbour of their own app in the given direction. */
  ghost function Ends(e: Steps, v: set<Key>): set<Key> {
    set k | k in v && forall n :: n in Succ(e, k) ==> n.app != k.app
  }

  ghost function EndsOf(e: Steps, v: set<Key>, app: string): set<Key> {
    set k | k in Ends(e, v) && (app == "" || k.app == app)
  }

  /** The nodes with no dependencies inside their app (all apps when app is ""). */
  method RootNodes(g: Graph, app: string, ghost e: set<(Key, Key)>) returns (roots: seq<Key>)
    requires g.Valid() && e == g.Edges()
    ensures roots == Sorted(EndsOf(Flip(e), g.nodeMap.Keys, app))
  {
    roots := EndNodes(g, app, true, e);
  }

  /** The nodes with no dependents inside their app. */
  method LeafNodes(g: Graph, app: string, ghost e: set<(Key, Key)>) returns (leaves: seq<Key>)
    requires g.Valid() && e == g.Edges()
    ensures leaves == Sorted(EndsOf(e, g.nodeMap.Keys, app))
  {
    leaves := EndNodes(g, app, false, e);
  }

  method EndNodes(g: Graph, app: string, forwards: bool, ghost e: set<(Key, Key)>) returns (ends: seq<Key>)
    requires g.Valid() && e == g.Edges()
    ensures ends == Sorted(EndsOf(StepsOf(e, forwards), g.nodeMap.Keys, app))
  {
    ghost var v, s := g.nodeMap.Keys, StepsOf(e, forwards);
    var todo := g.nodes.Keys;
    var found: set<Key> := {};
    while todo != {}
      invariant todo <= v
      invariant forall k :: k in found <==> k in EndsOf(s, v, app) && k !in todo
      decreases todo
    {
      var k :| k in todo;
      todo := todo - {k};
      if app == "" || app == k.app {
        var isEnd := IsEnd(g, k, forwards, e);
        if isEnd {
          found := found + {k};
        }
      }
    }
    assert found == EndsOf(s, v, app);
    ends := SortKeys(found);
  }

  method IsEnd(g: Graph, k: Key, forwards: bool, ghost e: set<(Key, Key)>) returns (isEnd: bool)
    requires g.Valid() && k in g.nodeMap && e == g.Edges()
    ensures isEnd <==> forall n :: n in Succ(StepsOf(e, forwards), k) ==> n.app != k.app
  {
    var ns := NextKeys(g, k, forwards, e);
    SortedLists(Succ(StepsOf(e, forwards), k));
    for i := 0 to |ns|
      invariant forall j :: 0 <= j < i ==> ns[j].app != k.app
    {
      if ns[i].app == k.app {
        assert ns[i] in ns;
        return false;
      }
    }
    return true;
  }

  /** The keys of ks that are neither planned nor skipped, appended to the plan. */
  ghost function AddNew(plan: seq<Key>, ks: seq<Key>, skip: set<Key>): seq<Key>
    decreases |ks|
  {
    if ks == [] then plan
    else
      var rest, k := ks[..|ks| - 1], ks[|ks| - 1];
      var p := AddNew(plan, rest, skip);
      if k in p || k in skip then p else p + [k]
  }

  ghost function PlanForAll(e: set<(Key, Key)>, v: set<Key>, nodes: seq<Key>, skip: set<Key>): seq<Key>
    requires Within(e, v) && !HasCycle(e) && forall n :: n in nodes ==> n in v
    decreases |nodes|
  {
    if nodes == [] then []
    else
      AddNew(PlanForAll(e, v, nodes[..|nodes| - 1], skip), PlanFor(e, v, nodes[|nodes| - 1], true), skip)
  }

  /** The migrations needed to reach nodes, without the targets unless atEnd. */
  method GeneratePlan(g: Graph, nodes: seq<Key>, atEnd: bool) returns (r: Result<seq<Key>, GraphError>)
    requires g.Valid() && Acyclic(g)
    ensures r.Err? <==> exists n :: n in nodes && n !in g.nodeMap
    ensures r.Ok? ==> r.value == PlanForAll(g.Edges(), g.nodeMap.Keys, nodes, if atEnd then {} else Elements(nodes))
    ensures r.Ok? ==> IsPlan(Flip(g.Edges()), nodes, if atEnd then {} else Elements(nodes), r.value)
  {
    hide Graph.Valid, HasCycle, Within, PlanFor, AddNew, IsPlan;
    g.KeysAgree();
    ghost var e, v := g.Edges(), g.nodeMap.Keys;
    var plan: seq<Key> := [];
    var isTarget := Elements(nodes);
    ghost var skip := if atEnd then {} else isTarget;
    for i := 0 to |nodes|
      invariant forall n :: n in nodes[..i] ==> n in v
      invariant plan == PlanForAll(e, v, nodes[..i], skip)
    {
      if !g.Has(nodes[i]) {
        return Err(NodeNotFound(nodes[i], ""));
      }
      var fp := IterativeDFS(g, nodes[i], true);
      assert nodes[..i + 1][..i] == nodes[..i] && nodes[..i + 1][i] == nodes[i];
      plan := AppendNew(plan, fp, isTarget, atEnd);
    }
    assert nodes[..|nodes|] == nodes;
    PlanForAllIs(e, v, nodes, skip);
    return Ok(plan);
  }

  method AppendNew(plan0: seq<Key>, fp: seq<Key>, isTarget: set<Key>, atEnd: bool) returns (plan: seq<Key>)
    ensures plan == AddNew(plan0, fp, if atEnd then {} else isTarget)
  {
    plan := plan0;
    for i := 0 to |fp|
      invariant plan == AddNew(plan0, fp[..i], if atEnd then {} else isTarget)
    {
      assert fp[..i + 1][..i] == fp[..i];
      if fp[i] !in plan && (atEnd || fp[i] !in isTarget) {
        plan := plan + [fp[i]];
      }
    }
    assert fp[..|fp|] == fp;
  }

  /** No repeats, and everything a node of the list reaches, but what is skipped, stands
      before it. */
  ghost predicate AfterAll(e: Steps, skip: set<Key>, out: seq<Key>) {
    && Distinct(out)
    && forall i, b :: 0 <= i < |out| && b !in skip && b != out[i] && Reaches(e, out[i], b) ==> b in out[..i]
  }

  /** The list holds exactly what the nodes reach, but what is skipped, each after all it
      reaches itself. */
  ghost predicate IsPlan(e: Steps, nodes: seq<Key>, skip: set<Key>, plan: seq<Key>) {
    && AfterAll(e, skip, plan)
    && forall k :: k in plan <==> k !in skip && exists n :: n in nodes && Reaches(e, n, k)
  }

  lemma {:induction false} GoodReaches(e: Steps, out: seq<Key>, i: nat, b: Key)
    requires GoodOrder(e, out) && i < |out| && b != out[i] && Reaches(e, out[i], b)
    ensures b in out[..i]
    decreases i
  {
    hide Reaches;
    var c := ReachesFirstStep(e, out[i], b);
    if c != b {
      var j :| 0 <= j < i && out[j] == c;
      GoodReaches(e, out, j, b);
      assert out[..j] <= out[..i];
    }
  }

  lemma AfterAllMore(e: Steps, skip: set<Key>, plan: seq<Key>, k: Key)
    requires AfterAll(e, skip, plan) && k !in plan
    requires forall b :: b !in skip && b != k && Reaches(e, k, b) ==> b in plan
    ensures AfterAll(e, skip, plan + [k])
  {
    hide Reaches;
    var more := plan + [k];
    forall i, b | 0 <= i < |more| && b !in skip && b != more[i] && Reaches(e, more[i], b)
      ensures b in more[..i]
    {
      assert more[..i] == if i < |plan| then plan[..i] else plan;
    }
  }

  lemma {:induction false} AddNewAfter(e: Steps, plan: seq<Key>, ks: seq<Key>, skip: set<Key>)
    requires AfterAll(e, skip, plan) && AfterAll(e, skip, ks)
    ensures AfterAll(e, skip, AddNew(plan, ks, skip))
    ensures forall k :: k in AddNew(plan, ks, skip) <==> k in plan || (k in ks && k !in skip)
    decreases |ks|
  {
    if ks != [] {
      hide Reaches;
      var rest, k := ks[..|ks| - 1], ks[|ks| - 1];
      assert ks == rest + [k];
      forall i, b | 0 <= i < |rest| && b !in skip && b != rest[i] && Reaches(e, rest[i], b)
        ensures b in rest[..i]
      {
        assert rest[..i] == ks[..i] && ks[i] == rest[i];
      }
      AddNewAfter(e, plan, rest, skip);
      var p := AddNew(plan, rest, skip);
      if k !in p && k !in skip {
        forall b | b !in skip && b != k && Reaches(e, k, b)
          ensures b in p
        {
          assert Reaches(e, ks[|rest|], b) && b in ks[..|rest|];
        }
        AfterAllMore(e, skip, p, k);
      }
    }
  }

  /** The plan for several targets, whatever is skipped. */
  lemma {:induction false} PlanForAllIs(e: set<(Key, Key)>, v: set<Key>, nodes: seq<Key>, skip: set<Key>)
    requires Within(e, v) && !HasCycle(e) && forall n :: n in nodes ==> n in v
    ensures IsPlan(Flip(e), nodes, skip, PlanForAll(e, v, nodes, skip))
    decreases |nodes|
  {
    if nodes != [] {
      hide Reaches, AddNew;
      var rest, n := nodes[..|nodes| - 1], nodes[|nodes| - 1];
      PlanForAllIs(e, v, rest, skip);
      StepsAcyclic(e, v, true);
      FinishOrderCorrect(Flip(e), v, n);
      var ks := PlanFor(e, v, n, true);
      forall i, b | 0 <= i < |ks| && b !in skip && b != ks[i] && Reaches(Flip(e), ks[i], b)
        ensures b in ks[..i]
      {
        GoodReaches(Flip(e), ks, i, b);
      }
      AddNewAfter(Flip(e), PlanForAll(e, v, rest, skip), ks, skip);
      assert forall m :: m in nodes <==> m in rest || m == n by {
        assert nodes == rest + [n];
      }
    }
  }

  /** The plan for several targets lists exactly what they depend on, once each
      and in dependency order. */
  lemma PlanForAllCorrect(e: set<(Key, Key)>, v: set<Key>, nodes: seq<Key>)
    requires Within(e, v) && !HasCycle(e) && forall n :: n in nodes ==> n in v
    ensures var p := PlanForAll(e, v, nodes, {});
      && GoodOrder(Flip(e), p)
      && forall k :: k in p <==> exists n :: n in nodes && Reaches(Flip(e), n, k)
  {
    PlanForAllIs(e, v, nodes, {});
    StepsAcyclic(e, v, true);
    AfterAllIsGood(Flip(e), PlanForAll(e, v, nodes, {}));
    hide Reaches, AfterAll, GoodOrder;
  }

  lemma AfterAllIsGood(e: Steps, p: seq<Key>)
    requires AfterAll(e, {}, p) && !HasCycle(e)
    ensures GoodOrder(e, p)
  {
    hide Reaches;
    forall i, b | 0 <= i < |p| && (p[i], b) in e
      ensures b in p[..i]
    {
      ReachesEdge(e, p[i], b);
      assert b != p[i] by {
        assert b == p[i] ==> IsCycle(e, [b]);
      }
      StandsBefore(e, {}, p, i, b);
    }
  }

  lemma StandsBefore(e: Steps, skip: set<Key>, out: seq<Key>, i: nat, b: Key)
    requires AfterAll(e, skip, out) && i < |out| && b !in skip && b != out[i] && Reaches(e, out[i], b)
    ensures b in out[..i]
  {}
}
