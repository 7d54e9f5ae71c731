/** The migrations once each app's are chained: what is waited for can be reached
    through dependencies, and the new dependencies make no cycle. */
module Chaining {
  import opened Digraph
  import opened Keys
  import opened Names
  import opened Operations
  import opened GeneratedOps
  import opened Schedules

  /** (d, k) when the migration k depends on d. */
  ghost function Dependencies(m: Made): set<(Key, Key)> {
    set a, n, d | a in m && 0 <= n < |m[a]| && d in m[a][n].dependencies :: (d, Key(m[a][n].app, m[a][n].name))
  }

  /** d is among what the n-th migration of a depends on once chained. */
  ghost predicate DependsOn(m: Made, a: string, n: nat, d: Key)
    requires a in m && n < |m[a]|
  {
    d in m[a][n].dependencies || (n > 0 && d == Key(a, m[a][n - 1].name))
  }

  lemma ChainedDependencies(m: Made, a: string, n: nat, d: Key)
    requires a in m && n < |m[a]|
    ensures a in ChainedAll(m) && |ChainedAll(m)[a]| == |m[a]|
    ensures ChainedAll(m)[a][n].app == m[a][n].app && ChainedAll(m)[a][n].name == m[a][n].name
    ensures ChainedAll(m)[a][n].operations == m[a][n].operations
    ensures d in ChainedAll(m)[a][n].dependencies <==> DependsOn(m, a, n, d)
  {}

  lemma DependenciesHas(m: Made, d: Key, k: Key)
    requires Named(m)
    ensures (d, k) in Dependencies(ChainedAll(m)) <==>
      exists n: nat :: k.app in m && n < |m[k.app]| && k == NewKey(k.app, n) && DependsOn(m, k.app, n, d)
  {
    var c := ChainedAll(m);
    if (d, k) in Dependencies(c) {
      var a, n :| a in c && 0 <= n < |c[a]| && d in c[a][n].dependencies && k == Key(c[a][n].app, c[a][n].name);
      ChainedDependencies(m, a, n, d);
      assert NamedFor(a, m[a]);
    }
    if n: nat :| k.app in m && n < |m[k.app]| && k == NewKey(k.app, n) && DependsOn(m, k.app, n, d) {
      ChainedDependencies(m, k.app, n, d);
      assert NamedFor(k.app, m[k.app]);
    }
  }

  lemma {:induction false} ChainReaches(m: Made, a: string, i: nat, n: nat)
    requires Named(m) && a in m && i <= n < |m[a]|
    ensures Reaches(Dependencies(ChainedAll(m)), NewKey(a, i), NewKey(a, n))
    decreases n
  {
    var e := Dependencies(ChainedAll(m));
    if i == n {
      ReachesSelf(e, NewKey(a, n));
    } else {
      ChainReaches(m, a, i, n - 1);
      assert NamedFor(a, m[a]) && DependsOn(m, a, n, NewKey(a, n - 1));
      DependenciesHas(m, NewKey(a, n - 1), NewKey(a, n));
      ReachesEdge(e, NewKey(a, n - 1), NewKey(a, n));
      ReachesTrans(e, NewKey(a, i), NewKey(a, n - 1), NewKey(a, n));
    }
  }

  /** An operation and one of another app that it waits for: the first is in a
      migration from which the migration of the second can be reached through
      dependencies. */
  lemma WaitedForIsReached(q0: Queues, q: Queues, m: Made, leaves: Leaves, created: seq<Place>, order: seq<Place>,
      y: Place, k: nat, x: Place)
      returns (n: nat, i: nat)
    requires Sound(q0, q, m, leaves, created, order)
    requires IsPlace(q0, y) && y.index < Done(m, y.app) && k < |q0[y.app][y.index].deps|
    requires x.app != y.app && IsPlace(q0, x) && Meets(q0[y.app][y.index].deps[k], x, q0)
    ensures y.app in m && n < |m[y.app]| && Offset(m[y.app], n) <= y.index < Offset(m[y.app], n + 1)
    ensures x.app in m && i < |m[x.app]| && Offset(m[x.app], i) <= x.index < Offset(m[x.app], i + 1)
    ensures Reaches(Dependencies(ChainedAll(m)), NewKey(x.app, i), NewKey(y.app, n))
  {
    n := Holder(m[y.app], |m[y.app]|, y.index);
    var deps := m[y.app][n].dependencies;
    assert MigrationServed(q0, m, y.app, n);
    assert ServedAt(q0, m, y.app, n, y.index - Offset(m[y.app], n));
    assert DepServed(q0, m, q0[y.app][y.index].deps[k], deps);
    assert LeadsTo(m, deps, x.app, x.index);
    var last: nat :| last < |m[x.app]| && NewKey(x.app, last) in deps && x.index < Offset(m[x.app], last + 1);
    hide Sound, Served, DepServed;
    i := Holder(m[x.app], last + 1, x.index);
    var e := Dependencies(ChainedAll(m));
    NamedOf(q0, q, m, leaves, created, order);
    ChainReaches(m, x.app, i, last);
    assert DependsOn(m, y.app, n, NewKey(x.app, last));
    DependenciesHas(m, NewKey(x.app, last), NewKey(y.app, n));
    ReachesEdge(e, NewKey(x.app, last), NewKey(y.app, n));
    ReachesTrans(e, NewKey(x.app, i), NewKey(x.app, last), NewKey(y.app, n));
  }

  lemma NamedOf(q0: Queues, q: Queues, m: Made, leaves: Leaves, created: seq<Place>, order: seq<Place>)
    requires Sound(q0, q, m, leaves, created, order)
    ensures Named(m) && Dated(m, leaves, created)
  {}

  // --- The new dependencies make no cycle ---

  ghost function NewKeys(m: Made): set<Key> {
    set a, n: nat | a in m && n < |m[a]| :: NewKey(a, n)
  }

  /** The migration a dependency on an app's first migration stands for, when that
      is a new one. */
  function Resolved(m: Made, d: Key): Key {
    if d.name == FIRST && d.app in m then NewKey(d.app, 0) else d
  }

  ghost function ResolvedDependencies(m: Made): set<(Key, Key)> {
    set d | d in Dependencies(ChainedAll(m)) :: (Resolved(m, d.0), d.1)
  }

  ghost predicate NoFirstIn(m: Made, deps: seq<Key>) {
    forall d :: d in deps && d.app in m ==> d.name != FIRST
  }

  /** No migration depends on the first migration of an app that gets new ones. */
  ghost predicate NoFirstOfNew(m: Made) {
    forall a, n :: a in m && 0 <= n < |m[a]| ==> NoFirstIn(m, m[a][n].dependencies)
  }

  lemma NotFirstAt(m: Made, d: Key, a: string, n: nat)
    requires Named(m) && NoFirstOfNew(m) && a in m && n < |m[a]| && DependsOn(m, a, n, d)
    ensures Resolved(m, d) == d
  {
    assert NoFirstIn(m, m[a][n].dependencies);
    if d !in m[a][n].dependencies {
      assert NamedFor(a, m[a]);
      FirstIsNotNew(d.app, a, n - 1);
    }
  }

  lemma NotFirst(m: Made, d: Key, k: Key)
    requires Named(m) && NoFirstOfNew(m) && (d, k) in Dependencies(ChainedAll(m))
    ensures Resolved(m, d) == d
  {
    DependenciesHas(m, d, k);
    hide Dependencies, ChainedAll, NewKey, DependsOn, Named, NoFirstOfNew;
    var n: nat :| k.app in m && n < |m[k.app]| && DependsOn(m, k.app, n, d);
    NotFirstAt(m, d, k.app, n);
  }

  lemma NothingToResolve(m: Made)
    requires Named(m) && NoFirstOfNew(m)
    ensures ResolvedDependencies(m) == Dependencies(ChainedAll(m))
  {
    var e := Dependencies(ChainedAll(m));
    hide Dependencies, ChainedAll, Named, NoFirstOfNew, Resolved;
    forall d | d in e
      ensures (Resolved(m, d.0), d.1) == d
    {
      assert d == (d.0, d.1);
      NotFirst(m, d.0, d.1);
    }
    forall d
      ensures d in e <==> d in ResolvedDependencies(m)
    {
      if d in e {
        assert (Resolved(m, d.0), d.1) == d;
      }
    }
  }

  function KeysOf(created: seq<Place>): seq<Key> {
    seq(|created|, t requires 0 <= t < |created| => NewKey(created[t].app, created[t].index))
  }

  /** A dependency of the migration made at t on a new one is on one made before. */
  lemma DependsOnEarlier(m: Made, leaves: Leaves, v0: set<Key>, created: seq<Place>, t: nat, d: Key)
    requires Named(m) && Dated(m, leaves, created) && t < |created| && v0 !! NewKeys(m)
    requires forall a :: a in leaves ==> leaves[a] in v0
    requires (d, KeysOf(created)[t]) in Dependencies(ChainedAll(m)) && d in NewKeys(m)
    ensures d in KeysOf(created)[..t]
  {
    var p := created[t];
    assert DatedAt(m, leaves, created, t) && p == Place(p.app, p.index);
    DependenciesHas(m, d, NewKey(p.app, p.index));
    var n: nat :| n < |m[p.app]| && NewKey(p.app, p.index) == NewKey(p.app, n) && DependsOn(m, p.app, n, d);
    NewKeyInjective(p.app, p.index, p.app, n);
    assert NamedFor(p.app, m[p.app]);
    var i: nat :| d.app in m && i < |m[d.app]| && d == NewKey(d.app, i);
    FirstIsNotNew(d.app, d.app, i);
    var x: Place;
    if d in m[p.app][n].dependencies {
      assert Earlier(leaves, created[..t], d);
      assert !(d.app in leaves && d == leaves[d.app]);
      var j: nat :| Place(d.app, j) in created[..t] && d == NewKey(d.app, j);
      x := Place(d.app, j);
    } else {
      x := Place(p.app, n - 1);
    }
    var s :| 0 <= s < t && created[s] == x;
    assert KeysOf(created)[s] == d;
  }

  lemma NewAreCreated(m: Made, leaves: Leaves, created: seq<Place>, k: Key)
    requires Dated(m, leaves, created) && k in NewKeys(m)
    ensures k in KeysOf(created)
  {
    var n: nat :| k.app in m && n < |m[k.app]| && k == NewKey(k.app, n);
    assert Place(k.app, n) in created;
    var t :| 0 <= t < |created| && created[t] == Place(k.app, n);
    assert KeysOf(created)[t] == k;
  }

  lemma TargetIsNew(m: Made, d: (Key, Key))
    requires Named(m) && d in Dependencies(ChainedAll(m))
    ensures d.1 in NewKeys(m)
  {
    assert d == (d.0, d.1);
    DependenciesHas(m, d.0, d.1);
  }

  lemma CreatedInOrder(m: Made, leaves: Leaves, v0: set<Key>, created: seq<Place>)
    requires Named(m) && Dated(m, leaves, created) && v0 !! NewKeys(m)
    requires forall a :: a in leaves ==> leaves[a] in v0
    ensures InOrder(From(Dependencies(ChainedAll(m)), NewKeys(m)), KeysOf(created))
  {
    hide Dependencies, NewKeys, Dated, Named;
    var e, q := From(Dependencies(ChainedAll(m)), NewKeys(m)), KeysOf(created);
    forall t, d | 0 <= t < |q| && (d, q[t]) in e
      ensures d in q[..t]
    {
      DependsOnEarlier(m, leaves, v0, created, t, d);
    }
  }

  /** As long as a first migration that is waited for is not taken for the new one,
      the new migrations make no cycle with an acyclic graph. */
  lemma AllButFirstAcyclic(e0: set<(Key, Key)>, v0: set<Key>, m: Made, leaves: Leaves, created: seq<Place>)
    requires Within(e0, v0) && !HasCycle(e0) && Named(m) && Dated(m, leaves, created)
    requires v0 !! NewKeys(m) && forall a :: a in leaves ==> leaves[a] in v0
    ensures !HasCycle(e0 + Dependencies(ChainedAll(m)))
  {
    CreatedInOrder(m, leaves, v0, created);
    hide Dependencies, NewKeys, Dated, Named, ChainedAll, InOrder, HasCycle;
    var e, s, q := Dependencies(ChainedAll(m)), NewKeys(m), KeysOf(created);
    forall d | d in e
      ensures d.1 in s && d.1 in q
    {
      TargetIsNew(m, d);
      NewAreCreated(m, leaves, created, d.1);
    }
    InOrderHasNoCycle(From(e, s), q);
    AddedEdgesNoCycle(e0, e, s);
  }

  /** Added to an acyclic graph, the new migrations make no cycle, provided that
      none of them depends on the first migration of an app that gets new ones. */
  lemma NewDependenciesAcyclic(e0: set<(Key, Key)>, v0: set<Key>, m: Made, leaves: Leaves, created: seq<Place>)
    requires Within(e0, v0) && !HasCycle(e0) && Named(m) && Dated(m, leaves, created)
    requires v0 !! NewKeys(m) && (forall a :: a in leaves ==> leaves[a] in v0) && NoFirstOfNew(m)
    ensures !HasCycle(e0 + ResolvedDependencies(m))
  {
    NothingToResolve(m);
    AllButFirstAcyclic(e0, v0, m, leaves, created);
  }
}
