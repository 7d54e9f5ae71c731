/** Dependencies on an app's first migration: when they close a cycle, and why they
    do not when every operation waited for is generated. */
module Firsts {
  import opened Wrappers
  import opened Digraph
  import opened Keys
  import opened Names
  import opened Operations
  import opened GeneratedOps
  import opened Schedules
  import opened Chaining
  import opened Scheduler

  // --- What the queues and the graph have to provide ---

  /** An operation of app depends on something of an app that has operations but no
      leaf, and none of those operations provides it. */
  predicate Loose(q0: Queues, leaves: Leaves, app: string, d: OpDep) {
    d.app != app && d.app !in leaves && QueueOf(q0, d.app) != [] && !Pending(d, QueueOf(q0, d.app))
  }

  /** Nothing is loose, and no leaf has the name that stands for a first migration. */
  ghost predicate Tight(q0: Queues, leaves: Leaves) {
    && (forall a :: a in leaves ==> leaves[a].name != FIRST)
    && forall a, i: nat, j: nat :: a in q0 && i < |q0[a]| && j < |q0[a][i].deps| ==>
      !Loose(q0, leaves, a, q0[a][i].deps[j])
  }

  lemma TracedOf(q0: Queues, q: Queues, m: Made, leaves: Leaves, created: seq<Place>, order: seq<Place>, a: string,
      n: nat) returns (t: nat)
    requires Sound(q0, q, m, leaves, created, order) && a in m && n < |m[a]|
    ensures t < |created| && created[t] == Place(a, n)
    ensures DatedAt(m, leaves, created, t) && TracedAt(q0, m, leaves, created, t)
  {
    assert Place(a, n) in created;
    t :| 0 <= t < |created| && created[t] == Place(a, n);
  }

  lemma MadeHasQueue(q0: Queues, q: Queues, m: Made, b: string)
    requires Conserved(q0, q, m) && Named(m) && b in m
    ensures QueueOf(q0, b) != []
  {
    assert ConservedFor(q0[b], q[b], m[b]) && NamedFor(b, m[b]);
    OffsetGrows(m[b], 1, |m[b]|);
    assert Offset(m[b], 1) == Offset(m[b], 0) + |m[b][0].operations|;
  }

  /** A dependency on the first migration of an app that gets new ones is the doing of
      an operation that depends on something loose. */
  lemma FirstIsLoose(
      q0: Queues, q: Queues, m: Made, leaves: Leaves, created: seq<Place>, order: seq<Place>, a: string, n: nat,
        b: string) returns (i: nat, j: nat)
    requires Sound(q0, q, m, leaves, created, order) && a in m && n < |m[a]|
    requires Key(b, FIRST) in m[a][n].dependencies && b in m && b !in leaves
    ensures a in q0 && i < |q0[a]| && j < |q0[a][i].deps| && Loose(q0, leaves, a, q0[a][i].deps[j])
  {
    var t := TracedOf(q0, q, m, leaves, created, order, a, n);
    MadeHasQueue(q0, q, m, b);
    assert DependsInVain(q0, m, a, n, b);
    hide Sound, TracedAt, DatedAt;
    i, j :| InMigration(q0, m, a, n, i) && 0 <= j < |q0[a][i].deps| && q0[a][i].deps[j].app == b && b != a
      && !Pending(q0[a][i].deps[j], QueueOf(q0, b));
  }

  lemma FirstNotTight(q0: Queues, q: Queues, m: Made, leaves: Leaves, created: seq<Place>, order: seq<Place>, a: string,
      n: nat, b: string)
    requires Sound(q0, q, m, leaves, created, order) && Tight(q0, leaves) && a in m && n < |m[a]| && b in m
    ensures Key(b, FIRST) !in m[a][n].dependencies
  {
    if Key(b, FIRST) in m[a][n].dependencies {
      var t := TracedOf(q0, q, m, leaves, created, order, a, n);
      hide Sound, DatedAt;
      if b !in leaves {
        var i, j := FirstIsLoose(q0, q, m, leaves, created, order, a, n, b);
      }
    }
  }

  lemma TightHasNoFirst(q0: Queues, q: Queues, m: Made, leaves: Leaves, created: seq<Place>, order: seq<Place>)
    requires Sound(q0, q, m, leaves, created, order) && Tight(q0, leaves)
    ensures NoFirstOfNew(m)
  {
    hide Sound, Tight;
    forall a, n, d | a in m && 0 <= n < |m[a]| && d in m[a][n].dependencies && d.app in m
      ensures d.name != FIRST
    {
      FirstNotTight(q0, q, m, leaves, created, order, a, n, d.app);
      assert d == Key(d.app, d.name);
    }
  }

  /** When every operation waited for of an app without a leaf is generated, if the app
      has any, the new migrations make no cycle with an acyclic graph. */
  lemma TightMakesNoCycle(
      e0: set<(Key, Key)>, v0: set<Key>, q0: Queues, q: Queues, m: Made, leaves: Leaves, created: seq<Place>,
        order: seq<Place>)
    requires Sound(q0, q, m, leaves, created, order) && Tight(q0, leaves)
    requires Within(e0, v0) && !HasCycle(e0) && v0 !! NewKeys(m) && forall a :: a in leaves ==> leaves[a] in v0
    ensures !HasCycle(e0 + ResolvedDependencies(m))
  {
    TightHasNoFirst(q0, q, m, leaves, created, order);
    NamedOf(q0, q, m, leaves, created, order);
    hide Sound, Tight, NoFirstOfNew, Named, Dated, HasCycle, ResolvedDependencies, NewKeys;
    NewDependenciesAcyclic(e0, v0, m, leaves, created);
  }

  // --- Exactly when they make a cycle ---

  /** The migration k depends on the first migration of b, which is a new one. */
  ghost predicate WaitsForFirst(m: Made, k: Key, b: string) {
    b in m && (Key(b, FIRST), k) in Dependencies(ChainedAll(m))
  }

  /** The dependencies on other migrations than first ones of apps with new ones. */
  ghost function Plain(m: Made): set<(Key, Key)> {
    set d | d in Dependencies(ChainedAll(m)) && Resolved(m, d.0) == d.0
  }

  ghost function Targets(m: Made): set<Key> {
    set d | d in Dependencies(ChainedAll(m)) :: d.1
  }

  /** k' waits for the first migration of some app, which is built on k, by other
      dependencies than those on first migrations. */
  ghost predicate WaitsOnFirst(e0: set<(Key, Key)>, m: Made, k: Key, k': Key) {
    exists b :: WaitsForFirst(m, k', b) && Reaches(e0 + Plain(m), k, NewKey(b, 0))
  }

  /** The migrations that wait for first ones, and how they wait for each other. */
  ghost function FirstWaits(e0: set<(Key, Key)>, m: Made): set<(Key, Key)> {
    set k, k' | k in Targets(m) && k' in Targets(m) && HasFirst(m, k) && WaitsOnFirst(e0, m, k, k') :: (k, k')
  }

  ghost predicate HasFirst(m: Made, k: Key) {
    exists b :: WaitsForFirst(m, k, b)
  }

  /** The edges to first migrations that are new ones. */
  ghost function FirstEdges(m: Made): set<(Key, Key)> {
    set d | d in Dependencies(ChainedAll(m)) && Resolved(m, d.0) != d.0 :: (Resolved(m, d.0), d.1)
  }

  lemma PlainAndFirst(m: Made)
    ensures ResolvedDependencies(m) == Plain(m) + FirstEdges(m)
  {
    hide Dependencies, ChainedAll, Resolved;
    forall d: (Key, Key)
      ensures d in ResolvedDependencies(m) <==> d in Plain(m) + FirstEdges(m)
    {
      if d in Plain(m) {
        assert d == (Resolved(m, d.0), d.1);
      }
      if d in ResolvedDependencies(m) {
        var x :| x in Dependencies(ChainedAll(m)) && d == (Resolved(m, x.0), x.1);
        if Resolved(m, x.0) == x.0 {
          assert d == x;
        }
      }
    }
  }

  lemma FirstEdgeIs(m: Made, d: (Key, Key)) returns (b: string)
    requires d in FirstEdges(m)
    ensures d.0 == NewKey(b, 0) && WaitsForFirst(m, d.1, b) && d.1 in Targets(m)
  {
    var x :| x in Dependencies(ChainedAll(m)) && Resolved(m, x.0) != x.0 && d == (Resolved(m, x.0), x.1);
    hide Dependencies, ChainedAll;
    b := x.0.app;
    assert x.0 == Key(b, FIRST) && x == (x.0, x.1);
  }

  lemma FirstEdgeOf(m: Made, k: Key, b: string)
    requires WaitsForFirst(m, k, b)
    ensures (NewKey(b, 0), k) in FirstEdges(m) && k in Targets(m)
  {
    FirstIsNotNew(b, b, 0);
    var x := (Key(b, FIRST), k);
    assert x in Dependencies(ChainedAll(m));
    hide Dependencies, ChainedAll;
    assert Resolved(m, x.0) == NewKey(b, 0);
  }

  lemma FewerEdgesNoCycle<T(!new)>(e: set<(T, T)>, f: set<(T, T)>)
    requires e <= f && !HasCycle(f)
    ensures !HasCycle(e)
  {
    forall c: seq<T> | IsCycle(e, c)
      ensures IsCycle(f, c)
    {}
  }

  /** Without the dependencies on first migrations there is never a cycle. */
  lemma PlainAcyclic(e0: set<(Key, Key)>, v0: set<Key>, m: Made, leaves: Leaves, created: seq<Place>)
    requires Within(e0, v0) && !HasCycle(e0) && Named(m) && Dated(m, leaves, created)
    requires v0 !! NewKeys(m) && forall a :: a in leaves ==> leaves[a] in v0
    ensures !HasCycle(e0 + Plain(m))
  {
    AllButFirstAcyclic(e0, v0, m, leaves, created);
    hide HasCycle, Dependencies, ChainedAll, Resolved;
    FewerEdgesNoCycle(e0 + Plain(m), e0 + Dependencies(ChainedAll(m)));
  }

  /** Waiting on first migrations in a circle is a cycle. */
  lemma WaitingIsCycle(e0: set<(Key, Key)>, m: Made)
    requires HasCycle(FirstWaits(e0, m))
    ensures HasCycle(e0 + ResolvedDependencies(m))
  {
    var e := e0 + ResolvedDependencies(m);
    PlainAndFirst(m);
    hide HasCycle, ResolvedDependencies, Plain, FirstEdges;
    if !HasCycle(e) {
      var rank := AcyclicCanBeRanked(e, EndPoints(e));
      forall d | d in FirstWaits(e0, m)
        ensures d.0 in rank && d.1 in rank && rank[d.0] < rank[d.1]
      {
        WaitRises(e0, m, d, rank);
      }
      RankedHasNoCycle(FirstWaits(e0, m), rank);
    }
  }

  lemma WaitRises(e0: set<(Key, Key)>, m: Made, d: (Key, Key), rank: map<Key, nat>)
    requires d in FirstWaits(e0, m) && Ranked(e0 + ResolvedDependencies(m), rank)
    ensures d.0 in rank && d.1 in rank && rank[d.0] < rank[d.1]
  {
    PlainAndFirst(m);
    assert d == (d.0, d.1) && d.0 in Targets(m) && WaitsOnFirst(e0, m, d.0, d.1);
    TargetRanked(e0, m, d.0, rank);
    var b :| WaitsForFirst(m, d.1, b) && Reaches(e0 + Plain(m), d.0, NewKey(b, 0));
    FirstEdgeOf(m, d.1, b);
    hide ResolvedDependencies, Plain, FirstEdges, Targets, WaitsForFirst, WaitsOnFirst, FirstWaits;
    assert (NewKey(b, 0), d.1) in e0 + ResolvedDependencies(m);
    RankAlong(e0 + Plain(m), rank, d.0, NewKey(b, 0));
  }

  lemma TargetRanked(e0: set<(Key, Key)>, m: Made, k: Key, rank: map<Key, nat>)
    requires k in Targets(m) && Ranked(e0 + ResolvedDependencies(m), rank)
    ensures k in rank
  {
    hide Dependencies, ChainedAll, Resolved;
    var d :| d in Dependencies(ChainedAll(m)) && k == d.1;
    assert (Resolved(m, d.0), d.1) in ResolvedDependencies(m);
  }

  function RankOf(rank: map<Key, nat>, k: Key): nat {
    if k in rank then rank[k] else 0
  }

  /** One more than the highest rank of the keys. */
  ghost function Top(ks: set<Key>, rank: map<Key, nat>): nat {
    if ks == {} then 0
    else
      var k :| k in ks;
      var rest := Top(ks - {k}, rank);
      if RankOf(rank, k) + 1 > rest then RankOf(rank, k) + 1 else rest
  }

  lemma {:induction false} TopIs(ks: set<Key>, rank: map<Key, nat>)
    ensures forall k :: k in ks ==> RankOf(rank, k) < Top(ks, rank)
    ensures Top(ks, rank) == 0 || exists k :: k in ks && Top(ks, rank) == RankOf(rank, k) + 1
    decreases ks
  {
    if ks != {} {
      var k :| k in ks && Top(ks, rank) ==
        (var rest := Top(ks - {k}, rank); if RankOf(rank, k) + 1 > rest then RankOf(rank, k) + 1 else rest);
      TopIs(ks - {k}, rank);
    }
  }

  /** The migrations waiting for first ones that x is built on. */
  ghost function Ahead(e0: set<(Key, Key)>, m: Made, x: Key): set<Key> {
    set k | k in Targets(m) && HasFirst(m, k) && Reaches(e0 + Plain(m), k, x)
  }

  lemma AheadGrows(e0: set<(Key, Key)>, m: Made, rank: map<Key, nat>, x: Key, y: Key)
    requires (x, y) in e0 + Plain(m)
    ensures Top(Ahead(e0, m, x), rank) <= Top(Ahead(e0, m, y), rank)
  {
    hide Plain, Targets, HasFirst;
    var e := e0 + Plain(m);
    ReachesEdge(e, x, y);
    TopIs(Ahead(e0, m, x), rank);
    TopIs(Ahead(e0, m, y), rank);
    forall k | k in Ahead(e0, m, x)
      ensures k in Ahead(e0, m, y)
    {
      ReachesTrans(e, k, x, y);
    }
    hide Ahead, Top;
  }

  lemma FirstRises(e0: set<(Key, Key)>, m: Made, rank: map<Key, nat>, b: string, k: Key)
    requires Ranked(FirstWaits(e0, m), rank) && WaitsForFirst(m, k, b)
    ensures Top(Ahead(e0, m, NewKey(b, 0)), rank) < Top(Ahead(e0, m, k), rank)
  {
    FirstEdgeOf(m, k, b);
    ReachesSelf(e0 + Plain(m), k);
    assert HasFirst(m, k) && k in Ahead(e0, m, k);
    TopIs(Ahead(e0, m, k), rank);
    TopIs(Ahead(e0, m, NewKey(b, 0)), rank);
    hide Plain, Targets, HasFirst, WaitsForFirst, Top, FirstEdges;
    forall j | j in Ahead(e0, m, NewKey(b, 0))
      ensures RankOf(rank, j) < RankOf(rank, k)
    {
      assert WaitsOnFirst(e0, m, j, k);
      assert (j, k) in FirstWaits(e0, m);
    }
  }

  /** And without such waiting there is no cycle. */
  lemma NoWaitingNoCycle(e0: set<(Key, Key)>, m: Made)
    requires !HasCycle(FirstWaits(e0, m)) && !HasCycle(e0 + Plain(m))
    ensures !HasCycle(e0 + ResolvedDependencies(m))
  {
    var rank := AcyclicCanBeRanked(FirstWaits(e0, m), EndPoints(FirstWaits(e0, m)));
    var e, f := e0 + Plain(m), FirstEdges(m);
    hide HasCycle, ResolvedDependencies, Plain, FirstEdges, FirstWaits, Ahead, Top, Levelled, EndPoints;
    LevelsRise(e0, m, rank);
    LevelledHasNoCycle(e, f, Levels(e0, m, rank));
    PlainAndFirst(m);
    assert e + f == e0 + ResolvedDependencies(m);
  }

  ghost function Levels(e0: set<(Key, Key)>, m: Made, rank: map<Key, nat>): map<Key, nat> {
    map x | x in EndPoints(e0 + Plain(m)) + EndPoints(FirstEdges(m)) :: Top(Ahead(e0, m, x), rank)
  }

  lemma LevelsRise(e0: set<(Key, Key)>, m: Made, rank: map<Key, nat>)
    requires Ranked(FirstWaits(e0, m), rank)
    ensures Levelled(e0 + Plain(m), FirstEdges(m), Levels(e0, m, rank))
  {
    var e, f, level := e0 + Plain(m), FirstEdges(m), Levels(e0, m, rank);
    hide Plain, FirstEdges, FirstWaits, Ahead, Top, EndPoints;
    forall d | d in e
      ensures d.0 in level && d.1 in level && level[d.0] <= level[d.1]
    {
      assert d == (d.0, d.1);
      AheadGrows(e0, m, rank, d.0, d.1);
    }
    forall d | d in f
      ensures d.0 in level && d.1 in level && level[d.0] < level[d.1]
    {
      var b := FirstEdgeIs(m, d);
      FirstRises(e0, m, rank, b, d.1);
    }
  }

  /** Added to an acyclic graph, the new migrations make a cycle exactly when some of
      them wait for first migrations in a circle, each first migration being built on
      the one that waits next. */
  lemma CycleIffWaitingInACircle(e0: set<(Key, Key)>, v0: set<Key>, m: Made, leaves: Leaves, created: seq<Place>)
    requires Within(e0, v0) && !HasCycle(e0) && Named(m) && Dated(m, leaves, created)
    requires v0 !! NewKeys(m) && forall a :: a in leaves ==> leaves[a] in v0
    ensures HasCycle(e0 + ResolvedDependencies(m)) <==> HasCycle(FirstWaits(e0, m))
  {
    PlainAcyclic(e0, v0, m, leaves, created);
    hide HasCycle, ResolvedDependencies, Plain, FirstWaits;
    if HasCycle(FirstWaits(e0, m)) {
      WaitingIsCycle(e0, m);
    } else {
      NoWaitingNoCycle(e0, m);
    }
  }

  // --- Queues that are not tight can fail ---

  /** Two apps without migrations so far: "a" waits for a model of "b" that no
      generated operation creates, and "b" waits for the model "a" creates. */
  function FirstQueues(a: Operation, b: Operation): Queues {
    map["a" := [GenOp(a, [ModelDep("b", "missing", true)])], "b" := [GenOp(b, [ModelDep("a", "made", true)])]]
  }

  lemma NotTight(a: Operation, b: Operation)
    requires b.CreateModel? && b.name == "other"
    ensures !Tight(FirstQueues(a, b), map[])
  {
    var q0: Queues := FirstQueues(a, b);
    assert Lower("other")[0] == 'o' && Lower("missing")[0] == 'm';
    assert q0["b"][0].op == b && !SatisfiedBy(ModelDep("b", "missing", true), b);
    assert Loose(q0, map[], "a", q0["a"][0].deps[0]);
  }

  lemma FirstQueuesInOrder(a: Operation, b: Operation)
    requires b.CreateModel? && b.name == "other"
    ensures !HasCycle(QueueOrder(FirstQueues(a, b)))
  {
    var q0: Queues := FirstQueues(a, b);
    var x, y := Place("a", 0), Place("b", 0);
    forall d | d in QueueOrder(q0)
      ensures d == (x, y)
    {
      QueueOrderHas(q0, d.0, d.1);
      assert Lower("other")[0] == 'o' && Lower("missing")[0] == 'm';
    }
    hide QueueOrder;
    forall i, z | 0 <= i < 2 && (z, [x, y][i]) in QueueOrder(q0)
      ensures z in [x, y][..i]
    {
      assert (z, [x, y][i]) == (x, y) && [x, y][..1] == [x];
    }
    InOrderHasNoCycle(QueueOrder(q0), [x, y]);
  }

  /** With both queues emptied, each app has one migration. */
  lemma OneEach(a: Operation, b: Operation, q: Queues, m: Made, app: string)
    requires Conserved(FirstQueues(a, b), q, m) && Named(m) && app in ["a", "b"] && q == map["a" := [], "b" := []]
    ensures app in m && |m[app]| == 1 && Offset(m[app], 0) == 0 && Offset(m[app], 1) == 1
  {
    var q0: Queues, ms := FirstQueues(a, b), MadeFor(m, app);
    assert ConservedFor(q0[app], q[app], ms) && |q0[app]| == 1;
    assert app in m;
    assert NamedFor(app, m[app]);
    TwoHoldTwo(app, ms);
    assert Offset(ms, 1) == Offset(ms, 0) + |ms[0].operations|;
    OffsetGrows(ms, 1, |ms|);
  }

  lemma TwoHoldTwo(app: string, ms: seq<NewMigration>)
    requires NamedFor(app, ms)
    ensures |ms| > 1 ==> Offset(ms, |ms|) >= 2
  {
    if |ms| > 1 {
      OffsetGrows(ms, 2, |ms|);
      assert Offset(ms, 2) == Offset(ms, 1) + |ms[1].operations|;
      assert Offset(ms, 1) == Offset(ms, 0) + |ms[0].operations|;
    }
  }

  /** "b"'s migration depends on "a"'s, which is made before. */
  lemma SecondDependsOnFirst(
      a: Operation, b: Operation, q: Queues, m: Made, created: seq<Place>, order: seq<Place>) returns (t: nat, u: nat)
    requires a.CreateModel? && a.name == "made" && q == map["a" := [], "b" := []]
    requires Sound(FirstQueues(a, b), q, m, map[], created, order)
    ensures "a" in m && "b" in m && |m["a"]| == 1 && |m["b"]| == 1 && NewKey("a", 0) in m["b"][0].dependencies
    ensures t < u < |created| && created[t] == Place("a", 0) && created[u] == Place("b", 0)
    ensures Place("b", 0) !in created[..u]
  {
    var q0: Queues := FirstQueues(a, b);
    OneEach(a, b, q, m, "a");
    OneEach(a, b, q, m, "b");
    NamedOf(q0, q, m, map[], created, order);
    ServedByFirst(a, b, m);
    u := TracedOf(q0, q, m, map[], created, order, "b", 0);
    hide Sound, Dated, Served, TracedAt;
    assert Earlier(map[], created[..u], NewKey("a", 0));
    EarlierPlace(created[..u], "a", 0);
    t :| 0 <= t < u && created[t] == Place("a", 0);
  }

  lemma ServedByFirst(a: Operation, b: Operation, m: Made)
    requires a.CreateModel? && a.name == "made" && Served(FirstQueues(a, b), m) && Named(m)
    requires "a" in m && "b" in m && |m["a"]| == 1 && |m["b"]| == 1 && Offset(m["b"], 0) == 0
    ensures NewKey("a", 0) in m["b"][0].dependencies
  {
    var q0: Queues, deps := FirstQueues(a, b), m["b"][0].dependencies;
    assert NamedFor("b", m["b"]) && MigrationServed(q0, m, "b", 0);
    assert ServedAt(q0, m, "b", 0, 0);
    var d: OpDep := q0["b"][0].deps[0];
    assert DepServed(q0, m, d, deps);
    assert QueueOf(q0, "a")[0].op == a && SatisfiedBy(d, a);
    assert LeadsTo(m, deps, "a", 0);
  }

  lemma EarlierPlace(before: seq<Place>, a: string, n: nat)
    requires Earlier(map[], before, NewKey(a, n))
    ensures Place(a, n) in before
  {
    FirstIsNotNew(a, a, n);
    var i: nat :| Place(a, i) in before && NewKey(a, n) == NewKey(a, i);
    NewKeyInjective(a, n, a, i);
  }

  /** And "a"'s then depends on the first migration of "b", which is that one. */
  lemma FirstCloses(a: Operation, b: Operation, q: Queues, m: Made, created: seq<Place>, order: seq<Place>)
    requires a.CreateModel? && a.name == "made" && q == map["a" := [], "b" := []]
    requires Sound(FirstQueues(a, b), q, m, map[], created, order)
    ensures HasCycle(ResolvedDependencies(m))
  {
    var q0: Queues := FirstQueues(a, b);
    var t, u := SecondDependsOnFirst(a, b, q, m, created, order);
    OneEach(a, b, q, m, "a");
    NamedOf(q0, q, m, map[], created, order);
    NoneBefore(m, created, t, u);
    var t' := TracedOf(q0, q, m, map[], created, order, "a", 0);
    if t' < t {
      CreatedOnce(m, map[], created, t', t);
    } else if t < t' {
      CreatedOnce(m, map[], created, t, t');
    }
    hide Sound, DatedAt, Dated;
    FirstNeeded(q0, m, created, t);
    assert NamedFor("a", m["a"]) && NamedFor("b", m["b"]);
    TwoCycle(m);
  }

  lemma FirstNeeded(q0: Queues, m: Made, created: seq<Place>, t: nat)
    requires t < |created| && created[t] == Place("a", 0) && TracedAt(q0, m, map[], created, t) &&
      NoneMade(created[..t], "b")
    requires InMigration(q0, m, "a", 0, 0) && q0["a"][0].deps != [] && q0["a"][0].deps[0].app == "b"
    ensures Key("b", FIRST) in m["a"][0].dependencies
  {
    assert NeedsFirst(q0, m, map[], created[..t], "a", 0, 0, 0);
  }

  lemma CreatedOnce(m: Made, leaves: Leaves, created: seq<Place>, s: nat, t: nat)
    requires Dated(m, leaves, created) && s < t < |created|
    ensures created[s] != created[t]
  {
    assert DatedAt(m, leaves, created, t);
    assert created[..t][s] == created[s];
  }

  lemma NoneBefore(m: Made, created: seq<Place>, t: nat, u: nat)
    requires Dated(m, map[], created) && t < u < |created| && created[u] == Place("b", 0) && "b" in m && |m["b"]| == 1
    ensures NoneMade(created[..t], "b")
  {
    forall n: nat
      ensures Place("b", n) !in created[..t]
    {
      forall s | 0 <= s < t
        ensures created[s] != Place("b", n)
      {
        CreatedOnce(m, map[], created, s, u);
        assert created[s] in created;
      }
    }
  }

  lemma TwoCycle(m: Made)
    requires "a" in m && "b" in m && |m["a"]| == 1 && |m["b"]| == 1 && NamedFor("a", m["a"]) && NamedFor("b", m["b"])
    requires Key("b", FIRST) in m["a"][0].dependencies && NewKey("a", 0) in m["b"][0].dependencies
    ensures HasCycle(ResolvedDependencies(m))
  {
    var ka, kb := NewKey("a", 0), NewKey("b", 0);
    ChainedDependencies(m, "a", 0, Key("b", FIRST));
    ChainedDependencies(m, "b", 0, ka);
    FirstIsNotNew("a", "a", 0);
    var e := Dependencies(ChainedAll(m));
    assert (Key("b", FIRST), ka) in e && (ka, kb) in e;
    assert Resolved(m, Key("b", FIRST)) == kb && Resolved(m, ka) == ka;
    hide Dependencies, ChainedAll, Resolved, NewKey;
    assert (kb, ka) in ResolvedDependencies(m) && (ka, kb) in ResolvedDependencies(m);
    assert IsCycle(ResolvedDependencies(m), [ka, kb]);
  }

  lemma BothEmpty(a: Operation, b: Operation, q: Queues, m: Made, created: seq<Place>, order: seq<Place>)
    requires Sound(FirstQueues(a, b), q, m, map[], created, order) && forall x :: x in q ==> q[x] == []
    ensures q == map["a" := [], "b" := []]
  {
    assert q.Keys == FirstQueues(a, b).Keys;
  }

  /** The scheduler accepts these queues and makes migrations that depend on each
      other in a circle. */
  method ScheduleInACircle(a: Operation, b: Operation) returns (s: Scheduler, r: Result<(), string>)
    requires a.CreateModel? && a.name == "made" && b.CreateModel? && b.name == "other"
    ensures fresh(s) && s.queued == FirstQueues(a, b) && r.Ok?
    ensures HasCycle(ResolvedDependencies(s.migrations))
  {
    s := new Scheduler(FirstQueues(a, b));
    FirstQueuesInOrder(a, b);
    var apps := ["a", "b"];
    assert Elements(apps) == s.generated.Keys && Distinct(apps);
    hide *;
    r := s.BuildMigrationList(apps, map[], {});
    s.ValidParts(map[], {});
    BothEmpty(a, b, s.generated, s.migrations, s.created, s.order);
    FirstCloses(a, b, s.generated, s.migrations, s.created, s.order);
  }
}
