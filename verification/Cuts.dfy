/** When a queue is cut: only when no queue could be emptied. What that means for queues
    whose apps wait for each other in order. */
module Cuts {
  import opened Digraph
  import opened Keys
  import opened Operations
  import opened GeneratedOps
  import opened Schedules

  // --- What is left after some of the migrations ---

  /** None of the migrations before holds the operation. */
  ghost predicate LeftAt(q0: Queues, m: Made, before: seq<Place>, x: Place) {
    && IsPlace(q0, x)
    && forall n: nat :: Place(x.app, n) in before && x.app in m && n < |m[x.app]| ==> Offset(m[x.app], n + 1) <= x.index
  }

  /** The operation waits for one of another app that is left as well. */
  ghost predicate HeldAt(q0: Queues, m: Made, before: seq<Place>, x: Place)
    requires IsPlace(q0, x)
  {
    exists k, y: Place :: 0 <= k < |q0[x.app][x.index].deps| && y.app != x.app && LeftAt(q0, m, before, y)
      && Meets(q0[x.app][x.index].deps[k], y, q0)
  }

  /** Or it waits for something of another app that has no migration yet. */
  ghost predicate WaitsAt(q0: Queues, m: Made, before: seq<Place>, x: Place)
    requires IsPlace(q0, x)
  {
    || HeldAt(q0, m, before, x)
    || exists k :: 0 <= k < |q0[x.app][x.index].deps| && q0[x.app][x.index].deps[k].app != x.app
         && NoneMade(before, q0[x.app][x.index].deps[k].app)
  }

  /** No app that has operations left could put all of them in a migration. */
  ghost predicate NoneCanEmpty(q0: Queues, m: Made, before: seq<Place>) {
    forall y :: LeftAt(q0, m, before, y) ==> CannotEmpty(q0, m, before, y.app)
  }

  ghost predicate CannotEmpty(q0: Queues, m: Made, before: seq<Place>, app: string) {
    exists x: Place :: x.app == app && LeftAt(q0, m, before, x) && WaitsAt(q0, m, before, x)
  }

  /** The migration leaves operations of its app in the queue. */
  ghost predicate IsCut(q0: Queues, m: Made, p: Place) {
    p.app in q0 && p.app in m && p.index < |m[p.app]| && Offset(m[p.app], p.index + 1) < |q0[p.app]|
  }

  /** When a queue is cut no queue could be emptied, and it is cut as late as possible. */
  ghost predicate CutAt(q0: Queues, m: Made, before: seq<Place>, p: Place) {
    IsCut(q0, m, p) ==>
      NoneCanEmpty(q0, m, before) && HeldAt(q0, m, before, Place(p.app, Offset(m[p.app], p.index + 1)))
  }

  ghost predicate CutsJustified(q0: Queues, m: Made, created: seq<Place>) {
    forall t :: 0 <= t < |created| ==> CutAt(q0, m, created[..t], created[t])
  }

  lemma NothingCut(q0: Queues)
    ensures CutsJustified(q0, map[], [])
  {}

  // --- The same in terms of the queues there are ---

  /** No queue consists of operations that are ready. */
  ghost predicate NoneWhole(q: Queues, m: Made) {
    forall a :: a in q && q[a] != [] ==> exists i :: 0 <= i < |q[a]| && !Ready(q, m, a, q[a][i], false)
  }

  ghost predicate ListsMade(m: Made, created: seq<Place>) {
    forall a, n: nat :: Place(a, n) in created <==> a in m && n < |m[a]|
  }

  lemma LeftNow(q0: Queues, q: Queues, m: Made, created: seq<Place>, x: Place)
    requires Conserved(q0, q, m) && ListsMade(m, created)
    ensures LeftAt(q0, m, created, x) <==> IsPlace(q0, x) && Done(m, x.app) <= x.index
  {
    if x.app in m {
      if m[x.app] != [] {
        assert Place(x.app, |m[x.app]| - 1) in created;
      }
      forall n: nat | Place(x.app, n) in created
        ensures n < |m[x.app]| && Offset(m[x.app], n + 1) <= Done(m, x.app)
      {
        OffsetGrows(m[x.app], n + 1, |m[x.app]|);
      }
    }
  }

  lemma QueuedIsLeft(q0: Queues, q: Queues, m: Made, created: seq<Place>, app: string, i: nat)
    requires Conserved(q0, q, m) && ListsMade(m, created) && app in q0 && i < |q[app]|
    ensures var x := Place(app, Done(m, app) + i);
      IsPlace(q0, x) && q0[app][x.index] == q[app][i] && LeftAt(q0, m, created, x)
  {
    QueueAt(q0, q, m, app, i);
    LeftNow(q0, q, m, created, Place(app, Done(m, app) + i));
  }

  /** An operation that is not ready waits. */
  lemma NotReadyWaits(q0: Queues, q: Queues, m: Made, created: seq<Place>, app: string, i: nat, chopMode: bool)
    requires Conserved(q0, q, m) && ListsMade(m, created) && app in q0 && i < |q[app]|
    requires forall a :: a in m ==> m[a] != []
    requires !Ready(q, m, app, q[app][i], chopMode)
    ensures var x := Place(app, Done(m, app) + i);
      IsPlace(q0, x) && if chopMode then HeldAt(q0, m, created, x) else WaitsAt(q0, m, created, x)
  {
    QueuedIsLeft(q0, q, m, created, app, i);
    var op := q[app][i];
    var k :| 0 <= k < |op.deps| && !DepReady(q, m, app, op.deps[k], chopMode);
    hide Conserved, Done, SatisfiedBy, LeftAt, HeldAt;
    if Pending(op.deps[k], QueueOf(q, op.deps[k].app)) {
      PendingHolds(q0, q, m, created, Place(app, Done(m, app) + i), k);
    } else {
      assert NoneMade(created, op.deps[k].app);
    }
  }

  lemma PendingHolds(q0: Queues, q: Queues, m: Made, created: seq<Place>, x: Place, k: nat)
    requires Conserved(q0, q, m) && ListsMade(m, created) && IsPlace(q0, x) && k < |q0[x.app][x.index].deps|
    requires var d := q0[x.app][x.index].deps[k]; d.app != x.app && Pending(d, QueueOf(q, d.app))
    ensures HeldAt(q0, m, created, x)
  {
    var d := q0[x.app][x.index].deps[k];
    var b := d.app;
    var j :| 0 <= j < |QueueOf(q, b)| && SatisfiedBy(d, QueueOf(q, b)[j].op);
    assert b in q && b in q0;
    hide SatisfiedBy, LeftAt, Conserved, Done;
    QueuedIsLeft(q0, q, m, created, b, j);
    assert Meets(d, Place(b, Done(m, b) + j), q0);
  }

  lemma NoneWholeIs(q0: Queues, q: Queues, m: Made, created: seq<Place>)
    requires Conserved(q0, q, m) && ListsMade(m, created) && NoneWhole(q, m) && forall a :: a in m ==> m[a] != []
    ensures NoneCanEmpty(q0, m, created)
  {
    forall y | LeftAt(q0, m, created, y)
      ensures CannotEmpty(q0, m, created, y.app)
    {
      LeftNow(q0, q, m, created, y);
      QueueAt(q0, q, m, y.app, 0);
      var i :| 0 <= i < |q[y.app]| && !Ready(q, m, y.app, q[y.app][i], false);
      hide Ready, LeftAt, WaitsAt;
      NotReadyWaits(q0, q, m, created, y.app, i, false);
      QueuedIsLeft(q0, q, m, created, y.app, i);
      assert Place(y.app, Done(m, y.app) + i).app == y.app;
    }
  }

  // --- One migration more ---

  lemma LeftStays(q0: Queues, m: Made, before: seq<Place>, app: string, mig: NewMigration, x: Place)
    requires forall p: Place :: p in before ==> p.app in m && p.index < |m[p.app]|
    ensures LeftAt(q0, Added(m, app, mig), before, x) <==> LeftAt(q0, m, before, x)
  {
    var m' := Added(m, app, mig);
    forall n: nat | Place(x.app, n) in before
      ensures x.app in m && n < |m[x.app]| && n < |m'[x.app]| && Offset(m'[x.app], n + 1) == Offset(m[x.app], n + 1)
    {
      assert Place(x.app, n).app in m && Place(x.app, n).index < |m[x.app]|;
      if x.app == app {
        OffsetPrefix(m[app], [mig], n + 1);
      }
    }
  }

  lemma HeldStays(q0: Queues, m: Made, before: seq<Place>, app: string, mig: NewMigration, x: Place)
    requires forall p: Place :: p in before ==> p.app in m && p.index < |m[p.app]|
    requires IsPlace(q0, x) && HeldAt(q0, m, before, x)
    ensures HeldAt(q0, Added(m, app, mig), before, x)
  {
    hide Added;
    var k, y: Place :| 0 <= k < |q0[x.app][x.index].deps| && y.app != x.app && LeftAt(q0, m, before, y)
      && Meets(q0[x.app][x.index].deps[k], y, q0);
    LeftStays(q0, m, before, app, mig, y);
  }

  lemma CannotEmptyStays(q0: Queues, m: Made, before: seq<Place>, app: string, mig: NewMigration)
    requires forall p: Place :: p in before ==> p.app in m && p.index < |m[p.app]|
    requires NoneCanEmpty(q0, m, before)
    ensures NoneCanEmpty(q0, Added(m, app, mig), before)
  {
    var m' := Added(m, app, mig);
    hide HeldAt, Added;
    forall y | LeftAt(q0, m', before, y)
      ensures CannotEmpty(q0, m', before, y.app)
    {
      LeftStays(q0, m, before, app, mig, y);
      assert CannotEmpty(q0, m, before, y.app);
      var x: Place :| x.app == y.app && LeftAt(q0, m, before, x) && WaitsAt(q0, m, before, x);
      LeftStays(q0, m, before, app, mig, x);
      if HeldAt(q0, m, before, x) {
        HeldStays(q0, m, before, app, mig, x);
      }
      assert WaitsAt(q0, m', before, x);
    }
  }

  lemma EndStays(m: Made, app: string, mig: NewMigration, p: Place)
    requires p.app in m && p.index < |m[p.app]|
    ensures var m' := Added(m, app, mig);
      p.app in m' && p.index < |m'[p.app]| && Offset(m'[p.app], p.index + 1) == Offset(m[p.app], p.index + 1)
  {
    if p.app == app {
      OffsetPrefix(m[app], [mig], p.index + 1);
    }
    hide Offset;
  }

  lemma CutStays(q0: Queues, m: Made, before: seq<Place>, p: Place, app: string, mig: NewMigration)
    requires forall p: Place :: p in before ==> p.app in m && p.index < |m[p.app]|
    requires p.app in m && p.index < |m[p.app]| && CutAt(q0, m, before, p)
    ensures CutAt(q0, Added(m, app, mig), before, p)
  {
    hide NoneCanEmpty, HeldAt, Added, Offset, LeftAt;
    EndStays(m, app, mig, p);
    if IsCut(q0, m, p) {
      CannotEmptyStays(q0, m, before, app, mig);
      HeldStays(q0, m, before, app, mig, Place(p.app, Offset(m[p.app], p.index + 1)));
    }
  }

  lemma CutNow(q0: Queues, q: Queues, m: Made, created: seq<Place>, app: string, n: nat, mig: NewMigration)
    requires Conserved(q0, q, m) && ListsMade(m, created) && forall a :: a in m ==> m[a] != []
    requires app in q && 0 < n <= |q[app]| && |mig.operations| == n
    requires n < |q[app]| ==> NoneWhole(q, m) && !Ready(q, m, app, q[app][n], true)
    ensures CutAt(q0, Added(m, app, mig), created, Place(app, |MadeFor(m, app)|))
  {
    hide NoneCanEmpty, HeldAt, Ready, NoneWhole, Conserved, Offset, Added, ListsMade;
    NewEnds(q0, q, m, app, n, mig);
    if n < |q[app]| {
      HeldUp(q0, q, m, created, app, n, mig);
    }
  }

  lemma HeldUp(q0: Queues, q: Queues, m: Made, created: seq<Place>, app: string, n: nat, mig: NewMigration)
    requires Conserved(q0, q, m) && ListsMade(m, created) && forall a :: a in m ==> m[a] != []
    requires app in q && n < |q[app]| && NoneWhole(q, m) && !Ready(q, m, app, q[app][n], true)
    ensures NoneCanEmpty(q0, Added(m, app, mig), created)
    ensures var x := Place(app, Done(m, app) + n); IsPlace(q0, x) && HeldAt(q0, Added(m, app, mig), created, x)
  {
    assert app in q0;
    forall p: Place | p in created
      ensures p.app in m && p.index < |m[p.app]|
    {
      assert p == Place(p.app, p.index);
    }
    hide NoneCanEmpty, HeldAt, Ready, NoneWhole, Conserved, Offset, Added, ListsMade;
    NoneWholeIs(q0, q, m, created);
    NotReadyWaits(q0, q, m, created, app, n, true);
    CannotEmptyStays(q0, m, created, app, mig);
    HeldStays(q0, m, created, app, mig, Place(app, Done(m, app) + n));
  }

  lemma NewEnds(q0: Queues, q: Queues, m: Made, app: string, n: nat, mig: NewMigration)
    requires Conserved(q0, q, m) && app in q && n <= |q[app]| && |mig.operations| == n
    ensures var m', k := Added(m, app, mig), |MadeFor(m, app)|;
      && app in m' && k < |m'[app]| && Offset(m'[app], k + 1) == Done(m, app) + n
      && app in q0 && |q0[app]| == Done(m, app) + |q[app]|
  {
    QueueAt(q0, q, m, app, 0);
    OneMore(MadeFor(m, app), mig);
  }

  /** A migration of the first n operations, which are all there are or end where the
      next one is held. */
  lemma CutsMore(q0: Queues, q: Queues, m: Made, created: seq<Place>, app: string, n: nat, mig: NewMigration)
    requires Conserved(q0, q, m) && ListsMade(m, created) && forall a :: a in m ==> m[a] != []
    requires CutsJustified(q0, m, created)
    requires app in q && 0 < n <= |q[app]| && |mig.operations| == n
    requires n < |q[app]| ==> NoneWhole(q, m) && !Ready(q, m, app, q[app][n], true)
    ensures CutsJustified(q0, Added(m, app, mig), created + [Place(app, |MadeFor(m, app)|)])
  {
    var m', p := Added(m, app, mig), Place(app, |MadeFor(m, app)|);
    var created' := created + [p];
    CutNow(q0, q, m, created, app, n, mig);
    hide CutAt, Added;
    forall t | 0 <= t < |created'|
      ensures CutAt(q0, m', created'[..t], created'[t])
    {
      if t < |created| {
        assert created'[..t] == created[..t] && created'[t] == created[t];
        forall p | p in created[..t]
          ensures p.app in m && p.index < |m[p.app]|
        {
          assert p in created && p == Place(p.app, p.index);
        }
        assert created[t] in created && created[t] == Place(created[t].app, created[t].index);
        CutStays(q0, m, created[..t], created[t], app, mig);
      } else {
        assert created'[..t] == created;
      }
    }
  }

  // --- Apps that wait for each other in order ---

  /** Some operation of app waits for another app. */
  ghost predicate AppWaitsFor(q0: Queues, app: string, other: string) {
    && app in q0 && app != other
    && exists i, k :: 0 <= i < |q0[app]| && 0 <= k < |q0[app][i].deps| && q0[app][i].deps[k].app == other
  }

  ghost function AppWaits(q0: Queues): set<(string, string)> {
    set a, b | a in q0 && b in q0 && AppWaitsFor(q0, b, a) :: (a, b)
  }

  /** Every app waited for has operations of its own, and the apps wait in order. */
  ghost predicate AppsInOrder(q0: Queues) {
    && (forall a, b :: AppWaitsFor(q0, a, b) ==> QueueOf(q0, b) != [])
    && !HasCycle(AppWaits(q0))
  }

  /** Every app has one migration, of its whole queue. */
  ghost predicate OneMigrationEach(q0: Queues, m: Made) {
    forall a :: a in q0 && q0[a] != [] ==> a in m && |m[a]| == 1 && m[a][0].operations == OpsOf(q0[a])
  }

  // --- Such queues can be scheduled ---

  /** Within apps, and between them. */
  ghost function Inside(q0: Queues): set<(Place, Place)> {
    set d | d in QueueOrder(q0) && d.0.app == d.1.app
  }

  ghost function Across(q0: Queues): set<(Place, Place)> {
    set d | d in QueueOrder(q0) && d.0.app != d.1.app
  }

  lemma InsideHasNoCycle(q0: Queues)
    ensures !HasCycle(Inside(q0))
  {
    var rank := map x | x in Places(q0) :: x.index;
    forall d | d in Inside(q0)
      ensures d.0 in rank && d.1 in rank && rank[d.0] < rank[d.1]
    {
      QueueOrderHas(q0, d.0, d.1);
    }
    hide Inside, Places;
    RankedHasNoCycle(Inside(q0), rank);
  }

  lemma AcrossIsWaiting(q0: Queues, d: (Place, Place))
    requires d in Across(q0)
    ensures d.0 in Places(q0) && d.1 in Places(q0) && (d.0.app, d.1.app) in AppWaits(q0)
  {
    QueueOrderHas(q0, d.0, d.1);
    var k :| 0 <= k < |q0[d.1.app][d.1.index].deps| && Meets(q0[d.1.app][d.1.index].deps[k], d.0, q0);
    hide QueueOrder, Places;
    WaitingApp(q0, d.1, k, d.0.app);
  }

  /** Operations of apps that wait in order can be put in order. */
  lemma InOrderHasNoCircle(q0: Queues)
    requires !HasCycle(AppWaits(q0))
    ensures !HasCycle(QueueOrder(q0))
  {
    var rank := AcyclicCanBeRanked(AppWaits(q0), q0.Keys);
    var level := map x | x in Places(q0) :: if x.app in rank then rank[x.app] else 0;
    forall d | d in Inside(q0)
      ensures d.0 in level && d.1 in level && level[d.0] <= level[d.1]
    {
      QueueOrderHas(q0, d.0, d.1);
    }
    forall d | d in Across(q0)
      ensures d.0 in level && d.1 in level && level[d.0] < level[d.1]
    {
      AcrossIsWaiting(q0, d);
    }
    InsideHasNoCycle(q0);
    assert Inside(q0) + Across(q0) == QueueOrder(q0);
    hide Inside, Across, QueueOrder, Places;
    LevelledHasNoCycle(Inside(q0), Across(q0), level);
  }

  // --- And each app gets one migration ---

  lemma WaitingApp(q0: Queues, x: Place, k: nat, other: string)
    requires IsPlace(q0, x) && k < |q0[x.app][x.index].deps| && q0[x.app][x.index].deps[k].app == other != x.app
    ensures AppWaitsFor(q0, x.app, other) && (other in q0 ==> (other, x.app) in AppWaits(q0))
  {}

  /** An app with operations left that cannot be emptied waits for another one with
      operations left. */
  lemma WaitsForLeft(q0: Queues, m: Made, before: seq<Place>, x: Place) returns (y: Place)
    requires AppsInOrder(q0) && IsPlace(q0, x) && WaitsAt(q0, m, before, x)
    ensures LeftAt(q0, m, before, y) && (y.app, x.app) in AppWaits(q0)
  {
    if HeldAt(q0, m, before, x) {
      var k, z: Place :| 0 <= k < |q0[x.app][x.index].deps| && z.app != x.app && LeftAt(q0, m, before, z)
        && Meets(q0[x.app][x.index].deps[k], z, q0);
      WaitingApp(q0, x, k, z.app);
      y := z;
    } else {
      var k :| 0 <= k < |q0[x.app][x.index].deps| && q0[x.app][x.index].deps[k].app != x.app
        && NoneMade(before, q0[x.app][x.index].deps[k].app);
      var b := q0[x.app][x.index].deps[k].app;
      WaitingApp(q0, x, k, b);
      y := Place(b, 0);
    }
  }

  /** While something is left, some queue can be emptied. */
  lemma SomeCanEmpty(q0: Queues, m: Made, before: seq<Place>, x: Place)
    requires AppsInOrder(q0) && LeftAt(q0, m, before, x)
    ensures !NoneCanEmpty(q0, m, before)
  {
    if NoneCanEmpty(q0, m, before) {
      var apps := set a | a in q0 && LeftIn(q0, m, before, a);
      assert LeftIn(q0, m, before, x.app) && x.app in apps;
      forall b | b in apps
        ensures HasPredIn(AppWaits(q0), apps, b)
      {
        var z: Place :| z.app == b && LeftAt(q0, m, before, z);
        assert CannotEmpty(q0, m, before, z.app);
        var w: Place :| w.app == b && LeftAt(q0, m, before, w) && WaitsAt(q0, m, before, w);
        hide AppsInOrder, WaitsAt, AppWaits;
        var y := WaitsForLeft(q0, m, before, w);
        assert LeftIn(q0, m, before, y.app) && y.app in q0;
      }
      NoSourceMeansCycle(AppWaits(q0), apps);
    }
  }

  ghost predicate LeftIn(q0: Queues, m: Made, before: seq<Place>, app: string) {
    exists z: Place :: z.app == app && LeftAt(q0, m, before, z)
  }

  lemma CutHasLeft(q0: Queues, m: Made, before: seq<Place>, p: Place) returns (y: Place)
    requires CutAt(q0, m, before, p) && IsCut(q0, m, p)
    ensures NoneCanEmpty(q0, m, before) && LeftAt(q0, m, before, y)
  {
    hide NoneCanEmpty, Meets;
    var x := Place(p.app, Offset(m[p.app], p.index + 1));
    var k, z: Place :| 0 <= k < |q0[x.app][x.index].deps| && z.app != x.app && LeftAt(q0, m, before, z)
      && Meets(q0[x.app][x.index].deps[k], z, q0);
    y := z;
  }

  lemma NoCuts(q0: Queues, m: Made, created: seq<Place>, p: Place)
    requires AppsInOrder(q0) && CutsJustified(q0, m, created) && p in created
    ensures !IsCut(q0, m, p)
  {
    var t :| 0 <= t < |created| && created[t] == p;
    assert CutAt(q0, m, created[..t], p);
    hide AppsInOrder, NoneCanEmpty, LeftAt, CutAt, IsCut, CutsJustified;
    if IsCut(q0, m, p) {
      var y := CutHasLeft(q0, m, created[..t], p);
      SomeCanEmpty(q0, m, created[..t], y);
    }
  }

  lemma MoreHoldMore(app: string, ms: seq<NewMigration>)
    requires NamedFor(app, ms)
    ensures |ms| > 1 ==> Offset(ms, 1) < Offset(ms, |ms|)
  {
    if |ms| > 1 {
      OffsetGrows(ms, 2, |ms|);
      assert Offset(ms, 2) == Offset(ms, 1) + |ms[1].operations|;
    }
  }

  /** Where the apps wait in order, each one gets all its operations in one migration. */
  lemma WholeQueues(q0: Queues, q: Queues, m: Made, created: seq<Place>)
    requires Conserved(q0, q, m) && Named(m) && ListsMade(m, created) && CutsJustified(q0, m, created)
    requires AppsInOrder(q0) && forall a :: a in q ==> q[a] == []
    ensures OneMigrationEach(q0, m)
  {
    forall a | a in q0 && q0[a] != []
      ensures a in m && |m[a]| == 1 && m[a][0].operations == OpsOf(q0[a])
    {
      var ms := MadeFor(m, a);
      assert ConservedFor(q0[a], q[a], ms) && Offset(ms, |ms|) == |q0[a]|;
      assert a in m && NamedFor(a, ms);
      assert Place(a, 0) in created;
      NoCuts(q0, m, created, Place(a, 0));
      MoreHoldMore(a, ms);
      assert q0[a][..|q0[a]|] == q0[a];
      assert Flat(ms, 1) == Flat(ms, 0) + ms[0].operations;
    }
  }
}
