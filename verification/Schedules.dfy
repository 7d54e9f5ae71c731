/** What the scheduler promises of the migrations it makes out of the queues of
    generated operations. */
module Schedules {
  import opened Wrappers
  import opened Digraph
  import opened Numbers
  import opened Keys
  import opened Operations
  import opened GeneratedOps

  type Queues = map<string, seq<GenOp>>

  datatype NewMigration = NewMigration(app: string, name: string, dependencies: seq<Key>, operations: seq<Operation>,
    initial: bool)

  type Made = map<string, seq<NewMigration>>

  /** The key of the n-th migration made for an app, counted from 0. */
  function NewKey(app: string, n: nat): Key {
    Key(app, "auto_" + Itoa(n + 1))
  }

  lemma NewKeyInjective(a: string, m: nat, b: string, n: nat)
    requires NewKey(a, m) == NewKey(b, n)
    ensures a == b && m == n
  {
    var s, t := "auto_" + Itoa(m + 1), "auto_" + Itoa(n + 1);
    assert Itoa(m + 1) == s[5..] && Itoa(n + 1) == t[5..];
    ItoaInjective(m + 1, n + 1);
  }

  lemma FirstIsNotNew(a: string, b: string, n: nat)
    ensures Key(a, FIRST) != NewKey(b, n)
  {
    assert ("auto_" + Itoa(n + 1))[0] == 'a';
    assert FIRST[0] == '_';
  }

  // --- The order the operations have to keep ---

  /** A generated operation: its app and its place in that app's queue. */
  datatype Place = Place(app: string, index: nat)

  /** x has to run before y: it is the one before y in its queue, or an operation
      of another app that y waits for. */
  ghost predicate Precedes(q0: Queues, x: Place, y: Place)
    requires IsPlace(q0, x) && IsPlace(q0, y)
  {
    if x.app == y.app then y.index == x.index + 1
    else exists k :: 0 <= k < |q0[y.app][y.index].deps| && Meets(q0[y.app][y.index].deps[k], x, q0)
  }

  predicate IsPlace(q0: Queues, x: Place) {
    x.app in q0 && x.index < |q0[x.app]|
  }

  predicate Meets(d: OpDep, x: Place, q0: Queues)
    requires IsPlace(q0, x)
  {
    d.app == x.app && SatisfiedBy(d, q0[x.app][x.index].op)
  }

  ghost function Places(q0: Queues): set<Place> {
    set a, i: nat | a in q0 && i < |q0[a]| :: Place(a, i)
  }

  ghost function QueueOrder(q0: Queues): set<(Place, Place)> {
    set x, y | x in Places(q0) && y in Places(q0) && Precedes(q0, x, y) :: (x, y)
  }

  lemma QueueOrderHas(q0: Queues, x: Place, y: Place)
    ensures x in Places(q0) <==> IsPlace(q0, x)
    ensures (x, y) in QueueOrder(q0) <==> IsPlace(q0, x) && IsPlace(q0, y) && Precedes(q0, x, y)
  {
    assert x == Place(x.app, x.index) && y == Place(y.app, y.index);
    assert x in Places(q0) <==> IsPlace(q0, x);
    assert y in Places(q0) <==> IsPlace(q0, y);
  }

  // --- Where an operation ends up ---

  function MadeFor(m: Made, app: string): seq<NewMigration> {
    if app in m then m[app] else []
  }

  /** How many operations the first n migrations hold. */
  function Offset(ms: seq<NewMigration>, n: nat): nat
    requires n <= |ms|
  {
    if n == 0 then 0 else Offset(ms, n - 1) + |ms[n - 1].operations|
  }

  /** The operations of the first n migrations, in order. */
  function Flat(ms: seq<NewMigration>, n: nat): (ops: seq<Operation>)
    requires n <= |ms|
    ensures |ops| == Offset(ms, n)
  {
    if n == 0 then [] else Flat(ms, n - 1) + ms[n - 1].operations
  }

  function Done(m: Made, app: string): nat {
    Offset(MadeFor(m, app), |MadeFor(m, app)|)
  }

  function OpsOf(q: seq<GenOp>): (ops: seq<Operation>)
    ensures |ops| == |q|
  {
    seq(|q|, i requires 0 <= i < |q| => q[i].op)
  }

  lemma {:induction false} OffsetPrefix(ms: seq<NewMigration>, more: seq<NewMigration>, n: nat)
    requires n <= |ms|
    ensures Offset(ms + more, n) == Offset(ms, n) && Flat(ms + more, n) == Flat(ms, n)
  {
    if n > 0 {
      OffsetPrefix(ms, more, n - 1);
    }
  }

  lemma {:induction false} OffsetGrows(ms: seq<NewMigration>, n: nat, k: nat)
    requires n <= k <= |ms|
    ensures Offset(ms, n) <= Offset(ms, k)
    decreases k
  {
    if n < k {
      OffsetGrows(ms, n, k - 1);
    }
  }

  /** The migration that holds the operation at i. */
  lemma {:induction false} Holder(ms: seq<NewMigration>, n: nat, i: nat) returns (k: nat)
    requires n <= |ms| && i < Offset(ms, n)
    ensures k < n && Offset(ms, k) <= i < Offset(ms, k + 1)
  {
    if Offset(ms, n - 1) <= i {
      k := n - 1;
    } else {
      k := Holder(ms, n - 1, i);
    }
  }

  // --- Nothing lost, nothing reordered ---

  /** The operations already in migrations followed by those still queued are the
      original queue. */
  ghost predicate Conserved(q0: Queues, q: Queues, m: Made) {
    && q.Keys == q0.Keys && m.Keys <= q0.Keys
    && forall a :: a in q0 ==> ConservedFor(q0[a], q[a], MadeFor(m, a))
  }

  ghost predicate ConservedFor(q0: seq<GenOp>, q: seq<GenOp>, ms: seq<NewMigration>) {
    var done := Offset(ms, |ms|);
    done <= |q0| && q == q0[done..] && Flat(ms, |ms|) == OpsOf(q0[..done])
  }

  /** The n-th migration of an app is called auto_(n+1) and is not empty. */
  ghost predicate Named(m: Made) {
    forall a :: a in m ==> m[a] != [] && NamedFor(a, m[a])
  }

  ghost predicate NamedFor(app: string, ms: seq<NewMigration>) {
    forall k :: 0 <= k < |ms| ==> ms[k].app == app && Key(app, ms[k].name) == NewKey(app, k) && ms[k].operations != []
  }

  lemma OpsOfConcat(a: seq<GenOp>, b: seq<GenOp>)
    ensures OpsOf(a + b) == OpsOf(a) + OpsOf(b)
  {}

  lemma OneMore(ms: seq<NewMigration>, mig: NewMigration)
    ensures Offset(ms + [mig], |ms| + 1) == Offset(ms, |ms|) + |mig.operations|
    ensures Flat(ms + [mig], |ms| + 1) == Flat(ms, |ms|) + mig.operations
  {
    OffsetPrefix(ms, [mig], |ms|);
    var all := ms + [mig];
    assert all[|ms|] == mig;
    assert Offset(all, |ms| + 1) == Offset(all, |ms|) + |all[|ms|].operations|;
    assert Flat(all, |ms| + 1) == Flat(all, |ms|) + all[|ms|].operations;
  }

  lemma SliceMore<T>(s: seq<T>, d: nat, n: nat)
    requires d + n <= |s|
    ensures s[..d + n] == s[..d] + s[d..][..n] && s[d..][n..] == s[d + n..]
  {}

  lemma ConservedMore(q0: seq<GenOp>, q: seq<GenOp>, ms: seq<NewMigration>, n: nat, mig: NewMigration)
    requires ConservedFor(q0, q, ms) && n <= |q| && mig.operations == OpsOf(q[..n])
    ensures ConservedFor(q0, q[n..], ms + [mig])
    ensures Offset(ms + [mig], |ms| + 1) == Offset(ms, |ms|) + n
  {
    var done := Offset(ms, |ms|);
    OneMore(ms, mig);
    OpsOfConcat(q0[..done], q[..n]);
    var all := ms + [mig];
    assert |all| == |ms| + 1 && Offset(all, |all|) == done + n;
    SliceMore(q0, done, n);
    assert Flat(all, |all|) == OpsOf(q0[..done + n]);
  }

  // --- When an operation may leave its queue ---

  type Leaves = map<string, Key>

  /** Some operation still in q meets d. */
  predicate Pending(d: OpDep, q: seq<GenOp>) {
    exists j :: 0 <= j < |q| && SatisfiedBy(d, q[j].op)
  }

  function QueueOf(q: Queues, app: string): seq<GenOp> {
    if app in q then q[app] else []
  }

  /** A dependency on another app whose operations are all in migrations; unless
      chopping, that app must have some migration already. */
  predicate DepReady(q: Queues, m: Made, app: string, d: OpDep, chopMode: bool) {
    d.app != app ==> !Pending(d, QueueOf(q, d.app)) && (chopMode || d.app in m)
  }

  predicate Ready(q: Queues, m: Made, app: string, op: GenOp, chopMode: bool) {
    forall k :: 0 <= k < |op.deps| ==> DepReady(q, m, app, op.deps[k], chopMode)
  }

  /** What a migration depends on for the sake of another app: that app's newest
      migration, or its leaf, or whatever comes first. */
  function DepKey(m: Made, leaves: Leaves, app: string): Key
    requires app in m ==> m[app] != []
  {
    if app in m then Key(app, m[app][|m[app]| - 1].name)
    else if app in leaves then leaves[app]
    else Key(app, FIRST)
  }

  /** deps holds what each dependency of the operations on another app needs, and no
      more. */
  ghost predicate DepsFor(m: Made, leaves: Leaves, app: string, ops: seq<GenOp>, deps: seq<Key>)
    requires Named(m)
  {
    && (forall i, k :: 0 <= i < |ops| && 0 <= k < |ops[i].deps| && ops[i].deps[k].app != app ==>
          DepKey(m, leaves, ops[i].deps[k].app) in deps)
    && (forall key :: key in deps ==> NeededKey(m, leaves, app, ops, key))
  }

  /** key is what one of the operations depends on for the sake of another app. */
  ghost predicate NeededKey(m: Made, leaves: Leaves, app: string, ops: seq<GenOp>, key: Key)
    requires Named(m)
  {
    exists i, k :: 0 <= i < |ops| && 0 <= k < |ops[i].deps| && ops[i].deps[k].app != app
      && key == DepKey(m, leaves, ops[i].deps[k].app)
  }

  // --- Every operation waited for is in a migration depended on ---

  /** Through one of deps, or the migrations of b before it, the operation at j of
      b's queue is reached. */
  ghost predicate LeadsTo(m: Made, deps: seq<Key>, b: string, j: nat) {
    b in m && exists n: nat :: n < |m[b]| && NewKey(b, n) in deps && j < Offset(m[b], n + 1)
  }

  ghost predicate DepServed(q0: Queues, m: Made, d: OpDep, deps: seq<Key>) {
    forall j: nat :: j < |QueueOf(q0, d.app)| && SatisfiedBy(d, QueueOf(q0, d.app)[j].op) ==> LeadsTo(m, deps, d.app, j)
  }

  ghost predicate OpServed(q0: Queues, m: Made, app: string, op: GenOp, deps: seq<Key>) {
    forall k :: 0 <= k < |op.deps| && op.deps[k].app != app ==> DepServed(q0, m, op.deps[k], deps)
  }

  /** The k-th operation of the n-th migration of app is served by what that
      migration depends on. */
  ghost predicate ServedAt(q0: Queues, m: Made, app: string, n: nat, k: nat)
    requires app in m && n < |m[app]|
  {
    var i := Offset(m[app], n) + k;
    app in q0 && i < |q0[app]| && OpServed(q0, m, app, q0[app][i], m[app][n].dependencies)
  }

  ghost predicate MigrationServed(q0: Queues, m: Made, app: string, n: nat)
    requires app in m && n < |m[app]|
  {
    forall k: nat :: k < |m[app][n].operations| ==> ServedAt(q0, m, app, n, k)
  }

  ghost predicate Served(q0: Queues, m: Made) {
    forall a, n: nat :: a in m && n < |m[a]| ==> MigrationServed(q0, m, a, n)
  }

  /** The migration mig has been added for app. */
  function Added(m: Made, app: string, mig: NewMigration): (m': Made)
    ensures m'.Keys == m.Keys + {app}
  {
    m[app := MadeFor(m, app) + [mig]]
  }

  lemma LeadsToMore(m: Made, app: string, mig: NewMigration, deps: seq<Key>, b: string, j: nat)
    requires LeadsTo(m, deps, b, j)
    ensures LeadsTo(Added(m, app, mig), deps, b, j)
  {
    var n: nat :| n < |m[b]| && NewKey(b, n) in deps && j < Offset(m[b], n + 1);
    if b == app {
      OffsetPrefix(m[b], [mig], n + 1);
    }
    assert n < |Added(m, app, mig)[b]|;
  }

  lemma OpServedMore(q0: Queues, m: Made, app: string, mig: NewMigration, a: string, op: GenOp, deps: seq<Key>)
    requires OpServed(q0, m, a, op, deps)
    ensures OpServed(q0, Added(m, app, mig), a, op, deps)
  {
    hide LeadsTo, Added;
    forall k | 0 <= k < |op.deps| && op.deps[k].app != a
      ensures DepServed(q0, Added(m, app, mig), op.deps[k], deps)
    {
      var d := op.deps[k];
      assert DepServed(q0, m, d, deps);
      forall j: nat | j < |QueueOf(q0, d.app)| && SatisfiedBy(d, QueueOf(q0, d.app)[j].op)
        ensures LeadsTo(Added(m, app, mig), deps, d.app, j)
      {
        LeadsToMore(m, app, mig, deps, d.app, j);
      }
    }
  }

  /** An operation that is ready is served by the keys it is given. */
  lemma ReadyIsServed(q0: Queues, q: Queues, m: Made, leaves: Leaves, app: string, op: GenOp, deps: seq<Key>,
      chopMode: bool)
    requires Conserved(q0, q, m) && Named(m) && Ready(q, m, app, op, chopMode)
    requires forall k :: 0 <= k < |op.deps| && op.deps[k].app != app ==> DepKey(m, leaves, op.deps[k].app) in deps
    ensures OpServed(q0, m, app, op, deps)
  {
    forall k, j: nat | 0 <= k < |op.deps| && op.deps[k].app != app && j < |QueueOf(q0, op.deps[k].app)|
        && SatisfiedBy(op.deps[k], QueueOf(q0, op.deps[k].app)[j].op)
      ensures LeadsTo(m, deps, op.deps[k].app, j)
    {
      var d := op.deps[k];
      assert DepReady(q, m, app, d, chopMode);
      PlacedIfNotPending(q0, q, m, d, j);
      var n := |m[d.app]| - 1;
      assert NewKey(d.app, n) == DepKey(m, leaves, d.app);
    }
  }

  lemma PlacedIfNotPending(q0: Queues, q: Queues, m: Made, d: OpDep, j: nat)
    requires Conserved(q0, q, m) && !Pending(d, QueueOf(q, d.app)) && Named(m)
    requires j < |QueueOf(q0, d.app)| && SatisfiedBy(d, QueueOf(q0, d.app)[j].op)
    ensures d.app in m && m[d.app] != [] && j < Offset(m[d.app], |m[d.app]|)
    ensures NamedFor(d.app, m[d.app])
  {
    var b := d.app;
    QueueAt(q0, q, m, b, j - Done(m, b));
  }

  /** Making a migration of the first n operations of a queue keeps every
      operation served. */
  lemma ServedMore(q0: Queues, q: Queues, m: Made, leaves: Leaves, app: string, n: nat, mig: NewMigration,
      chopMode: bool)
    requires Conserved(q0, q, m) && Named(m) && Served(q0, m) && app in q && n <= |q[app]|
    requires forall i :: 0 <= i < n ==> Ready(q, m, app, q[app][i], chopMode)
    requires DepsFor(m, leaves, app, q[app][..n], mig.dependencies) && mig.operations == OpsOf(q[app][..n])
    ensures Served(q0, Added(m, app, mig))
  {
    var m' := Added(m, app, mig);
    forall a, k: nat | a in m' && k < |m'[a]|
      ensures MigrationServed(q0, m', a, k)
    {
      if a == app && k == |MadeFor(m, app)| {
        NewIsServed(q0, q, m, leaves, app, n, mig, chopMode);
      } else {
        assert MigrationServed(q0, m, a, k);
        OldIsServed(q0, m, app, mig, a, k);
      }
    }
  }

  lemma OldIsServed(q0: Queues, m: Made, app: string, mig: NewMigration, a: string, k: nat)
    requires a in m && k < |m[a]| && MigrationServed(q0, m, a, k)
    ensures k < |Added(m, app, mig)[a]| && MigrationServed(q0, Added(m, app, mig), a, k)
  {
    var m' := Added(m, app, mig);
    if a == app {
      OffsetPrefix(m[a], [mig], k);
    }
    assert m'[a][k] == m[a][k];
    forall i: nat | i < |m'[a][k].operations|
      ensures ServedAt(q0, m', a, k, i)
    {
      assert ServedAt(q0, m, a, k, i);
      OpServedMore(q0, m, app, mig, a, q0[a][Offset(m[a], k) + i], m[a][k].dependencies);
    }
  }

  lemma NewIsServed(q0: Queues, q: Queues, m: Made, leaves: Leaves, app: string, n: nat, mig: NewMigration,
      chopMode: bool)
    requires Conserved(q0, q, m) && Named(m) && app in q && n <= |q[app]|
    requires forall i :: 0 <= i < n ==> Ready(q, m, app, q[app][i], chopMode)
    requires DepsFor(m, leaves, app, q[app][..n], mig.dependencies) && mig.operations == OpsOf(q[app][..n])
    ensures MigrationServed(q0, Added(m, app, mig), app, |MadeFor(m, app)|)
  {
    assert |mig.operations| == n;
    NewSpan(m, app, n, mig);
    forall k: nat | k < n
      ensures ServedAt(q0, Added(m, app, mig), app, |MadeFor(m, app)|, k)
    {
      NewOpServed(q0, q, m, leaves, app, n, k, mig, chopMode);
    }
  }

  lemma NewOpServed(q0: Queues, q: Queues, m: Made, leaves: Leaves, app: string, n: nat, k: nat, mig: NewMigration,
      chopMode: bool)
    requires Conserved(q0, q, m) && Named(m) && app in q && k < n <= |q[app]|
    requires Ready(q, m, app, q[app][k], chopMode) && DepsFor(m, leaves, app, q[app][..n], mig.dependencies)
    ensures app in q0 && Done(m, app) + k < |q0[app]|
    ensures OpServed(q0, Added(m, app, mig), app, q0[app][Done(m, app) + k], mig.dependencies)
  {
    QueueAt(q0, q, m, app, k);
    var op := q[app][k];
    ChoppedIsServed(q0, q, m, leaves, app, n, k, mig.dependencies, chopMode);
    hide DepsFor, Conserved, Named, OpServed, Added, Ready;
    OpServedMore(q0, m, app, mig, app, op, mig.dependencies);
  }

  lemma NewSpan(m: Made, app: string, n: nat, mig: NewMigration)
    requires |mig.operations| == n
    ensures var m', k, done := Added(m, app, mig), |MadeFor(m, app)|, Done(m, app);
      && |m'[app]| == k + 1 && m'[app][k] == mig && Offset(m'[app], k) == done && Offset(m'[app], k + 1) == done + n
  {
    SpanOfLast(MadeFor(m, app), mig);
    assert Added(m, app, mig)[app] == MadeFor(m, app) + [mig];
  }

  lemma SpanOfLast(ms: seq<NewMigration>, mig: NewMigration)
    ensures var all := ms + [mig];
      && |all| == |ms| + 1 && all[|ms|] == mig
      && Offset(all, |ms|) == Offset(ms, |ms|) && Offset(all, |ms| + 1) == Offset(ms, |ms|) + |mig.operations|
  {
    OneMore(ms, mig);
    OffsetPrefix(ms, [mig], |ms|);
  }

  /** The operations left in a queue are those after the ones in migrations. */
  lemma QueueAt(q0: Queues, q: Queues, m: Made, app: string, k: int)
    requires Conserved(q0, q, m) && app in q0
    ensures |q[app]| == |q0[app]| - Done(m, app)
    ensures 0 <= k < |q[app]| ==> q[app][k] == q0[app][Done(m, app) + k]
  {
    assert ConservedFor(q0[app], q[app], MadeFor(m, app));
  }

  lemma ChoppedIsServed(q0: Queues, q: Queues, m: Made, leaves: Leaves, app: string, n: nat, i: nat, deps: seq<Key>,
      chopMode: bool)
    requires Conserved(q0, q, m) && Named(m) && app in q && i < n <= |q[app]|
    requires Ready(q, m, app, q[app][i], chopMode) && DepsFor(m, leaves, app, q[app][..n], deps)
    ensures OpServed(q0, m, app, q[app][i], deps)
  {
    assert q[app][..n][i] == q[app][i];
    ReadyIsServed(q0, q, m, leaves, app, q[app][i], deps, chopMode);
  }

  // --- Migrations depend on earlier ones, or on what exists already ---

  /** key names a migration of before, or an existing one. */
  ghost predicate Earlier(leaves: Leaves, before: seq<Place>, key: Key) {
    || (exists n: nat :: Place(key.app, n) in before && key == NewKey(key.app, n))
    || (key.app in leaves && key == leaves[key.app])
    || key == Key(key.app, FIRST)
  }

  /** created lists the migrations in the order they were made. */
  ghost predicate Dated(m: Made, leaves: Leaves, created: seq<Place>) {
    && (forall a, n: nat :: Place(a, n) in created <==> a in m && n < |m[a]|)
    && forall t :: 0 <= t < |created| ==> DatedAt(m, leaves, created, t)
  }

  /** The migration made at t comes after the one before it in its app, and
      depends on other apps' earlier or existing migrations only. */
  ghost predicate DatedAt(m: Made, leaves: Leaves, created: seq<Place>, t: nat)
    requires t < |created|
  {
    var Place(a, n) := created[t];
    && a in m && n < |m[a]| && Place(a, n) !in created[..t] && (n > 0 ==> Place(a, n - 1) in created[..t])
    && forall key :: key in m[a][n].dependencies ==> key.app != a && Earlier(leaves, created[..t], key)
  }

  ghost predicate LeavesOfApps(leaves: Leaves) {
    forall a :: a in leaves ==> leaves[a].app == a
  }

  lemma NeededIsEarlier(m: Made, leaves: Leaves, created: seq<Place>, app: string, ops: seq<GenOp>, key: Key)
    requires Named(m) && LeavesOfApps(leaves) && NeededKey(m, leaves, app, ops, key)
    requires forall a, n: nat :: Place(a, n) in created <==> a in m && n < |m[a]|
    ensures key.app != app && Earlier(leaves, created, key)
  {
    var i, k :| 0 <= i < |ops| && 0 <= k < |ops[i].deps| && ops[i].deps[k].app != app
      && key == DepKey(m, leaves, ops[i].deps[k].app);
    var b := ops[i].deps[k].app;
    if b in m {
      assert NamedFor(b, m[b]);
      assert Place(b, |m[b]| - 1) in created;
    }
  }

  lemma DatedBefore(m: Made, leaves: Leaves, created: seq<Place>, app: string, mig: NewMigration, more: Place, t: nat)
    requires t < |created| && DatedAt(m, leaves, created, t)
    ensures DatedAt(Added(m, app, mig), leaves, created + [more], t)
  {
    var created' := created + [more];
    assert created'[..t] == created[..t] && created'[t] == created[t];
    var Place(a, n) := created[t];
    assert Added(m, app, mig)[a][n] == m[a][n];
    hide Earlier, Added;
  }

  lemma DatedNow(m: Made, leaves: Leaves, created: seq<Place>, app: string, ops: seq<GenOp>, mig: NewMigration)
    requires Dated(m, leaves, created) && Named(m) && LeavesOfApps(leaves)
    requires forall key :: key in mig.dependencies ==> NeededKey(m, leaves, app, ops, key)
    ensures DatedAt(Added(m, app, mig), leaves, created + [Place(app, |MadeFor(m, app)|)], |created|)
  {
    var last := |MadeFor(m, app)|;
    var created' := created + [Place(app, last)];
    assert created'[..|created|] == created;
    assert last > 0 ==> Place(app, last - 1) in created;
    assert Place(app, last) !in created;
    hide Earlier, DatedAt;
    forall key | key in mig.dependencies
      ensures key.app != app && Earlier(leaves, created, key)
    {
      NeededIsEarlier(m, leaves, created, app, ops, key);
    }
    assert Added(m, app, mig)[app][last] == mig;
  }

  lemma DatedMore(m: Made, leaves: Leaves, created: seq<Place>, app: string, ops: seq<GenOp>, mig: NewMigration)
    requires Dated(m, leaves, created) && Named(m) && LeavesOfApps(leaves)
    requires forall key :: key in mig.dependencies ==> NeededKey(m, leaves, app, ops, key)
    ensures Dated(Added(m, app, mig), leaves, created + [Place(app, |MadeFor(m, app)|)])
  {
    var last: nat := |MadeFor(m, app)|;
    var created' := created + [Place(app, last)];
    DatedNow(m, leaves, created, app, ops, mig);
    hide DatedAt, Named, NeededKey;
    forall t | 0 <= t < |created'|
      ensures DatedAt(Added(m, app, mig), leaves, created', t)
    {
      if t < |created| {
        assert DatedAt(m, leaves, created, t);
        DatedBefore(m, leaves, created, app, mig, Place(app, last), t);
      }
    }
    forall a, n: nat
      ensures Place(a, n) in created' <==> a in Added(m, app, mig) && n < |Added(m, app, mig)[a]|
    {
      assert Place(a, n) in created' <==> Place(a, n) in created || (a == app && n == last);
    }
  }

  // --- The order the operations leave their queues in ---

  /** order lists the operations that are in migrations, each after those it has
      to follow. */
  ghost predicate LeftInOrder(q0: Queues, m: Made, order: seq<Place>) {
    && InOrder(QueueOrder(q0), order)
    && forall x: Place :: IsPlace(q0, x) ==> (x in order <==> x.index < Done(m, x.app))
  }

  ghost function PlacesFrom(app: string, i: nat, n: nat): (s: seq<Place>)
    ensures forall x :: x in s <==> x.app == app && i <= x.index < i + n
  {
    if n == 0 then [] else PlacesFrom(app, i, n - 1) + [Place(app, i + n - 1)]
  }

  lemma MetHasLeft(q0: Queues, q: Queues, m: Made, order: seq<Place>, app: string, d: OpDep, x: Place, chopMode: bool)
    requires Conserved(q0, q, m) && Named(m) && LeftInOrder(q0, m, order)
    requires DepReady(q, m, app, d, chopMode) && x.app != app && IsPlace(q0, x) && Meets(d, x, q0)
    ensures x in order
  {
    PlacedIfNotPending(q0, q, m, d, x.index);
  }

  /** Everything the operation k places down its queue has to follow has left, or
      is one of those k. */
  lemma PredecessorsLeft(q0: Queues, q: Queues, m: Made, order: seq<Place>, app: string, i: nat, k: nat, x: Place,
      chopMode: bool)
    requires Conserved(q0, q, m) && Named(m) && LeftInOrder(q0, m, order)
    requires app in q && i == Done(m, app) + k && k < |q[app]| && Ready(q, m, app, q[app][k], chopMode)
    requires (x, Place(app, i)) in QueueOrder(q0)
    ensures x in order || (x.app == app && i - k <= x.index < i)
  {
    QueueOrderHas(q0, x, Place(app, i));
    QueueAt(q0, q, m, app, k);
    hide Conserved, QueueOrder, Named, LeftInOrder, Done, Meets, SatisfiedBy, DepReady;
    if x.app == app {
      assert i - k >= 0;
      EarlierHasLeft(q0, m, order, x);
    } else {
      var op := q0[app][i];
      var d :| 0 <= d < |op.deps| && Meets(op.deps[d], x, q0);
      MetHasLeft(q0, q, m, order, app, op.deps[d], x, chopMode);
    }
  }

  lemma EarlierHasLeft(q0: Queues, m: Made, order: seq<Place>, x: Place)
    requires LeftInOrder(q0, m, order) && IsPlace(q0, x)
    ensures x.index < Done(m, x.app) ==> x in order
  {}

  /** The place k after done has to follow only what is in order and the k places
      before it. */
  ghost predicate FollowsOnly(e: set<(Place, Place)>, order: seq<Place>, app: string, done: nat, k: nat) {
    forall x :: (x, Place(app, done + k)) in e ==> x in order || (x.app == app && done <= x.index < done + k)
  }

  lemma {:induction false} ChunkInOrder(e: set<(Place, Place)>, order: seq<Place>, app: string, done: nat, n: nat)
    requires InOrder(e, order) && forall k: nat :: k < n ==> FollowsOnly(e, order, app, done, k)
    ensures InOrder(e, order + PlacesFrom(app, done, n))
  {
    if n == 0 {
      assert order + PlacesFrom(app, done, 0) == order;
    } else {
      ChunkInOrder(e, order, app, done, n - 1);
      var so, y := order + PlacesFrom(app, done, n - 1), Place(app, done + n - 1);
      assert FollowsOnly(e, order, app, done, n - 1);
      InOrderSnoc(e, so, y);
      assert order + PlacesFrom(app, done, n) == so + [y];
    }
  }

  lemma ChoppedFollowsOnly(q0: Queues, q: Queues, m: Made, order: seq<Place>, app: string, k: nat, chopMode: bool)
    requires Conserved(q0, q, m) && Named(m) && LeftInOrder(q0, m, order) && app in q && k < |q[app]|
    requires Ready(q, m, app, q[app][k], chopMode)
    ensures FollowsOnly(QueueOrder(q0), order, app, Done(m, app), k)
  {
    var i := Done(m, app) + k;
    hide Conserved, Named, LeftInOrder, QueueOrder, Ready;
    forall x | (x, Place(app, i)) in QueueOrder(q0)
      ensures x in order || (x.app == app && Done(m, app) <= x.index < i)
    {
      PredecessorsLeft(q0, q, m, order, app, i, k, x, chopMode);
    }
  }

  lemma DoneMore(m: Made, app: string, mig: NewMigration, a: string)
    ensures Done(Added(m, app, mig), a) == Done(m, a) + if a == app then |mig.operations| else 0
  {
    OneMore(MadeFor(m, app), mig);
  }

  /** The places left once n more operations of app are in a migration. */
  lemma LeftMore(q0: Queues, m: Made, order: seq<Place>, app: string, mig: NewMigration, x: Place)
    requires LeftInOrder(q0, m, order) && IsPlace(q0, x)
    ensures x in order + PlacesFrom(app, Done(m, app), |mig.operations|) <==> x.index < Done(Added(m, app, mig), x.app)
  {
    DoneMore(m, app, mig, x.app);
    hide Added, Done, InOrder;
  }

  lemma LeftInOrderMore(q0: Queues, q: Queues, m: Made, order: seq<Place>, app: string, n: nat, mig: NewMigration,
      chopMode: bool)
    requires Conserved(q0, q, m) && Named(m) && LeftInOrder(q0, m, order) && app in q && n <= |q[app]|
    requires forall i :: 0 <= i < n ==> Ready(q, m, app, q[app][i], chopMode)
    requires mig.operations == OpsOf(q[app][..n])
    ensures LeftInOrder(q0, Added(m, app, mig), order + PlacesFrom(app, Done(m, app), n))
  {
    assert |mig.operations| == n;
    hide QueueOrder, Added, Done, InOrder, Conserved, Named, Ready, FollowsOnly, IsPlace;
    forall k: nat | k < n
      ensures FollowsOnly(QueueOrder(q0), order, app, Done(m, app), k)
    {
      ChoppedFollowsOnly(q0, q, m, order, app, k, chopMode);
    }
    ChunkInOrder(QueueOrder(q0), order, app, Done(m, app), n);
    forall x: Place | IsPlace(q0, x)
      ensures x in order + PlacesFrom(app, Done(m, app), n) <==> x.index < Done(Added(m, app, mig), x.app)
    {
      LeftMore(q0, m, order, app, mig, x);
    }
  }

  // --- When a migration depends on an app's first migration ---

  /** The n-th migration of a holds the operation at i. */
  ghost predicate InMigration(q0: Queues, m: Made, a: string, n: nat, i: nat) {
    a in q0 && i < |q0[a]| && a in m && n < |m[a]| && Offset(m[a], n) <= i < Offset(m[a], n + 1)
  }

  ghost predicate NoneMade(before: seq<Place>, b: string) {
    forall n: nat :: Place(b, n) !in before
  }

  /** An operation of the migration depends on something of b that no operation of b
      provides. */
  ghost predicate DependsInVain(q0: Queues, m: Made, a: string, n: nat, b: string) {
    exists i: nat, j :: InMigration(q0, m, a, n, i) && 0 <= j < |q0[a][i].deps| && q0[a][i].deps[j].app == b && b != a
      && !Pending(q0[a][i].deps[j], QueueOf(q0, b))
  }

  ghost predicate NeedsFirst(q0: Queues, m: Made, leaves: Leaves, before: seq<Place>, a: string, n: nat, i: nat,
      j: nat) {
    && InMigration(q0, m, a, n, i) && j < |q0[a][i].deps|
    && var b := q0[a][i].deps[j].app;
    b != a && b !in leaves && NoneMade(before, b)
  }

  /** The migration made at t depends on the first migration of an app only if the app
      had no migration then and does not provide what is asked of it, or its leaf is
      called that; and it does whenever the app had neither migration nor leaf. */
  ghost predicate TracedAt(q0: Queues, m: Made, leaves: Leaves, created: seq<Place>, t: nat)
    requires t < |created|
  {
    var Place(a, n) := created[t];
    && a in m && n < |m[a]|
    && FirstOnlyInVain(q0, m, leaves, created[..t], a, n, m[a][n].dependencies)
    && FirstWhenNeeded(q0, m, leaves, created[..t], a, n, m[a][n].dependencies)
  }

  ghost predicate FirstOnlyInVain(q0: Queues, m: Made, leaves: Leaves, before: seq<Place>, a: string, n: nat,
      deps: seq<Key>) {
    forall b :: Key(b, FIRST) in deps ==>
      if b in leaves then leaves[b] == Key(b, FIRST) else NoneMade(before, b) && DependsInVain(q0, m, a, n, b)
  }

  ghost predicate FirstWhenNeeded(q0: Queues, m: Made, leaves: Leaves, before: seq<Place>, a: string, n: nat,
      deps: seq<Key>) {
    forall i: nat, j: nat :: NeedsFirst(q0, m, leaves, before, a, n, i, j) ==> Key(q0[a][i].deps[j].app, FIRST) in deps
  }

  ghost predicate Traced(q0: Queues, m: Made, leaves: Leaves, created: seq<Place>) {
    forall t :: 0 <= t < |created| ==> TracedAt(q0, m, leaves, created, t)
  }

  lemma StillInMigration(q0: Queues, m: Made, app: string, mig: NewMigration, a: string, n: nat, i: nat)
    requires a in m && n < |m[a]|
    ensures InMigration(q0, Added(m, app, mig), a, n, i) <==> InMigration(q0, m, a, n, i)
    ensures Added(m, app, mig)[a][n] == m[a][n]
  {
    if a == app {
      OffsetPrefix(m[a], [mig], n);
      OffsetPrefix(m[a], [mig], n + 1);
    }
  }

  lemma StillInVain(q0: Queues, m: Made, app: string, mig: NewMigration, a: string, n: nat, b: string)
    requires a in m && n < |m[a]| && DependsInVain(q0, m, a, n, b)
    ensures DependsInVain(q0, Added(m, app, mig), a, n, b)
  {
    hide Added;
    var i: nat, j :| InMigration(q0, m, a, n, i) && 0 <= j < |q0[a][i].deps| && q0[a][i].deps[j].app == b && b != a
      && !Pending(q0[a][i].deps[j], QueueOf(q0, b));
    StillInMigration(q0, m, app, mig, a, n, i);
  }

  lemma TracedBefore(q0: Queues, m: Made, leaves: Leaves, created: seq<Place>, app: string, mig: NewMigration,
      more: Place, t: nat)
    requires t < |created| && TracedAt(q0, m, leaves, created, t)
    ensures TracedAt(q0, Added(m, app, mig), leaves, created + [more], t)
  {
    var created' := created + [more];
    assert created'[..t] == created[..t] && created'[t] == created[t];
    var Place(a, n) := created[t];
    StillInMigration(q0, m, app, mig, a, n, 0);
    var deps := m[a][n].dependencies;
    hide Added, FirstOnlyInVain, FirstWhenNeeded;
    InVainBefore(q0, m, leaves, created[..t], a, n, deps, app, mig);
    NeededBefore(q0, m, leaves, created[..t], a, n, deps, app, mig);
  }

  lemma InVainBefore(
      q0: Queues, m: Made, leaves: Leaves, before: seq<Place>, a: string, n: nat, deps: seq<Key>, app: string,
        mig: NewMigration)
    requires a in m && n < |m[a]| && FirstOnlyInVain(q0, m, leaves, before, a, n, deps)
    ensures FirstOnlyInVain(q0, Added(m, app, mig), leaves, before, a, n, deps)
  {
    hide Added, InMigration, NoneMade, DependsInVain;
    forall b | Key(b, FIRST) in deps && b !in leaves
      ensures DependsInVain(q0, Added(m, app, mig), a, n, b)
    {
      StillInVain(q0, m, app, mig, a, n, b);
    }
  }

  lemma NeededBefore(
      q0: Queues, m: Made, leaves: Leaves, before: seq<Place>, a: string, n: nat, deps: seq<Key>, app: string,
        mig: NewMigration)
    requires a in m && n < |m[a]| && FirstWhenNeeded(q0, m, leaves, before, a, n, deps)
    ensures FirstWhenNeeded(q0, Added(m, app, mig), leaves, before, a, n, deps)
  {
    hide Added, InMigration, NoneMade;
    forall i: nat, j: nat | NeedsFirst(q0, Added(m, app, mig), leaves, before, a, n, i, j)
      ensures NeedsFirst(q0, m, leaves, before, a, n, i, j)
    {
      StillInMigration(q0, m, app, mig, a, n, i);
    }
  }

  /** Only an app without migrations and leaf is depended on by its first. */
  lemma FirstIsForNone(m: Made, leaves: Leaves, b: string, c: string)
    requires Named(m) && LeavesOfApps(leaves) && DepKey(m, leaves, c) == Key(b, FIRST) && b !in leaves
    ensures c == b && b !in m
  {
    if c in m {
      assert NamedFor(c, m[c]);
      FirstIsNotNew(b, c, |m[c]| - 1);
    }
  }

  lemma NotMadeYet(m: Made, leaves: Leaves, created: seq<Place>, b: string)
    requires Named(m) && Dated(m, leaves, created)
    ensures NoneMade(created, b) <==> b !in m
  {
    if b in m {
      assert m[b] != [] && Place(b, 0) in created;
    }
  }

  lemma WholeQueueLeft(q0: Queues, q: Queues, m: Made, b: string)
    requires Conserved(q0, q, m) && b !in m
    ensures QueueOf(q, b) == QueueOf(q0, b)
  {
    if b in q0 {
      assert ConservedFor(q0[b], q[b], MadeFor(m, b));
    }
  }

  /** The k-th operation chopped is in the new migration. */
  lemma ChoppedInMigration(q0: Queues, q: Queues, m: Made, app: string, n: nat, mig: NewMigration, i: nat)
    requires Conserved(q0, q, m) && app in q && n <= |q[app]| && |mig.operations| == n
    ensures InMigration(q0, Added(m, app, mig), app, |MadeFor(m, app)|, i) <==> Done(m, app) <= i < Done(m, app) + n
    ensures Done(m, app) <= i < Done(m, app) + n ==>
      app in q0 && i < |q0[app]| && q[app][..n][i - Done(m, app)] == q0[app][i]
  {
    NewSpan(m, app, n, mig);
    QueueAt(q0, q, m, app, i - Done(m, app));
  }

  lemma TracedNowIf(
      q0: Queues, q: Queues, m: Made, leaves: Leaves, created: seq<Place>, app: string, n: nat, mig: NewMigration,
        chopMode: bool, b: string)
    requires Conserved(q0, q, m) && Named(m) && Dated(m, leaves, created) && LeavesOfApps(leaves) && app in q &&
      n <= |q[app]|
    requires forall i :: 0 <= i < n ==> Ready(q, m, app, q[app][i], chopMode)
    requires |mig.operations| == n && Key(b, FIRST) in mig.dependencies && b !in leaves
    requires NeededKey(m, leaves, app, q[app][..n], Key(b, FIRST))
    ensures NoneMade(created, b) && DependsInVain(q0, Added(m, app, mig), app, |MadeFor(m, app)|, b)
  {
    hide *;
    var i, k := WhoNeedsFirst(m, leaves, app, q[app][..n], b);
    NotMadeYet(m, leaves, created, b);
    WholeQueueLeft(q0, q, m, b);
    NotPendingNow(q, m, app, n, i, k, chopMode);
    ChoppedInMigration(q0, q, m, app, n, mig, Done(m, app) + i);
    InVain(q0, Added(m, app, mig), app, |MadeFor(m, app)|, b, Done(m, app) + i, k);
  }

  lemma NotPendingNow(q: Queues, m: Made, app: string, n: nat, i: nat, k: nat, chopMode: bool)
    requires app in q && i < n <= |q[app]| && forall i :: 0 <= i < n ==> Ready(q, m, app, q[app][i], chopMode)
    requires k < |q[app][i].deps| && q[app][i].deps[k].app != app
    ensures q[app][..n][i] == q[app][i] && !Pending(q[app][i].deps[k], QueueOf(q, q[app][i].deps[k].app))
  {
    assert Ready(q, m, app, q[app][i], chopMode) && DepReady(q, m, app, q[app][i].deps[k], chopMode);
  }

  lemma WhoNeedsFirst(m: Made, leaves: Leaves, app: string, ops: seq<GenOp>, b: string) returns (i: nat, k: nat)
    requires Named(m) && LeavesOfApps(leaves) && NeededKey(m, leaves, app, ops, Key(b, FIRST)) && b !in leaves
    ensures i < |ops| && k < |ops[i].deps| && ops[i].deps[k].app == b && b != app && b !in m
  {
    i, k :| 0 <= i < |ops| && 0 <= k < |ops[i].deps| && ops[i].deps[k].app != app
      && Key(b, FIRST) == DepKey(m, leaves, ops[i].deps[k].app);
    hide Named;
    FirstIsForNone(m, leaves, b, ops[i].deps[k].app);
  }

  lemma InVain(q0: Queues, m: Made, a: string, n: nat, b: string, i: nat, j: nat)
    requires InMigration(q0, m, a, n, i) && a in q0 && i < |q0[a]| && j < |q0[a][i].deps| &&
      q0[a][i].deps[j].app == b && b != a
    requires !Pending(q0[a][i].deps[j], QueueOf(q0, b))
    ensures DependsInVain(q0, m, a, n, b)
  {}

  lemma TracedNowOnlyIf(
      q0: Queues, q: Queues, m: Made, leaves: Leaves, created: seq<Place>, app: string, n: nat, mig: NewMigration,
        i: nat, j: nat)
    requires Conserved(q0, q, m) && Named(m) && Dated(m, leaves, created) && app in q && n <= |q[app]|
    requires DepsFor(m, leaves, app, q[app][..n], mig.dependencies) && |mig.operations| == n
    requires NeedsFirst(q0, Added(m, app, mig), leaves, created, app, |MadeFor(m, app)|, i, j)
    ensures Key(q0[app][i].deps[j].app, FIRST) in mig.dependencies
  {
    ChoppedInMigration(q0, q, m, app, n, mig, i);
    var b := q0[app][i].deps[j].app;
    NotMadeYet(m, leaves, created, b);
    hide Conserved, Named, Dated, Added, Done, InMigration;
    var ops := q[app][..n];
    assert ops[i - Done(m, app)] == q0[app][i];
    assert DepKey(m, leaves, b) in mig.dependencies;
  }

  lemma TracedNow(
      q0: Queues, q: Queues, m: Made, leaves: Leaves, created: seq<Place>, app: string, n: nat, mig: NewMigration,
        chopMode: bool)
    requires Conserved(q0, q, m) && Named(m) && Dated(m, leaves, created) && LeavesOfApps(leaves)
    requires app in q && n <= |q[app]| && forall i :: 0 <= i < n ==> Ready(q, m, app, q[app][i], chopMode)
    requires DepsFor(m, leaves, app, q[app][..n], mig.dependencies) && |mig.operations| == n
    ensures TracedAt(q0, Added(m, app, mig), leaves, created + [Place(app, |MadeFor(m, app)|)], |created|)
  {
    var last := |MadeFor(m, app)|;
    var m' := Added(m, app, mig);
    assert (created + [Place(app, last)])[..|created|] == created && app in m' && last < |m'[app]| &&
      m'[app][last] == mig;
    hide FirstOnlyInVain, FirstWhenNeeded, Conserved, Named, Dated, Ready, DepsFor, Added;
    FirstsInVain(q0, q, m, leaves, created, app, n, mig, chopMode);
    FirstsNeeded(q0, q, m, leaves, created, app, n, mig);
  }

  lemma FirstsInVain(
      q0: Queues, q: Queues, m: Made, leaves: Leaves, created: seq<Place>, app: string, n: nat, mig: NewMigration,
        chopMode: bool)
    requires Conserved(q0, q, m) && Named(m) && Dated(m, leaves, created) && LeavesOfApps(leaves)
    requires app in q && n <= |q[app]| && forall i :: 0 <= i < n ==> Ready(q, m, app, q[app][i], chopMode)
    requires DepsFor(m, leaves, app, q[app][..n], mig.dependencies) && |mig.operations| == n
    ensures FirstOnlyInVain(q0, Added(m, app, mig), leaves, created, app, |MadeFor(m, app)|, mig.dependencies)
  {
    hide Conserved, Named, Dated, Ready, NoneMade, DependsInVain, Added, NeededKey, DepKey;
    forall b | Key(b, FIRST) in mig.dependencies
      ensures if b in leaves then leaves[b] == Key(b, FIRST)
        else NoneMade(created, b) && DependsInVain(q0, Added(m, app, mig), app, |MadeFor(m, app)|, b)
    {
      if b in leaves {
        FirstOfLeaf(m, leaves, app, q[app][..n], b);
      } else {
        TracedNowIf(q0, q, m, leaves, created, app, n, mig, chopMode, b);
      }
    }
  }

  lemma FirstOfLeaf(m: Made, leaves: Leaves, app: string, ops: seq<GenOp>, b: string)
    requires Named(m) && LeavesOfApps(leaves) && b in leaves && NeededKey(m, leaves, app, ops, Key(b, FIRST))
    ensures leaves[b] == Key(b, FIRST)
  {
    var i, k :| 0 <= i < |ops| && 0 <= k < |ops[i].deps| && ops[i].deps[k].app != app
      && Key(b, FIRST) == DepKey(m, leaves, ops[i].deps[k].app);
    var c := ops[i].deps[k].app;
    if c in m {
      assert NamedFor(c, m[c]);
      FirstIsNotNew(b, c, |m[c]| - 1);
    }
  }

  lemma FirstsNeeded(q0: Queues, q: Queues, m: Made, leaves: Leaves, created: seq<Place>, app: string, n: nat,
      mig: NewMigration)
    requires Conserved(q0, q, m) && Named(m) && Dated(m, leaves, created) && app in q && n <= |q[app]|
    requires DepsFor(m, leaves, app, q[app][..n], mig.dependencies) && |mig.operations| == n
    ensures FirstWhenNeeded(q0, Added(m, app, mig), leaves, created, app, |MadeFor(m, app)|, mig.dependencies)
  {
    hide Conserved, Named, Dated, NoneMade, NeedsFirst, Added, DepsFor;
    forall i: nat, j: nat | NeedsFirst(q0, Added(m, app, mig), leaves, created, app, |MadeFor(m, app)|, i, j)
      ensures app in q0 && i < |q0[app]| && j < |q0[app][i].deps| &&
        Key(q0[app][i].deps[j].app, FIRST) in mig.dependencies
    {
      NeedsFirstHas(q0, Added(m, app, mig), leaves, created, app, |MadeFor(m, app)|, i, j);
      TracedNowOnlyIf(q0, q, m, leaves, created, app, n, mig, i, j);
    }
  }

  lemma TracedMore(
      q0: Queues, q: Queues, m: Made, leaves: Leaves, created: seq<Place>, app: string, n: nat, mig: NewMigration,
        chopMode: bool)
    requires Conserved(q0, q, m) && Named(m) && Dated(m, leaves, created) && Traced(q0, m, leaves, created) &&
      LeavesOfApps(leaves)
    requires app in q && n <= |q[app]| && forall i :: 0 <= i < n ==> Ready(q, m, app, q[app][i], chopMode)
    requires DepsFor(m, leaves, app, q[app][..n], mig.dependencies) && |mig.operations| == n
    ensures Traced(q0, Added(m, app, mig), leaves, created + [Place(app, |MadeFor(m, app)|)])
  {
    hide *;
    TracedNow(q0, q, m, leaves, created, app, n, mig, chopMode);
    TracedRest(q0, m, leaves, created, app, mig);
  }

  lemma TracedRest(q0: Queues, m: Made, leaves: Leaves, created: seq<Place>, app: string, mig: NewMigration)
    requires Traced(q0, m, leaves, created)
    requires TracedAt(q0, Added(m, app, mig), leaves, created + [Place(app, |MadeFor(m, app)|)], |created|)
    ensures Traced(q0, Added(m, app, mig), leaves, created + [Place(app, |MadeFor(m, app)|)])
  {
    hide TracedAt, Added;
    forall t | 0 <= t < |created|
      ensures TracedAt(q0, Added(m, app, mig), leaves, created + [Place(app, |MadeFor(m, app)|)], t)
    {
      TracedBefore(q0, m, leaves, created, app, mig, Place(app, |MadeFor(m, app)|), t);
    }
  }

  lemma NeedsFirstHas(q0: Queues, m: Made, leaves: Leaves, before: seq<Place>, a: string, n: nat, i: nat, j: nat)
    requires NeedsFirst(q0, m, leaves, before, a, n, i, j)
    ensures a in q0 && i < |q0[a]| && j < |q0[a][i].deps|
  {}

  // --- The whole state of the scheduler ---

  ghost predicate Sound(q0: Queues, q: Queues, m: Made, leaves: Leaves, created: seq<Place>, order: seq<Place>) {
    && Conserved(q0, q, m) && Named(m) && Served(q0, m)
    && Dated(m, leaves, created) && Traced(q0, m, leaves, created) && LeftInOrder(q0, m, order)
  }

  lemma SoundStart(q0: Queues, leaves: Leaves)
    ensures Sound(q0, q0, map[], leaves, [], [])
  {
    forall a | a in q0
      ensures ConservedFor(q0[a], q0[a], MadeFor(map[], a))
    {
      assert OpsOf(q0[a][..0]) == [];
    }
  }

  lemma NamedMore(m: Made, app: string, mig: NewMigration)
    requires Named(m) && mig.operations != []
    requires mig.app == app && Key(app, mig.name) == NewKey(app, |MadeFor(m, app)|)
    ensures Named(Added(m, app, mig))
  {
    var m' := Added(m, app, mig);
    forall a | a in m'
      ensures m'[a] != [] && NamedFor(a, m'[a])
    {
      if a == app && a in m {
        assert NamedFor(a, m[a]);
      }
    }
  }

  lemma ConservedAdded(q0: Queues, q: Queues, m: Made, app: string, n: nat, mig: NewMigration)
    requires Conserved(q0, q, m) && app in q && n <= |q[app]| && mig.operations == OpsOf(q[app][..n])
    ensures Conserved(q0, q[app := q[app][n..]], Added(m, app, mig))
  {
    var q', m' := q[app := q[app][n..]], Added(m, app, mig);
    assert ConservedFor(q0[app], q[app], MadeFor(m, app));
    ConservedMore(q0[app], q[app], MadeFor(m, app), n, mig);
    assert q'.Keys == q.Keys && MadeFor(m', app) == MadeFor(m, app) + [mig];
    hide ConservedFor, OpsOf;
    forall a | a in q0
      ensures ConservedFor(q0[a], q'[a], MadeFor(m', a))
    {
      if a != app {
        assert ConservedFor(q0[a], q[a], MadeFor(m, a));
        assert q'[a] == q[a] && MadeFor(m', a) == MadeFor(m, a);
      }
    }
  }

  /** Moving n ready operations from a queue into a new migration. */
  lemma SoundMore(q0: Queues, q: Queues, m: Made, leaves: Leaves, created: seq<Place>, order: seq<Place>, app: string,
      n: nat, mig: NewMigration, chopMode: bool)
    requires Sound(q0, q, m, leaves, created, order) && LeavesOfApps(leaves)
    requires app in q && 0 < n <= |q[app]| && forall i :: 0 <= i < n ==> Ready(q, m, app, q[app][i], chopMode)
    requires DepsFor(m, leaves, app, q[app][..n], mig.dependencies) && mig.operations == OpsOf(q[app][..n])
    requires mig.app == app && Key(app, mig.name) == NewKey(app, |MadeFor(m, app)|)
    ensures Sound(q0, q[app := q[app][n..]], Added(m, app, mig), leaves,
        created + [Place(app, |MadeFor(m, app)|)], order + PlacesFrom(app, Done(m, app), n))
  {
    assert |mig.operations| == n;
    assert forall key :: key in mig.dependencies ==> NeededKey(m, leaves, app, q[app][..n], key);
    ServedMore(q0, q, m, leaves, app, n, mig, chopMode);
    LeftInOrderMore(q0, q, m, order, app, n, mig, chopMode);
    hide LeftInOrder, Served;
    TracedMore(q0, q, m, leaves, created, app, n, mig, chopMode);
    hide Ready, DepsFor, Traced;
    DatedMore(m, leaves, created, app, q[app][..n], mig);
    hide Dated;
    NamedMore(m, app, mig);
    ConservedAdded(q0, q, m, app, n, mig);
  }

  /** Every queue that is not empty starts with an operation that is not ready,
      even when chopping. */
  ghost predicate Stuck(q: Queues, m: Made) {
    forall a :: a in q && q[a] != [] ==> !Ready(q, m, a, q[a][0], true)
  }

  /** The operations that are still queued. */
  ghost function Left(q0: Queues, m: Made): set<Place> {
    set x | x in Places(q0) && x.index >= Done(m, x.app)
  }

  lemma LeftHas(q0: Queues, q: Queues, m: Made, x: Place)
    requires Conserved(q0, q, m)
    ensures x in Left(q0, m) <==> x.app in q0 && Done(m, x.app) <= x.index < |q0[x.app]|
    ensures x in Left(q0, m) ==> IsPlace(q0, x) && x.index - Done(m, x.app) < |q[x.app]|
    ensures x in Left(q0, m) ==> q[x.app][x.index - Done(m, x.app)] == q0[x.app][x.index]
  {
    QueueOrderHas(q0, x, x);
    if x.app in q0 {
      QueueAt(q0, q, m, x.app, x.index - Done(m, x.app));
    }
  }

  /** What is left waits for itself. */
  lemma StuckMeansCycle(q0: Queues, q: Queues, m: Made, app: string)
    requires Conserved(q0, q, m) && Stuck(q, m) && app in q && q[app] != []
    ensures HasCycle(QueueOrder(q0))
  {
    var left := Left(q0, m);
    assert ConservedFor(q0[app], q[app], MadeFor(m, app));
    LeftHas(q0, q, m, Place(app, Done(m, app)));
    hide Left, QueueOrder, Conserved, Done, Stuck;
    forall y | y in left
      ensures HasPredIn(QueueOrder(q0), left, y)
    {
      LeftHas(q0, q, m, y);
      if y.index > Done(m, y.app) {
        WaitsForPrevious(q0, q, m, y);
      } else {
        WaitsForOther(q0, q, m, y);
      }
    }
    NoSourceMeansCycle(QueueOrder(q0), left);
  }

  lemma WaitsForPrevious(q0: Queues, q: Queues, m: Made, y: Place)
    requires Conserved(q0, q, m) && y in Left(q0, m) && y.index > Done(m, y.app)
    ensures HasPredIn(QueueOrder(q0), Left(q0, m), y)
  {
    var x := Place(y.app, y.index - 1);
    LeftHas(q0, q, m, y);
    LeftHas(q0, q, m, x);
    QueueOrderHas(q0, x, y);
  }

  lemma WaitsForAt(q0: Queues, q: Queues, m: Made, y: Place, k: nat, j: nat)
    requires Conserved(q0, q, m) && y in Left(q0, m) && IsPlace(q0, y) && k < |q0[y.app][y.index].deps|
    requires var d := q0[y.app][y.index].deps[k];
      d.app != y.app && j < |QueueOf(q, d.app)| && SatisfiedBy(d, QueueOf(q, d.app)[j].op)
    ensures HasPredIn(QueueOrder(q0), Left(q0, m), y)
  {
    var d := q0[y.app][y.index].deps[k];
    assert ConservedFor(q0[d.app], q[d.app], MadeFor(m, d.app));
    var x := Place(d.app, Done(m, d.app) + j);
    LeftHas(q0, q, m, x);
    assert Meets(d, x, q0);
    QueueOrderHas(q0, x, y);
  }

  lemma WaitsForOther(q0: Queues, q: Queues, m: Made, y: Place)
    requires Conserved(q0, q, m) && Stuck(q, m) && y in Left(q0, m) && y.index == Done(m, y.app)
    ensures HasPredIn(QueueOrder(q0), Left(q0, m), y)
  {
    LeftHas(q0, q, m, y);
    var op := q[y.app][0];
    assert q[y.app] != [] && !Ready(q, m, y.app, op, true);
    hide Left, QueueOrder, Conserved, Done, Stuck;
    var k :| 0 <= k < |op.deps| && !DepReady(q, m, y.app, op.deps[k], true);
    var j :| 0 <= j < |QueueOf(q, op.deps[k].app)| && SatisfiedBy(op.deps[k], QueueOf(q, op.deps[k].app)[j].op);
    WaitsForAt(q0, q, m, y, k, j);
  }

  /** When every queue is empty, the operations can be put in order. */
  lemma EmptiedMeansNoCycle(q0: Queues, q: Queues, m: Made, order: seq<Place>)
    requires Conserved(q0, q, m) && LeftInOrder(q0, m, order) && forall a :: a in q ==> q[a] == []
    ensures !HasCycle(QueueOrder(q0))
  {
    forall d | d in QueueOrder(q0)
      ensures d.1 in order
    {
      QueueOrderHas(q0, d.0, d.1);
      var a := d.1.app;
      assert ConservedFor(q0[a], q[a], MadeFor(m, a));
    }
    InOrderHasNoCycle(QueueOrder(q0), order);
  }

  // --- The migrations chained ---

  /** The first occurrence of every key. */
  function Dedup(keys: seq<Key>): (r: seq<Key>)
    ensures forall k :: k in r <==> k in keys
  {
    if keys == [] then []
    else
      var front, last := keys[..|keys| - 1], keys[|keys| - 1];
      assert keys == front + [last];
      if last in front then Dedup(front) else Dedup(front) + [last]
  }

  /** The migrations, of which those before n depend on the one before them. */
  function Linked(app: string, ms: seq<NewMigration>, n: nat): (r: seq<NewMigration>)
    ensures |r| == |ms|
  {
    seq(|ms|, i requires 0 <= i < |ms| =>
      if 0 < i < n then ms[i].(dependencies := ms[i].dependencies + [Key(app, ms[i - 1].name)]) else ms[i])
  }

  lemma LinkedStart(app: string, ms: seq<NewMigration>)
    ensures Linked(app, ms, 0) == ms && Linked(app, ms, 1) == ms
  {}

  lemma LinkedStep(app: string, ms: seq<NewMigration>, i: nat)
    requires 0 < i < |ms|
    ensures var r := Linked(app, ms, i);
      && r[i - 1].name == ms[i - 1].name && r[i] == ms[i]
      && Linked(app, ms, i + 1) == r[i := r[i].(dependencies := r[i].dependencies + [Key(app, r[i - 1].name)])]
  {}

  function Deduped(ms: seq<NewMigration>): (r: seq<NewMigration>)
    ensures |r| == |ms|
  {
    seq(|ms|, i requires 0 <= i < |ms| => ms[i].(dependencies := Dedup(ms[i].dependencies)))
  }

  function LinkedAll(m: Made): Made {
    map a | a in m :: Linked(a, m[a], |m[a]|)
  }

  function DedupedAll(m: Made): Made {
    map a | a in m :: Deduped(m[a])
  }

  /** Each app's migrations in a chain, with no dependency repeated. */
  function ChainedAll(m: Made): Made {
    DedupedAll(LinkedAll(m))
  }
}
