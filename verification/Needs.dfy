/** What a new migration depends on, and when it is an app's initial one: said of the
    queues and the migrations made before it. */
module Needs {
  import opened Digraph
  import opened Keys
  import opened Operations
  import opened GeneratedOps
  import opened Schedules
  import opened Cuts

  /** Of the migrations before, the newest of b; if there is none, the leaf b has; if
      there is none either, whatever comes first in b. */
  ghost predicate StandsFor(leaves: Leaves, before: seq<Place>, b: string, key: Key) {
    || (exists n: nat :: Place(b, n) in before && Place(b, n + 1) !in before && key == NewKey(b, n))
    || (NoneMade(before, b) && key == if b in leaves then leaves[b] else Key(b, FIRST))
  }

  /** The i-th operation of a's queue waits for another app, and key stands for it. */
  ghost predicate WaitsOn(q0: Queues, leaves: Leaves, before: seq<Place>, a: string, i: nat, key: Key)
    requires a in q0 && i < |q0[a]|
  {
    exists j :: 0 <= j < |q0[a][i].deps| && q0[a][i].deps[j].app != a &&
      StandsFor(leaves, before, q0[a][i].deps[j].app, key)
  }

  ghost predicate InAndWaits(q0: Queues, m: Made, leaves: Leaves, before: seq<Place>, a: string, n: nat, i: nat,
      key: Key)
  {
    InMigration(q0, m, a, n, i) && WaitsOn(q0, leaves, before, a, i, key)
  }

  /** The n-th migration of a depends on exactly what its operations wait for, as things
      stood when it was made, and is initial exactly when the app had no models. */
  ghost predicate ExactAt(q0: Queues, m: Made, leaves: Leaves, existing: set<string>, before: seq<Place>, a: string,
      n: nat)
  {
    && a in m && n < |m[a]| && (m[a][n].initial <==> a !in existing)
    && forall key :: key in m[a][n].dependencies <==> exists i: nat :: InAndWaits(q0, m, leaves, before, a, n, i, key)
  }

  ghost predicate NeedsExactly(q0: Queues, m: Made, leaves: Leaves, existing: set<string>, created: seq<Place>) {
    forall t :: 0 <= t < |created| ==>
      ExactAt(q0, m, leaves, existing, created[..t], created[t].app, created[t].index)
  }

  lemma NothingNeeded(q0: Queues, leaves: Leaves, existing: set<string>)
    ensures NeedsExactly(q0, map[], leaves, existing, [])
  {}

  lemma ExactStays(q0: Queues, m: Made, leaves: Leaves, existing: set<string>, before: seq<Place>, a: string, n: nat,
      app: string, mig: NewMigration)
    requires ExactAt(q0, m, leaves, existing, before, a, n)
    ensures ExactAt(q0, Added(m, app, mig), leaves, existing, before, a, n)
  {
    var m' := Added(m, app, mig);
    forall i: nat, key
      ensures InAndWaits(q0, m', leaves, before, a, n, i, key) <==> InAndWaits(q0, m, leaves, before, a, n, i, key)
    {
      StillInMigration(q0, m, app, mig, a, n, i);
    }
    StillInMigration(q0, m, app, mig, a, n, 0);
    hide InAndWaits;
    forall key
      ensures key in m'[a][n].dependencies <==> exists i: nat :: InAndWaits(q0, m', leaves, before, a, n, i, key)
    {
      if i: nat :| InAndWaits(q0, m', leaves, before, a, n, i, key) {
        assert InAndWaits(q0, m, leaves, before, a, n, i, key);
      }
      if i: nat :| InAndWaits(q0, m, leaves, before, a, n, i, key) {
        assert InAndWaits(q0, m', leaves, before, a, n, i, key);
      }
    }
  }

  /** What the scheduler takes for an app is what stands for it. */
  lemma DepKeyStands(m: Made, leaves: Leaves, created: seq<Place>, b: string, key: Key)
    requires Named(m) && ListsMade(m, created)
    ensures key == DepKey(m, leaves, b) <==> StandsFor(leaves, created, b, key)
  {
    if b in m {
      var last: nat := |m[b]| - 1;
      assert NamedFor(b, m[b]);
      assert DepKey(m, leaves, b) == NewKey(b, last);
      assert Place(b, last) in created && Place(b, last + 1) !in created;
      assert forall n: nat :: Place(b, n) in created && Place(b, n + 1) !in created ==> n == last;
      hide NewKey;
    } else {
      assert NoneMade(created, b);
    }
  }

  /** The operations of the new migration are the first n of the queue. */
  lemma NewHolds(q0: Queues, q: Queues, m: Made, app: string, n: nat, mig: NewMigration, i: nat)
    requires Conserved(q0, q, m) && app in q && n <= |q[app]| && |mig.operations| == n
    ensures app in q0
    ensures var done := Done(m, app);
      && (InMigration(q0, Added(m, app, mig), app, |MadeFor(m, app)|, i) <==> done <= i < done + n)
      && (done <= i < done + n ==> i < |q0[app]| && q0[app][i] == q[app][i - done])
  {
    OneMore(MadeFor(m, app), mig);
    OffsetPrefix(MadeFor(m, app), [mig], |MadeFor(m, app)|);
    QueueAt(q0, q, m, app, i - Done(m, app));
  }

  lemma NewIsExact(q0: Queues, q: Queues, m: Made, leaves: Leaves, existing: set<string>, created: seq<Place>,
      app: string, n: nat, mig: NewMigration)
    requires Conserved(q0, q, m) && Named(m) && ListsMade(m, created)
    requires app in q && n <= |q[app]| && |mig.operations| == n
    requires DepsFor(m, leaves, app, q[app][..n], mig.dependencies) && (mig.initial <==> app !in existing)
    ensures ExactAt(q0, Added(m, app, mig), leaves, existing, created, app, |MadeFor(m, app)|)
  {
    var m', k := Added(m, app, mig), |MadeFor(m, app)|;
    assert m'[app][k] == mig;
    forall key
      ensures key in mig.dependencies <==> exists i: nat :: InAndWaits(q0, m', leaves, created, app, k, i, key)
    {
      if key in mig.dependencies {
        NeededWaits(q0, q, m, leaves, created, app, n, mig, key);
      }
      if i: nat :| InAndWaits(q0, m', leaves, created, app, k, i, key) {
        WaitsIsNeeded(q0, q, m, leaves, created, app, n, mig, i, key);
      }
    }
    hide Added, InAndWaits, DepsFor;
  }

  lemma NeededWaits(q0: Queues, q: Queues, m: Made, leaves: Leaves, created: seq<Place>, app: string, n: nat,
      mig: NewMigration, key: Key)
    requires Conserved(q0, q, m) && Named(m) && ListsMade(m, created)
    requires app in q && n <= |q[app]| && |mig.operations| == n
    requires NeededKey(m, leaves, app, q[app][..n], key)
    ensures exists i: nat :: InAndWaits(q0, Added(m, app, mig), leaves, created, app, |MadeFor(m, app)|, i, key)
  {
    var ops := q[app][..n];
    var i, j :| 0 <= i < |ops| && 0 <= j < |ops[i].deps| && ops[i].deps[j].app != app
      && key == DepKey(m, leaves, ops[i].deps[j].app);
    var at := Done(m, app) + i;
    NewHolds(q0, q, m, app, n, mig, at);
    DepKeyStands(m, leaves, created, ops[i].deps[j].app, key);
    hide InMigration, Added, Done, Conserved, StandsFor, DepKey, Named, ListsMade;
    assert WaitsOn(q0, leaves, created, app, at, key);
    assert InAndWaits(q0, Added(m, app, mig), leaves, created, app, |MadeFor(m, app)|, at, key);
  }

  lemma WaitsIsNeeded(q0: Queues, q: Queues, m: Made, leaves: Leaves, created: seq<Place>, app: string, n: nat,
      mig: NewMigration, i: nat, key: Key)
    requires Conserved(q0, q, m) && Named(m) && ListsMade(m, created)
    requires app in q && n <= |q[app]| && |mig.operations| == n
    requires DepsFor(m, leaves, app, q[app][..n], mig.dependencies)
    requires InAndWaits(q0, Added(m, app, mig), leaves, created, app, |MadeFor(m, app)|, i, key)
    ensures key in mig.dependencies
  {
    NewHolds(q0, q, m, app, n, mig, i);
    var op := q0[app][i];
    var j :| 0 <= j < |op.deps| && op.deps[j].app != app && StandsFor(leaves, created, op.deps[j].app, key);
    DepKeyStands(m, leaves, created, op.deps[j].app, key);
    assert op == q[app][..n][i - Done(m, app)];
    hide InMigration, Added, Done, Conserved, StandsFor, DepKey, Named, ListsMade, NeededKey;
  }

  /** A migration of the first n operations of a queue, with what they need. */
  lemma NeedsMore(q0: Queues, q: Queues, m: Made, leaves: Leaves, existing: set<string>, created: seq<Place>,
      app: string, n: nat, mig: NewMigration)
    requires Conserved(q0, q, m) && Named(m) && ListsMade(m, created)
    requires NeedsExactly(q0, m, leaves, existing, created)
    requires app in q && n <= |q[app]| && |mig.operations| == n
    requires DepsFor(m, leaves, app, q[app][..n], mig.dependencies) && (mig.initial <==> app !in existing)
    ensures NeedsExactly(q0, Added(m, app, mig), leaves, existing, created + [Place(app, |MadeFor(m, app)|)])
  {
    var m', p := Added(m, app, mig), Place(app, |MadeFor(m, app)|);
    var created' := created + [p];
    NewIsExact(q0, q, m, leaves, existing, created, app, n, mig);
    hide ExactAt, Added;
    forall t | 0 <= t < |created'|
      ensures ExactAt(q0, m', leaves, existing, created'[..t], created'[t].app, created'[t].index)
    {
      if t < |created| {
        assert created'[..t] == created[..t] && created'[t] == created[t];
        ExactStays(q0, m, leaves, existing, created[..t], created[t].app, created[t].index, app, mig);
      } else {
        assert created'[..t] == created;
      }
    }
  }
}
