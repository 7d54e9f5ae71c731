/** The scheduler: it moves the generated operations out of their queues into
    migrations, cutting a queue short only when nothing else can move. */
module Scheduler {
  import opened Wrappers
  import opened Digraph
  import opened Numbers
  import opened Keys
  import opened Operations
  import opened GeneratedOps
  import opened Schedules
  import opened Cuts
  import opened Needs

  /** How many operations are queued for the apps. */
  function Total(q: Queues, apps: seq<string>): nat {
    if apps == [] then 0 else Total(q, apps[..|apps| - 1]) + |QueueOf(q, apps[|apps| - 1])|
  }

  lemma {:induction false} TotalSame(q: Queues, app: string, rest: seq<GenOp>, apps: seq<string>)
    requires app !in apps
    ensures Total(q[app := rest], apps) == Total(q, apps)
    decreases |apps|
  {
    if apps != [] {
      TotalSame(q, app, rest, apps[..|apps| - 1]);
    }
  }

  lemma {:induction false} TotalLess(q: Queues, app: string, rest: seq<GenOp>, apps: seq<string>)
    requires app in apps && Distinct(apps) && |rest| < |QueueOf(q, app)|
    ensures Total(q[app := rest], apps) < Total(q, apps)
    decreases |apps|
  {
    var front, last := apps[..|apps| - 1], apps[|apps| - 1];
    if last == app {
      assert app !in front;
      TotalSame(q, app, rest, front);
    } else {
      assert app in front;
      TotalLess(q, app, rest, front);
    }
  }

  lemma {:induction false} TotalPositive(q: Queues, apps: seq<string>)
    ensures Total(q, apps) > 0 <==> exists a :: a in apps && QueueOf(q, a) != []
    decreases |apps|
  {
    if apps != [] {
      TotalPositive(q, apps[..|apps| - 1]);
      assert apps == apps[..|apps| - 1] + [apps[|apps| - 1]];
    }
  }

  /** Whether an operation of app is ready does not depend on its own queue. */
  lemma ReadySame(q: Queues, rest: seq<GenOp>, m: Made, app: string, op: GenOp, chopMode: bool)
    ensures Ready(q[app := rest], m, app, op, chopMode) <==> Ready(q, m, app, op, chopMode)
  {
    forall k | 0 <= k < |op.deps|
      ensures DepReady(q[app := rest], m, app, op.deps[k], chopMode) <==> DepReady(q, m, app, op.deps[k], chopMode)
    {}
  }

  lemma StillNeeded(m: Made, leaves: Leaves, app: string, ops: seq<GenOp>, op: GenOp, key: Key)
    requires Named(m)
    ensures NeededKey(m, leaves, app, ops, key) || NeededKey(m, leaves, app, [op], key) ==>
      NeededKey(m, leaves, app, ops + [op], key)
  {
    var all := ops + [op];
    if NeededKey(m, leaves, app, ops, key) {
      var i, k :| 0 <= i < |ops| && 0 <= k < |ops[i].deps| && ops[i].deps[k].app != app
        && key == DepKey(m, leaves, ops[i].deps[k].app);
      assert all[i] == ops[i];
    } else if NeededKey(m, leaves, app, [op], key) {
      assert all[|ops|] == op == [op][0];
    }
  }

  /** One more operation, with the keys it needs. */
  lemma DepsForMore(m: Made, leaves: Leaves, app: string, ops: seq<GenOp>, deps: seq<Key>, op: GenOp, more: seq<Key>,
      deps': seq<Key>)
    requires Named(m) && DepsFor(m, leaves, app, ops, deps)
    requires OpDeps(m, leaves, app, op, |op.deps|, more) && Elements(deps') == Elements(deps) + Elements(more)
    ensures DepsFor(m, leaves, app, ops + [op], deps')
  {
    var all := ops + [op];
    forall i, k | 0 <= i < |all| && 0 <= k < |all[i].deps| && all[i].deps[k].app != app
      ensures DepKey(m, leaves, all[i].deps[k].app) in deps'
    {
      var key := DepKey(m, leaves, all[i].deps[k].app);
      if i < |ops| {
        assert all[i] == ops[i] && key in Elements(deps);
      } else {
        assert key in Elements(more);
      }
      assert key in Elements(deps');
    }
    hide NeededKey;
    forall key | key in deps'
      ensures NeededKey(m, leaves, app, all, key)
    {
      assert key in Elements(deps');
      StillNeeded(m, leaves, app, ops, op, key);
    }
  }

  /** keys are what the first k dependencies of op need. */
  ghost predicate OpDeps(m: Made, leaves: Leaves, app: string, op: GenOp, k: nat, keys: seq<Key>)
    requires Named(m) && k <= |op.deps|
  {
    && (forall i :: 0 <= i < k && op.deps[i].app != app ==> DepKey(m, leaves, op.deps[i].app) in keys)
    && (forall key :: key in keys ==> NeededKey(m, leaves, app, [op], key))
  }

  lemma NewName(app: string, n: nat)
    ensures Key(app, "auto_" + Itoa(n + 1)) == NewKey(app, n)
  {}

  lemma IsAdded(m: Made, app: string, mig: NewMigration)
    ensures m[app := MadeFor(m, app) + [mig]] == Added(m, app, mig)
  {}

  lemma AppsMore(apps: seq<string>, m: Made, app: string, mig: NewMigration)
    requires Distinct(apps) && Elements(apps) == m.Keys
    ensures var apps' := if app in m then apps else apps + [app];
      Distinct(apps') && Elements(apps') == Added(m, app, mig).Keys
  {
    assert app in m <==> app in Elements(apps);
    assert Elements(apps + [app]) == Elements(apps) + {app};
  }

  ghost predicate AllReady(q: Queues, m: Made, app: string, ops: seq<GenOp>, chopMode: bool) {
    forall i :: 0 <= i < |ops| ==> Ready(q, m, app, ops[i], chopMode)
  }

  lemma ChoppedReady(q: Queues, m: Made, app: string, chopped: seq<GenOp>, chopMode: bool)
    requires app in q && |chopped| <= |q[app]| && chopped == q[app][..|chopped|] &&
      AllReady(q, m, app, chopped, chopMode)
    ensures forall i :: 0 <= i < |chopped| ==> Ready(q, m, app, q[app][i], chopMode)
  {
    assert forall i :: 0 <= i < |chopped| ==> q[app][i] == chopped[i];
  }

  /** Some operation of the queue is not ready; when chopping it is the first. */
  ghost predicate Blocked(ops: seq<GenOp>, q: Queues, m: Made, app: string, chopMode: bool) {
    exists i :: 0 <= i < |ops| && (chopMode ==> i == 0) && !Ready(q, m, app, ops[i], chopMode)
  }

  lemma CutsOneMore(q0: Queues, q: Queues, m: Made, leaves: Leaves, created: seq<Place>, order: seq<Place>, app: string,
      n: nat, mig: NewMigration)
    requires Sound(q0, q, m, leaves, created, order) && CutsJustified(q0, m, created)
    requires app in q && 0 < n <= |q[app]| && mig.operations == OpsOf(q[app][..n])
    requires n < |q[app]| ==> NoneWhole(q, m) && !Ready(q, m, app, q[app][n], true)
    ensures CutsJustified(q0, Added(m, app, mig), created + [Place(app, |MadeFor(m, app)|)])
  {
    assert |mig.operations| == n;
    hide Ready, NoneWhole, CutsJustified, Served, Traced, LeftInOrder, DatedAt;
    CutsMore(q0, q, m, created, app, n, mig);
  }

  lemma NeedsOneMore(q0: Queues, q: Queues, m: Made, leaves: Leaves, existing: set<string>, created: seq<Place>,
      order: seq<Place>, app: string, n: nat, mig: NewMigration)
    requires Sound(q0, q, m, leaves, created, order) && NeedsExactly(q0, m, leaves, existing, created)
    requires app in q && 0 < n <= |q[app]| && mig.operations == OpsOf(q[app][..n])
    requires DepsFor(m, leaves, app, q[app][..n], mig.dependencies) && (mig.initial <==> app !in existing)
    ensures NeedsExactly(q0, Added(m, app, mig), leaves, existing, created + [Place(app, |MadeFor(m, app)|)])
  {
    assert |mig.operations| == n;
    hide NeedsExactly, Served, Traced, LeftInOrder, DatedAt, DepsFor;
    NeedsMore(q0, q, m, leaves, existing, created, app, n, mig);
  }

  /** The migration is as before but for what it depends on, each thing once: what it did
      before, and the migration before it in its app. */
  ghost predicate InChain(before: Made, after: Made, app: string, n: nat)
    requires app in before && n < |before[app]|
  {
    && app in after && n < |after[app]|
    && var (mig, mig') := (before[app][n], after[app][n]);
    && mig'.app == mig.app && mig'.name == mig.name && mig'.operations == mig.operations
    && mig'.initial == mig.initial && Distinct(mig'.dependencies)
    && Elements(mig'.dependencies)
       == Elements(mig.dependencies) + if n > 0 then {Key(app, before[app][n - 1].name)} else {}
  }

  ghost predicate InChains(before: Made, after: Made) {
    && after.Keys == before.Keys && (forall a :: a in before ==> |after[a]| == |before[a]|)
    && forall a, n: nat :: a in before && n < |before[a]| ==> InChain(before, after, a, n)
  }

  lemma {:induction false} DedupIsDistinct(keys: seq<Key>)
    ensures Distinct(Dedup(keys)) && Elements(Dedup(keys)) == Elements(keys)
    decreases |keys|
  {
    if keys != [] {
      var front, last := keys[..|keys| - 1], keys[|keys| - 1];
      assert keys == front + [last];
      DedupIsDistinct(front);
      var r := Dedup(front);
      assert last !in front ==> forall i :: 0 <= i < |r| ==> r[i] in front;
    }
  }

  lemma ElementsMore(keys: seq<Key>, key: Key)
    ensures Elements(keys + [key]) == Elements(keys) + {key}
  {}

  lemma AreInChains(m: Made)
    ensures InChains(m, ChainedAll(m))
  {
    forall a, n: nat | a in m && n < |m[a]|
      ensures InChain(m, ChainedAll(m), a, n)
    {
      IsInChain(m, a, n);
    }
    assert forall a :: a in m ==> ChainedAll(m)[a] == Deduped(Linked(a, m[a], |m[a]|));
    hide InChain;
  }

  lemma IsInChain(m: Made, a: string, n: nat)
    requires a in m && n < |m[a]|
    ensures InChain(m, ChainedAll(m), a, n)
  {
    var mig := m[a][n];
    var deps := if n > 0 then mig.dependencies + [Key(a, m[a][n - 1].name)] else mig.dependencies;
    assert Linked(a, m[a], |m[a]|)[n] == if n > 0 then mig.(dependencies := deps) else mig;
    assert ChainedAll(m)[a][n] == mig.(dependencies := Dedup(deps));
    DedupIsDistinct(deps);
    if n > 0 {
      ElementsMore(mig.dependencies, Key(a, m[a][n - 1].name));
    }
    hide Elements, Distinct, Dedup;
  }

  class Scheduler {
    var generated: Queues
    var migrations: Made
    // The apps in the order in which they first received a migration.
    var migrationApps: seq<string>

    // The queues at the start, the migrations in the order they were made, and
    // the operations in the order they left their queues.
    ghost var queued: Queues
    ghost var created: seq<Place>
    ghost var order: seq<Place>

    ghost predicate Valid(leaves: Leaves, existing: set<string>)
      reads this
    {
      ValidFor(generated, leaves, existing)
    }

    /** Valid if q is what is queued. */
    ghost predicate ValidFor(q: Queues, leaves: Leaves, existing: set<string>)
      reads this`queued, this`migrations, this`migrationApps, this`created, this`order
    {
      && Sound(queued, q, migrations, leaves, created, order)
      && CutsJustified(queued, migrations, created)
      && NeedsExactly(queued, migrations, leaves, existing, created)
      && Distinct(migrationApps) && Elements(migrationApps) == migrations.Keys
    }

    constructor (generated: Queues)
      ensures this.generated == generated && migrations == map[] && migrationApps == []
    {
      this.generated := generated;
      migrations, migrationApps := map[], [];
      queued, created, order := generated, [], [];
    }

    method StillQueued(d: OpDep) returns (found: bool)
      ensures found <==> Pending(d, QueueOf(generated, d.app))
    {
      var q := QueueOf(generated, d.app);
      var j := 0;
      while j < |q|
        invariant 0 <= j <= |q|
        invariant forall i :: 0 <= i < j ==> !SatisfiedBy(d, q[i].op)
      {
        if SatisfiedBy(d, q[j].op) {
          return true;
        }
        j := j + 1;
      }
      return false;
    }

    /** Whether the operation may leave its queue, and what it then depends on. */
    method CheckOp(app: string, op: GenOp, leaves: Leaves, chopMode: bool) returns (satisfied: bool, opDeps: seq<Key>)
      requires Named(migrations)
      ensures satisfied <==> Ready(generated, migrations, app, op, chopMode)
      ensures satisfied ==> OpDeps(migrations, leaves, app, op, |op.deps|, opDeps)
    {
      satisfied, opDeps := true, [];
      var k := 0;
      while k < |op.deps|
        invariant 0 <= k <= |op.deps|
        invariant satisfied <==> forall i :: 0 <= i < k ==> DepReady(generated, migrations, app, op.deps[i], chopMode)
        invariant satisfied ==> OpDeps(migrations, leaves, app, op, k, opDeps)
      {
        var d := op.deps[k];
        if d.app != app {
          var found := StillQueued(d);
          if found {
            satisfied := false;
          }
          if !satisfied {
            assert !DepReady(generated, migrations, app, op.deps[k], chopMode)
                || exists i :: 0 <= i < k && !DepReady(generated, migrations, app, op.deps[i], chopMode);
            return;
          }
          if d.app in migrations {
            opDeps := opDeps + [Key(d.app, migrations[d.app][|migrations[d.app]| - 1].name)];
            assert d == [op][0].deps[k] && NeededKey(migrations, leaves, app, [op], DepKey(migrations, leaves, d.app));
          } else if chopMode {
            if d.app in leaves {
              opDeps := opDeps + [leaves[d.app]];
            } else {
              opDeps := opDeps + [Key(d.app, FIRST)];
            }
            assert d == [op][0].deps[k] && NeededKey(migrations, leaves, app, [op], DepKey(migrations, leaves, d.app));
          } else {
            satisfied := false;
          }
        }
        k := k + 1;
      }
    }

    static method AddDep(depOrder: seq<Key>, key: Key) returns (r: seq<Key>)
      requires Distinct(depOrder)
      ensures Distinct(r) && Elements(r) == Elements(depOrder) + {key}
    {
      r := if key in depOrder then depOrder else depOrder + [key];
    }

    static method AddDeps(depOrder: seq<Key>, keys: seq<Key>) returns (r: seq<Key>)
      requires Distinct(depOrder)
      ensures Distinct(r) && Elements(r) == Elements(depOrder) + Elements(keys)
    {
      r := depOrder;
      var i := 0;
      while i < |keys|
        invariant 0 <= i <= |keys|
        invariant Distinct(r) && Elements(r) == Elements(depOrder) + Elements(keys[..i])
      {
        r := AddDep(r, keys[i]);
        assert keys[..i + 1] == keys[..i] + [keys[i]];
        i := i + 1;
      }
      assert keys[..i] == keys;
    }

    /** Take operations off the front of app's queue for as long as they are ready. */
    method ChopApp(app: string, leaves: Leaves, chopMode: bool) returns (chopped: seq<GenOp>, depOrder: seq<Key>)
      requires Named(migrations) && app in generated
      modifies this`generated
      ensures |chopped| <= |old(generated)[app]| && chopped == old(generated)[app][..|chopped|]
      ensures generated == old(generated)[app := old(generated)[app][|chopped|..]]
      ensures AllReady(old(generated), migrations, app, chopped, chopMode)
      ensures DepsFor(migrations, leaves, app, chopped, depOrder) && (depOrder != [] ==> chopped != [])
      ensures generated[app] != [] ==> !Ready(old(generated), migrations, app, generated[app][0], chopMode)
    {
      chopped, depOrder := [], [];
      ghost var before, q := generated, generated[app];
      while |generated[app]| > 0
        invariant app in generated && |chopped| <= |q| && chopped == q[..|chopped|]
        invariant generated == before[app := q[|chopped|..]]
        invariant forall i :: 0 <= i < |chopped| ==> Ready(before, migrations, app, chopped[i], chopMode)
        invariant DepsFor(migrations, leaves, app, chopped, depOrder) && Distinct(depOrder)
        invariant depOrder != [] ==> chopped != []
        decreases |generated[app]|
      {
        var op := generated[app][0];
        assert op == q[|chopped|];
        ReadySame(before, q[|chopped|..], migrations, app, op, chopMode);
        var satisfied, opDeps := CheckOp(app, op, leaves, chopMode);
        if !satisfied {
          return;
        }
        ghost var keys := depOrder;
        depOrder := AddDeps(depOrder, opDeps);
        DepsForMore(migrations, leaves, app, chopped, keys, op, opDeps, depOrder);
        chopped := chopped + [op];
        generated := generated[app := generated[app][1..]];
      }
    }

    /** Make a migration of the operations chopped off the queue that was q. */
    method MakeMigration(app: string, chopped: seq<GenOp>, depOrder: seq<Key>, existing: set<string>,
        ghost q: Queues, ghost leaves: Leaves, ghost chopMode: bool)
      requires ValidFor(q, leaves, existing) && LeavesOfApps(leaves)
      requires app in q && 0 < |chopped| <= |q[app]| && chopped == q[app][..|chopped|]
      requires generated == q[app := q[app][|chopped|..]]
      requires |chopped| < |q[app]| ==> NoneWhole(q, migrations) && !Ready(q, migrations, app, q[app][|chopped|], true)
      requires AllReady(q, migrations, app, chopped, chopMode)
      requires DepsFor(migrations, leaves, app, q[app][..|chopped|], depOrder)
      modifies this
      ensures Valid(leaves, existing) && queued == old(queued) && generated == old(generated)
    {
      hide *;
      PartsOf(q, leaves, existing);
      var made := MadeFor(migrations, app);
      var mig := NewMigration(app, "auto_" + Itoa(|made| + 1), depOrder, OpsOf(chopped), app !in existing);
      assert Key(app, mig.name) == NewKey(app, |made|) by { NewName(app, |made|); }
      ChoppedReady(q, migrations, app, chopped, chopMode);
      SoundMore(queued, q, migrations, leaves, created, order, app, |chopped|, mig, chopMode);
      CutsOneMore(queued, q, migrations, leaves, created, order, app, |chopped|, mig);
      NeedsOneMore(queued, q, migrations, leaves, existing, created, order, app, |chopped|, mig);
      created, order := created + [Place(app, |made|)], order + PlacesFrom(app, Done(migrations, app), |chopped|);
      AppsMore(migrationApps, migrations, app, mig);
      if app !in migrations {
        migrationApps := migrationApps + [app];
      }
      IsAdded(migrations, app, mig);
      migrations := migrations[app := made + [mig]];
      ValidIs(leaves, existing);
    }

    lemma ValidIs(leaves: Leaves, existing: set<string>)
      requires Sound(queued, generated, migrations, leaves, created, order) &&
        CutsJustified(queued, migrations, created)
      requires NeedsExactly(queued, migrations, leaves, existing, created)
      requires Distinct(migrationApps) && Elements(migrationApps) == migrations.Keys
      ensures Valid(leaves, existing)
    {}

    /** Give app a migration of the operations that are ready, if they are all it
        has left or a queue has to be cut; otherwise put them back. */
    method ScheduleApp(app: string, leaves: Leaves, existing: set<string>, chopMode: bool) returns (chopMode': bool)
      requires Valid(leaves, existing) && LeavesOfApps(leaves) && app in generated &&
        (chopMode ==> NoneWhole(generated, migrations))
      modifies this
      ensures Valid(leaves, existing) && queued == old(queued)
      ensures (Moved(old(generated), generated, app) && !chopMode') ||
        Unmoved(old(generated), old(migrations), app, chopMode, chopMode')
    {
      ghost var q := generated;
      hide *;
      StartsValid(leaves, existing);
      var chopped, depOrder := ChopApp(app, leaves, chopMode);
      StopsAt(q, migrations, app, |chopped|, chopMode);
      if depOrder == [] && chopped == [] {
        IsUnmoved(q, migrations, app, chopMode);
        StillValid(q, leaves, existing);
        return chopMode;
      }
      if generated[app] == [] || chopMode {
        MakeMigration(app, chopped, depOrder, existing, q, leaves, chopMode);
        return false;
      } else {
        generated := generated[app := chopped + generated[app]];
        IsUnmoved(q, migrations, app, chopMode);
        StillValid(q, leaves, existing);
        return chopMode;
      }
    }

    lemma StartsValid(leaves: Leaves, existing: set<string>)
      requires Valid(leaves, existing)
      ensures ValidFor(generated, leaves, existing) && Named(migrations)
    {}

    lemma StillValid(q: Queues, leaves: Leaves, existing: set<string>)
      requires ValidFor(q, leaves, existing) && generated == q
      ensures Valid(leaves, existing)
    {}

    lemma IsUnmoved(q: Queues, m: Made, app: string, chopMode: bool)
      requires generated == q && migrations == m && app in q
      requires q[app] != [] ==> Blocked(q[app], q, m, app, chopMode)
      ensures Unmoved(q, m, app, chopMode, chopMode)
    {}

    /** What is left when k operations of the queue go, and when they are put back. */
    lemma StopsAt(q: Queues, m: Made, app: string, k: nat, chopMode: bool)
      requires app in q && k <= |q[app]|
      ensures q[app := q[app][..k] + q[app][k..]] == q && (k == 0 ==> q[app := q[app][k..]] == q)
      ensures k > 0 ==> Moved(q, q[app := q[app][k..]], app)
      ensures k < |q[app]| && !Ready(q, m, app, q[app][k], chopMode) && (k == 0 || !chopMode) ==>
        Blocked(q[app], q, m, app, chopMode)
    {
      hide Ready;
      assert q[app][..k] + q[app][k..] == q[app];
      assert k == 0 ==> q[app][k..] == q[app];
    }

    lemma ValidParts(leaves: Leaves, existing: set<string>)
      requires Valid(leaves, existing)
      ensures Sound(queued, generated, migrations, leaves, created, order)
    {}

    lemma PartsOf(q: Queues, leaves: Leaves, existing: set<string>)
      requires ValidFor(q, leaves, existing)
      ensures Named(migrations) && Sound(queued, q, migrations, leaves, created, order)
      ensures CutsJustified(queued, migrations, created)
      ensures NeedsExactly(queued, migrations, leaves, existing, created)
      ensures Distinct(migrationApps) && Elements(migrationApps) == migrations.Keys
    {}

    /** Fewer operations of app are queued. */
    ghost predicate Moved(before: Queues, after: Queues, app: string) {
      app in before && exists rest :: |rest| < |before[app]| && after == before[app := rest]
    }

    /** Nothing has changed: app has an operation that is not ready; when chopping it is
        the first. */
    ghost predicate Unmoved(before: Queues, made: Made, app: string, chopMode: bool, chopMode': bool)
      reads this
    {
      && generated == before && migrations == made && chopMode' == chopMode && app in before
      && (before[app] != [] ==> Blocked(before[app], before, made, app, chopMode))
    }

    method Count(apps: seq<string>) returns (n: nat)
      ensures n == Total(generated, apps)
    {
      n := 0;
      var i := 0;
      while i < |apps|
        invariant 0 <= i <= |apps| && n == Total(generated, apps[..i])
      {
        assert apps[..i + 1][..i] == apps[..i];
        n := n + |QueueOf(generated, apps[i])|;
        i := i + 1;
      }
      assert apps[..i] == apps;
    }

    /** Go over the apps once. */
    method Pass(apps: seq<string>, leaves: Leaves, existing: set<string>, chopMode: bool) returns (chopMode': bool)
      requires Valid(leaves, existing) && LeavesOfApps(leaves) && Distinct(apps) && Elements(apps) == generated.Keys
      requires chopMode ==> NoneWhole(generated, migrations)
      modifies this
      ensures Valid(leaves, existing) && queued == old(queued) && generated.Keys == old(generated.Keys)
      ensures Total(generated, apps) <= old(Total(generated, apps))
      ensures chopMode' ==> NoneWhole(generated, migrations)
      ensures Total(generated, apps) == old(Total(generated, apps)) ==>
          generated == old(generated) && chopMode' == chopMode &&
          if chopMode then Stuck(generated, migrations) else NoneWhole(generated, migrations)
    {
      chopMode' := chopMode;
      ghost var before, made := generated, migrations;
      GoingStart(apps, chopMode);
      hide Valid, Ready, Elements, Distinct, Going, Total, NoneWhole, LeavesOfApps;
      var i := 0;
      while i < |apps|
        invariant 0 <= i <= |apps|
        invariant Valid(leaves, existing) && queued == old(queued) && generated.Keys == before.Keys
        invariant Going(before, made, apps, i, chopMode, chopMode')
      {
        chopMode' := ScheduleNext(apps, i, leaves, existing, chopMode', before, made, chopMode);
        i := i + 1;
      }
      GoneOver(before, made, apps, chopMode, chopMode');
    }

    method ScheduleNext(apps: seq<string>, i: nat, leaves: Leaves, existing: set<string>, chopMode: bool,
        ghost before: Queues, ghost made: Made, ghost start: bool) returns (chopMode': bool)
      requires Valid(leaves, existing) && LeavesOfApps(leaves) && Distinct(apps) && Elements(apps) == generated.Keys &&
        i < |apps|
      requires Going(before, made, apps, i, start, chopMode)
      modifies this
      ensures Valid(leaves, existing) && queued == old(queued) && generated.Keys == old(generated.Keys)
      ensures Going(before, made, apps, i + 1, start, chopMode')
    {
      hide Valid, Ready, Elements, Distinct, StuckUpTo, Moved, Unmoved, Total, NoneWhole, LeavesOfApps;
      InElements(apps, i);
      ghost var q, m := generated, migrations;
      chopMode' := ScheduleApp(apps[i], leaves, existing, chopMode);
      if Moved(q, generated, apps[i]) && !chopMode' {
        MovedLess(q, generated, apps[i], apps);
      } else {
        NotMoved(q, m, apps[i], chopMode, chopMode');
        if Total(q, apps) == Total(before, apps) {
          IdleMore(before, made, q, m, apps, i, start, chopMode, chopMode');
        }
      }
    }

    /** In a pass, after the first n apps: as many operations are queued as before only if
        none has moved, and a queue may be cut only while none can be emptied. */
    ghost predicate Going(before: Queues, made: Made, apps: seq<string>, n: nat, start: bool, mode: bool)
      requires n <= |apps|
      reads this
    {
      && Total(generated, apps) <= Total(before, apps) && (mode ==> NoneWhole(generated, migrations))
      && (Total(generated, apps) == Total(before, apps) ==> IdleUpTo(before, made, apps, n, start, mode))
    }

    lemma GoingStart(apps: seq<string>, mode: bool)
      requires mode ==> NoneWhole(generated, migrations)
      ensures Going(generated, migrations, apps, 0, mode, mode)
    {}

    lemma GoneOver(before: Queues, made: Made, apps: seq<string>, start: bool, mode: bool)
      requires Going(before, made, apps, |apps|, start, mode) && Elements(apps) == before.Keys
      ensures Total(generated, apps) <= Total(before, apps) && (mode ==> NoneWhole(generated, migrations))
      ensures Total(generated, apps) == Total(before, apps) ==>
          generated == before && mode == start &&
          if start then Stuck(generated, migrations) else NoneWhole(generated, migrations)
    {
      hide Total, Stuck, NoneWhole, StuckUpTo;
      if Total(generated, apps) == Total(before, apps) {
        AllStuck(before, made, apps, start);
      }
    }

    lemma InElements(apps: seq<string>, i: nat)
      requires i < |apps|
      ensures apps[i] in Elements(apps) && apps[i] in apps
    {}

    /** Nothing has moved for the first n apps. */
    ghost predicate IdleUpTo(before: Queues, made: Made, apps: seq<string>, n: nat, chopMode: bool, chopMode': bool)
      requires n <= |apps|
      reads this
    {
      generated == before && migrations == made && chopMode' == chopMode && StuckUpTo(before, made, apps, n, chopMode)
    }

    lemma NotMoved(q: Queues, m: Made, app: string, chopMode: bool, chopMode': bool)
      requires Unmoved(q, m, app, chopMode, chopMode')
      ensures generated == q && migrations == m && chopMode' == chopMode
    {}

    lemma IdleMore(before: Queues, made: Made, q: Queues, m: Made, apps: seq<string>, i: nat, chopMode: bool,
        mode: bool, chopMode': bool)
      requires i < |apps| && Unmoved(q, m, apps[i], mode, chopMode')
      requires q == before && m == made && mode == chopMode && StuckUpTo(before, made, apps, i, chopMode)
      ensures IdleUpTo(before, made, apps, i + 1, chopMode, chopMode')
    {}

    ghost predicate StuckUpTo(q: Queues, m: Made, apps: seq<string>, n: nat, chopMode: bool)
      requires n <= |apps|
    {
      forall i :: 0 <= i < n ==> apps[i] in q && (q[apps[i]] != [] ==> Blocked(q[apps[i]], q, m, apps[i], chopMode))
    }

    lemma AllStuck(q: Queues, m: Made, apps: seq<string>, chopMode: bool)
      requires StuckUpTo(q, m, apps, |apps|, chopMode) && Elements(apps) == q.Keys
      ensures if chopMode then Stuck(q, m) else NoneWhole(q, m)
    {
      hide Ready;
      forall a | a in q && q[a] != []
        ensures Blocked(q[a], q, m, a, chopMode)
      {
        assert a in Elements(apps);
      }
    }

    lemma MovedLess(before: Queues, after: Queues, app: string, apps: seq<string>)
      requires Moved(before, after, app) && app in apps && Distinct(apps)
      ensures Total(after, apps) < Total(before, apps) && after.Keys == before.Keys
    {
      var rest :| |rest| < |before[app]| && after == before[app := rest];
      TotalLess(before, app, rest, apps);
    }

    /** Move every generated operation into a migration. apps are the apps with
        generated operations, leaves the first leaf of each app in the graph, and
        existing the apps that have models already. */
    method BuildMigrationList(apps: seq<string>, leaves: Leaves, existing: set<string>) returns (r: Result<(), string>)
      requires Distinct(apps) && Elements(apps) == generated.Keys && LeavesOfApps(leaves) && migrationApps == []
      modifies this
      ensures Valid(leaves, existing) && queued == old(generated)
      ensures r.Err? <==> HasCycle(QueueOrder(old(generated)))
      ensures r.Ok? ==> forall a :: a in generated ==> generated[a] == []
      ensures AppsInOrder(old(generated)) ==> r.Ok? && OneMigrationEach(old(generated), migrations)
    {
      migrations := map[];
      queued, created, order := generated, [], [];
      SoundStart(generated, leaves);
      hide Sound, NoneWhole, CutsJustified, NeedsExactly, AppsInOrder, OneMigrationEach;
      assert CutsJustified(queued, map[], []) by { NothingCut(queued); }
      assert NeedsExactly(queued, map[], leaves, existing, []) by { NothingNeeded(queued, leaves, existing); }
      var numOps := Count(apps);
      var chopMode := false;
      hide Valid;
      while numOps > 0
        invariant Valid(leaves, existing) && queued == old(generated) && generated.Keys == old(generated.Keys)
        invariant numOps == Total(generated, apps) && (chopMode ==> NoneWhole(generated, migrations))
        decreases numOps, !chopMode
      {
        var chopMode' := Pass(apps, leaves, existing, chopMode);
        var newNum := Count(apps);
        if newNum == numOps {
          if !chopMode' {
            chopMode' := true;
          } else {
            StuckFails(leaves, existing, apps);
            InOrderHasNone(queued);
            return Err("cannot resolve operation dependencies");
          }
        }
        numOps, chopMode := newNum, chopMode';
      }
      DoneSucceeds(leaves, existing, apps);
      return Ok(());
    }

    static lemma InOrderHasNone(q0: Queues)
      ensures AppsInOrder(q0) ==> !HasCycle(QueueOrder(q0))
    {
      if AppsInOrder(q0) {
        InOrderHasNoCircle(q0);
      }
    }

    lemma StuckFails(leaves: Leaves, existing: set<string>, apps: seq<string>)
      requires Valid(leaves, existing) && Stuck(generated, migrations) && Total(generated, apps) > 0
      ensures HasCycle(QueueOrder(queued))
    {
      TotalPositive(generated, apps);
      var a :| a in apps && QueueOf(generated, a) != [];
      StuckMeansCycle(queued, generated, migrations, a);
    }

    lemma DoneSucceeds(leaves: Leaves, existing: set<string>, apps: seq<string>)
      requires Valid(leaves, existing) && Total(generated, apps) == 0 && Elements(apps) == generated.Keys
      ensures !HasCycle(QueueOrder(queued)) && forall a :: a in generated ==> generated[a] == []
      ensures AppsInOrder(queued) ==> OneMigrationEach(queued, migrations)
    {
      TotalPositive(generated, apps);
      forall a | a in generated
        ensures generated[a] == []
      {
        assert a in Elements(apps) && QueueOf(generated, a) == generated[a];
      }
      EmptiedMeansNoCycle(queued, generated, migrations, order);
      hide CutsJustified, NeedsExactly, AppsInOrder, OneMigrationEach, QueueOrder, Served, Traced, LeftInOrder, DatedAt;
      if AppsInOrder(queued) {
        WholeQueues(queued, generated, migrations, created);
      }
    }

    method LinkApps()
      requires Distinct(migrationApps) && Elements(migrationApps) == migrations.Keys
      modifies this`migrations
      ensures migrations == LinkedAll(old(migrations))
    {
      ghost var before := migrations;
      hide Linked;
      var i := 0;
      while i < |migrationApps|
        invariant 0 <= i <= |migrationApps| && migrations.Keys == before.Keys
        invariant forall a :: a in before ==>
          migrations[a] == if a in migrationApps[..i] then Linked(a, before[a], |before[a]|) else before[a]
      {
        var app := migrationApps[i];
        NextApp(migrationApps, i);
        var migs := LinkAll(app, migrations[app]);
        migrations := migrations[app := migs];
        i := i + 1;
      }
      assert forall a :: a in before ==> a in Elements(migrationApps);
      assert migrationApps[..i] == migrationApps;
    }

    method DedupApps()
      requires Distinct(migrationApps) && Elements(migrationApps) == migrations.Keys
      modifies this`migrations
      ensures migrations == DedupedAll(old(migrations))
    {
      ghost var before := migrations;
      hide Deduped;
      var i := 0;
      while i < |migrationApps|
        invariant 0 <= i <= |migrationApps| && migrations.Keys == before.Keys
        invariant forall a :: a in before ==>
          migrations[a] == if a in migrationApps[..i] then Deduped(before[a]) else before[a]
      {
        var app := migrationApps[i];
        NextApp(migrationApps, i);
        var migs := DedupAll(migrations[app]);
        migrations := migrations[app := migs];
        i := i + 1;
      }
      assert forall a :: a in before ==> a in Elements(migrationApps);
      assert migrationApps[..i] == migrationApps;
    }

    static lemma NextApp(apps: seq<string>, i: nat)
      requires Distinct(apps) && i < |apps|
      ensures apps[i] in Elements(apps) && apps[i] !in apps[..i] && apps[..i + 1] == apps[..i] + [apps[i]]
    {}

    /** Put each app's migrations one after the other, and drop repeated
        dependencies. */
    method OptimizeMigrations()
      requires Distinct(migrationApps) && Elements(migrationApps) == migrations.Keys
      modifies this`migrations
      ensures migrations == ChainedAll(old(migrations))
      ensures InChains(old(migrations), migrations)
    {
      ghost var before := migrations;
      LinkApps();
      DedupApps();
      AreInChains(before);
    }

    /** Make every migration but the first depend on the one before it. */
    static method LinkAll(app: string, ms: seq<NewMigration>) returns (r: seq<NewMigration>)
      ensures r == Linked(app, ms, |ms|)
    {
      r := ms;
      LinkedStart(app, ms);
      if ms == [] {
        return;
      }
      hide Linked;
      var i := 1;
      while i < |ms|
        invariant 1 <= i <= |ms| && r == Linked(app, ms, i)
      {
        LinkedStep(app, ms, i);
        r := r[i := r[i].(dependencies := r[i].dependencies + [Key(app, r[i - 1].name)])];
        i := i + 1;
      }
    }

    static method DedupAll(ms: seq<NewMigration>) returns (r: seq<NewMigration>)
      ensures r == Deduped(ms)
    {
      r := [];
      var i := 0;
      while i < |ms|
        invariant 0 <= i <= |ms| && |r| == i
        invariant forall j :: 0 <= j < i ==> r[j] == ms[j].(dependencies := Dedup(ms[j].dependencies))
      {
        var seen, deps, j := {}, [], 0;
        while j < |ms[i].dependencies|
          invariant 0 <= j <= |ms[i].dependencies|
          invariant seen == Elements(ms[i].dependencies[..j]) && deps == Dedup(ms[i].dependencies[..j])
        {
          var d := ms[i].dependencies[j];
          assert ms[i].dependencies[..j + 1] == ms[i].dependencies[..j] + [d];
          if d !in seen {
            seen := seen + {d};
            deps := deps + [d];
          }
          j := j + 1;
        }
        assert ms[i].dependencies[..j] == ms[i].dependencies;
        r := r + [ms[i].(dependencies := deps)];
        i := i + 1;
      }
    }
  }
}
