/** The executor's planner, the order in which a plan runs, and what is recorded. */
module Executor {
  import opened Digraph
  import opened Keys
  import opened Wrappers
  import opened Graph
  import opened DepthFirst
  import opened Traversal
  import opened Plans
  import opened Squashes

  /** NilNode stands for a panic, not for an error value: a target that counts as
      applied and has no node is dereferenced all the same. */
  datatype PlanError = NotANode(node: Key) | NilNode(node: Key) | NotLoaded

  /** What the planner reads of a loader. */
  datatype LoaderView = LoaderView(graph: Graph, applied: set<Key>)

  class Executor {
    var replaceMigrations: bool
    var loader: LoaderView
    // what building the loader again, without replacements, gives, if that succeeds
    const plain: Option<LoaderView>

    constructor (loader: LoaderView, plain: Option<LoaderView>, replaceMigrations: bool)
      ensures this.loader == loader && this.plain == plain && this.replaceMigrations == replaceMigrations
    {
      this.loader, this.plain, this.replaceMigrations := loader, plain, replaceMigrations;
    }

    ghost predicate Ready()
      reads this, loader.graph, loader.graph.nodeMap.Values
      reads if plain.Some? then {plain.value.graph} + plain.value.graph.nodeMap.Values else {}
    {
      && loader.graph.Valid() && Acyclic(loader.graph)
      && (plain.Some? ==> plain.value.graph.Valid() && Acyclic(plain.value.graph))
    }

    ghost function E(): set<(Key, Key)>
      reads this, loader.graph, loader.graph.nodeMap.Values
    {
      loader.graph.Edges()
    }

    ghost function V(): set<Key>
      reads this, loader.graph
    {
      loader.graph.nodeMap.Keys
    }

    /** Where planning starts from. */
    ghost function Start(cleanStart: bool): set<Key>
      reads this
    {
      if cleanStart then {} else loader.applied
    }

    /** Plans the steps to the targets. A target that is not in the graph makes
        the executor fall back, once and for all, to the graph without
        replacements; if it is not there either, planning fails. */
    method MigrationPlan(targets: seq<Key>, cleanStart: bool) returns (r: Result<Plan, PlanError>)
      requires Ready()
      modifies this
      ensures Ready() && (loader == old(loader) ||
        (plain == Some(loader) && old(replaceMigrations) && !replaceMigrations))
      ensures r == Err(NotLoaded) <==> plain.None? && old(replaceMigrations) && !Known(old(V()), targets)
      ensures !old(replaceMigrations) ==> !replaceMigrations
      ensures r.Ok? <==> Known(V(), targets)
      ensures r.Ok? ==> r.value == PlanTargets(E(), V(), Start(cleanStart), targets)
      ensures old(replaceMigrations) && Known(old(V()), targets) ==> loader == old(loader)
      decreases replaceMigrations
    {
      hide Graph.Valid, Graph.Edges, Known, PlanTargets;
      loader.graph.KeysAgree();
      var missing: bool;
      r, missing := PlanUntil(loader.graph, targets, if cleanStart then {} else loader.applied, replaceMigrations, E(),
        V());
      if missing {
        replaceMigrations := false;
        if plain.None? {
          return Err(NotLoaded);
        }
        loader := plain.value;
        r := MigrationPlan(targets, cleanStart);
      }
    }
  }

  /** Plans one target after the other, up to the first that is missing while there are
      replacements. */
  method PlanUntil(g: Graph, targets: seq<Key>, applied0: set<Key>, replacing: bool, ghost e: set<(Key, Key)>,
      ghost v: set<Key>)
    returns (r: Result<Plan, PlanError>, missing: bool)
    requires g.Valid() && Acyclic(g) && e == g.Edges() && v == g.nodeMap.Keys && Within(e, v) && !HasCycle(e)
    ensures missing <==> replacing && !Known(v, targets)
    ensures r.Ok? <==> Known(v, targets)
    ensures r.Ok? ==> r.value == PlanTargets(e, v, applied0, targets)
    ensures r.Err? ==> r.error != NotLoaded
  {
    var plan: Plan := [];
    var applied := applied0;
    assert targets[..0] == [];
    hide Graph.Valid, Graph.Edges, HasCycle, Within, Known, PlanTargets, TargetSteps, Run;
    EmptyPlan(e, v, applied0);
    for i := 0 to |targets|
      invariant Known(v, targets[..i]) && plan == PlanTargets(e, v, applied0, targets[..i])
      invariant applied == Run(applied0, plan)
    {
      var target := targets[i];
      KnownSoFar(v, targets, i);
      if target.name != "" && replacing && target !in g.nodeMap {
        return Err(NotANode(target)), true;
      }
      var planned, after := PlanTarget(g, target, applied, e, v);
      if planned.Err? {
        return planned, false;
      }
      RunAppend(e, applied0, plan, planned.value);
      PlanOneMore(e, v, applied0, targets, i);
      plan, applied := plan + planned.value, after;
    }
    assert targets[..|targets|] == targets;
    return Ok(plan), false;
  }

  lemma EmptyPlan(e: set<(Key, Key)>, v: set<Key>, applied: set<Key>)
    requires Within(e, v) && !HasCycle(e)
    ensures Known(v, []) && PlanTargets(e, v, applied, []) == [] && Run(applied, []) == applied
  {}

  lemma KnownSoFar(v: set<Key>, targets: seq<Key>, i: nat)
    requires i < |targets|
    ensures Known(v, targets[..i + 1]) <==> Known(v, targets[..i]) && (targets[i].name == "" || targets[i] in v)
    ensures targets[i].name != "" && targets[i] !in v ==> !Known(v, targets)
  {
    assert targets[..i + 1] == targets[..i] + [targets[i]];
  }

  lemma PlanOneMore(e: set<(Key, Key)>, v: set<Key>, start: set<Key>, targets: seq<Key>, i: nat)
    requires Within(e, v) && !HasCycle(e) && i < |targets| && Known(v, targets[..i + 1]) && Known(v, targets[..i])
    requires targets[i].name == "" || targets[i] in v
    ensures var p := PlanTargets(e, v, start, targets[..i]);
      PlanTargets(e, v, start, targets[..i + 1]) == p + TargetSteps(e, v, Run(start, p), targets[i])
  {
    assert targets[..i + 1][..i] == targets[..i];
    hide Within, HasCycle, Known, Run, TargetSteps;
  }

  // --- The steps of one target ---

  method PlanTarget(g: Graph, target: Key, applied0: set<Key>, ghost e: set<(Key, Key)>, ghost v: set<Key>)
    returns (r: Result<Plan, PlanError>, applied: set<Key>)
    requires g.Valid() && Acyclic(g) && e == g.Edges() && v == g.nodeMap.Keys && Within(e, v) && !HasCycle(e)
    ensures r.Ok? <==> target.name == "" || target in v
    ensures r.Ok? ==> r.value == TargetSteps(e, v, applied0, target) && applied == Run(applied0, r.value)
    ensures r.Err? ==> r.error != NotLoaded
  {
    hide Graph.Valid, Graph.Edges, HasCycle, Within, UndoSteps, PlanFor, ForwardSteps, Run;
    g.KeysAgree();
    applied := applied0;
    var steps: Plan;
    if target.name == "" {
      steps, applied := PlanZero(g, target, applied0, e, v);
    } else if target in applied0 {
      if target !in g.nodeMap {
        return Err(NilNode(target)), applied;
      }
      steps, applied := PlanBack(g, target, applied0, e, v);
    } else {
      if !g.Has(target) {
        return Err(NotANode(target)), applied;
      }
      steps, applied := PlanForward(g, target, applied0, e, v);
    }
    r := Ok(steps);
  }

  method PlanForward(g: Graph, target: Key, applied0: set<Key>, ghost e: set<(Key, Key)>, ghost v: set<Key>)
    returns (steps: Plan, applied: set<Key>)
    requires g.Valid() && Acyclic(g) && e == g.Edges() && v == g.nodeMap.Keys && target in v
    ensures steps == ForwardSteps(PlanFor(e, v, target, true), applied0) && applied == Run(applied0, steps)
  {
    var fp := IterativeDFS(g, target, true);
    ForwardPlanCovers(e, v, target);
    steps, applied := ApplyMissing(fp, applied0);
    ForwardStepsSafe(e, fp, applied0);
  }

  method ApplyMissing(fp: seq<Key>, applied0: set<Key>) returns (steps: Plan, applied: set<Key>)
    requires Distinct(fp)
    ensures steps == ForwardSteps(fp, applied0) && applied == applied0 + Elements(fp)
  {
    steps, applied := [], applied0;
    for i := 0 to |fp|
      invariant steps == ForwardSteps(fp[..i], applied0) && applied == applied0 + Elements(fp[..i])
    {
      var k := fp[i];
      assert fp[..i + 1][..i] == fp[..i] && fp[..i + 1] == fp[..i] + [k];
      ElementsSnoc(fp[..i], k);
      if k !in applied {
        steps := steps + [PlanStep(k, false)];
        applied := applied + {k};
      } else {
        assert steps + [] == steps;
      }
    }
    assert fp[..|fp|] == fp;
  }

  method UndoOne(g: Graph, k: Key, applied0: set<Key>, ghost e: set<(Key, Key)>, ghost v: set<Key>)
    returns (steps: Plan, applied: set<Key>)
    requires g.Valid() && Acyclic(g) && e == g.Edges() && v == g.nodeMap.Keys && k in v
    ensures steps == BackwardSteps(PlanFor(e, v, k, false), applied0) && applied == Run(applied0, steps)
  {
    var bp := IterativeDFS(g, k, false);
    BackwardPlanCovers(e, v, k);
    steps, applied := UnapplyPresent(bp, applied0);
    BackwardStepsSafe(e, bp, applied0);
  }

  method UnapplyPresent(bp: seq<Key>, applied0: set<Key>) returns (steps: Plan, applied: set<Key>)
    requires Distinct(bp)
    ensures steps == BackwardSteps(bp, applied0) && applied == applied0 - Elements(bp)
  {
    steps, applied := [], applied0;
    for i := 0 to |bp|
      invariant steps == BackwardSteps(bp[..i], applied0) && applied == applied0 - Elements(bp[..i])
    {
      var k := bp[i];
      assert bp[..i + 1][..i] == bp[..i] && bp[..i + 1] == bp[..i] + [k];
      ElementsSnoc(bp[..i], k);
      if k in applied {
        steps := steps + [PlanStep(k, true)];
        applied := applied - {k};
      } else {
        assert steps + [] == steps;
      }
    }
    assert bp[..|bp|] == bp;
  }

  /** The keys of one app, in order. */
  ghost function OfApp(ks: seq<Key>, app: string): seq<Key>
    decreases |ks|
  {
    if ks == [] then []
    else OfApp(ks[..|ks| - 1], app) + if ks[|ks| - 1].app == app then [ks[|ks| - 1]] else []
  }

  lemma {:induction false} OfAppOrdered(ks: seq<Key>, app: string)
    requires Ascending(ks)
    ensures Ascending(OfApp(ks, app)) && forall k :: k in OfApp(ks, app) <==> k in ks && k.app == app
    decreases |ks|
  {
    if ks != [] {
      var rest, k := ks[..|ks| - 1], ks[|ks| - 1];
      assert ks == rest + [k];
      OfAppOrdered(rest, app);
      var f := OfApp(rest, app);
      forall i | 0 <= i < |f|
        ensures Less(f[i], k)
      {
        assert f[i] in rest;
        var j :| 0 <= j < |rest| && rest[j] == f[i];
        assert ks[j] == rest[j];
      }
    }
  }

  /** Undoes the keys of one app, one after the other. */
  method UndoAll(g: Graph, ks: seq<Key>, app: string, applied0: set<Key>, ghost e: set<(Key, Key)>, ghost v: set<Key>)
    returns (steps: Plan, applied: set<Key>)
    requires g.Valid() && Acyclic(g) && e == g.Edges() && v == g.nodeMap.Keys
    requires forall k :: k in ks || k in OfApp(ks, app) ==> k in v
    ensures steps == UndoSteps(e, v, OfApp(ks, app), applied0) && applied == Run(applied0, steps)
  {
    hide Graph.Valid, Graph.Edges, HasCycle, Within;
    steps, applied := [], applied0;
    ghost var done: seq<Key> := [];
    for i := 0 to |ks|
      invariant done == OfApp(ks[..i], app) && forall k :: k in done ==> k in v
      invariant steps == UndoSteps(e, v, done, applied0) && applied == Run(applied0, steps)
    {
      assert ks[..i + 1][..i] == ks[..i] && ks[..i + 1][i] == ks[i];
      if ks[i].app == app {
        var more;
        ghost var before := steps;
        more, applied := UndoOne(g, ks[i], applied, e, v);
        RunAppend(e, applied0, steps, more);
        assert (done + [ks[i]])[..|done|] == done;
        done := done + [ks[i]];
        steps := steps + more;
      } else {
        assert done + [] == done;
      }
    }
    assert ks[..|ks|] == ks;
  }

  /** Unapplies everything of an app, from its roots on. */
  method PlanZero(g: Graph, target: Key, applied0: set<Key>, ghost e: set<(Key, Key)>, ghost v: set<Key>)
    returns (steps: Plan, applied: set<Key>)
    requires g.Valid() && Acyclic(g) && e == g.Edges() && v == g.nodeMap.Keys && target.name == ""
    ensures steps == TargetSteps(e, v, applied0, target) && applied == Run(applied0, steps)
  {
    hide Graph.Valid, Graph.Edges, HasCycle, Within, UndoSteps;
    var roots := RootNodes(g, "", e);
    ghost var ends := EndsOf(Flip(e), v, "");
    SortedAscends(ends);
    OfAppOrdered(roots, target.app);
    UndoneKnown(e, v, target);
    SortedIs(Undone(e, v, target), OfApp(roots, target.app));
    steps, applied := UndoAll(g, roots, target.app, applied0, e, v);
  }

  /** Unapplies what depends on a migration inside its app. */
  method PlanBack(g: Graph, target: Key, applied0: set<Key>, ghost e: set<(Key, Key)>, ghost v: set<Key>)
    returns (steps: Plan, applied: set<Key>)
    requires g.Valid() && Acyclic(g) && e == g.Edges() && v == g.nodeMap.Keys
    requires target in v && target in applied0 && target.name != ""
    ensures steps == TargetSteps(e, v, applied0, target) && applied == Run(applied0, steps)
  {
    hide Graph.Valid, Graph.Edges, HasCycle, UndoSteps;
    var next := NextKeys(g, target, false, e);
    SortedAscends(Succ(e, target));
    OfAppOrdered(next, target.app);
    UndoneKnown(e, v, target);
    SortedIs(Undone(e, v, target), OfApp(next, target.app));
    forall k | k in next
      ensures k in v
    {
      assert (target, k).1 in v;
    }
    steps, applied := UndoAll(g, next, target.app, applied0, e, v);
  }

  /** The order in which the migrations of a forward plan are applied: that of the
      full plan, until none is left. */
  method MigrateAllForwards(plan: seq<Key>, full: seq<Key>) returns (executed: seq<Key>)
    requires Distinct(full)
    ensures executed == Chosen(full, Elements(plan))
  {
    var toRun := Elements(plan);
    executed := [];
    ghost var todo := toRun;
    for i := 0 to |full|
      invariant executed == Chosen(full[..i], todo)
      invariant toRun == todo - Elements(full[..i])
    {
      assert full[..i + 1][..i] == full[..i] && full[..i + 1] == full[..i] + [full[i]];
      ElementsSnoc(full[..i], full[i]);
      if toRun == {} {
        NothingChosen(full, i, todo);
        return;
      }
      if full[i] in toRun {
        executed := executed + [full[i]];
        toRun := toRun - {full[i]};
      } else {
        assert executed + [] == executed;
      }
    }
    assert full[..|full|] == full;
  }

  lemma {:induction false} NothingChosen(full: seq<Key>, i: nat, todo: set<Key>)
    requires Distinct(full) && i <= |full| && todo <= Elements(full[..i])
    ensures Chosen(full, todo) == Chosen(full[..i], todo)
    decreases |full|
  {
    if i < |full| {
      var rest := full[..|full| - 1];
      assert rest[..i] == full[..i];
      NothingChosen(rest, i, todo);
      assert Chosen(rest, todo) + [] == Chosen(rest, todo);
    } else {
      assert full[..i] == full;
    }
  }

  // --- What is recorded ---

  /** The recorder's table of applied migrations, with the declarations it is read against. */
  class Recorder {
    const diskMigrations: map<Key, Migration>
    const replacements: Replacements
    var recorded: set<Key>

    constructor (diskMigrations: map<Key, Migration>, replacements: Replacements, recorded: set<Key>)
      ensures this.diskMigrations == diskMigrations && this.replacements == replacements && this.recorded == recorded
    {
      this.diskMigrations, this.replacements, this.recorded := diskMigrations, replacements, recorded;
    }

    ghost predicate Declared() {
      && (forall k :: k in replacements <==> k in diskMigrations && diskMigrations[k].squashes != [])
      && (forall k :: k in replacements ==> replacements[k] == diskMigrations[k])
      && !HasCycle(SquashEdges(replacements))
    }

    /** Records a migration together with everything it replaces, through any
        number of squashes, or takes all of that out of the record. */
    method RecordMigration(k: Key, forward: bool, ghost rank: map<Key, nat>, ghost count: nat)
      requires Declared() && SubRanked(replacements, rank, count) && rank.Keys == replacements.Keys
      modifies this
      ensures forall x :: x in recorded <==>
        if Reaches(SquashEdges(replacements), k, x) then forward else x in old(recorded)
      decreases if k in rank then rank[k] + 1 else 0
    {
      ghost var e := SquashEdges(replacements);
      if k in diskMigrations {
        var listed := diskMigrations[k].squashes;
        for i := 0 to |listed|
          invariant forall x :: x in recorded <==>
            if ReachedFromListed(e, listed[..i], x) then forward else x in old(recorded)
        {
          assert listed != [] && k in replacements;
          RecordMigration(listed[i], forward, rank, count);
          assert listed[..i + 1] == listed[..i] + [listed[i]];
        }
        assert listed[..|listed|] == listed;
      }
      forall x
        ensures Reaches(e, k, x) <==> x == k || (k in diskMigrations && ReachedFromListed(e, diskMigrations[k].squashes, x))
      {
        ReachedThroughListed(replacements, k, x);
      }
      if forward {
        recorded := recorded + {k};
      } else {
        recorded := recorded - {k};
      }
    }

    /** Marks the squashes whose replaced migrations all count as applied. One pass
        reaches the least record that is closed under this. */
    method CheckReplacements()
      requires Declared()
      modifies this
      ensures old(recorded) <= recorded && ReplacementClosed(replacements, recorded)
      ensures forall done :: old(recorded) <= done && ReplacementClosed(replacements, done) ==> recorded <= done
    {
      var applied := recorded;
      ghost var rank, count := AcyclicSubRanked(replacements);
      OnePassIsLeastFixedPoint(replacements, applied, rank, count);
      hide ReplacementClosed;
      var reps := ListKeys(replacements.Keys);
      for i := 0 to |reps|
        invariant forall x :: x in recorded <==>
          x in applied || (x in reps[..i] && AllReplacedApplied(replacements, x, applied, rank, count))
      {
        var k := reps[i];
        assert reps[..i + 1] == reps[..i] + [k];
        if k !in applied && AllReplacedApplied(replacements, k, applied, rank, count) {
          recorded := recorded + {k};
        }
      }
      assert reps[..|reps|] == reps;
      assert recorded == MarkedBy(replacements, applied, rank, count);
    }
  }

  ghost predicate ReachedFromListed(e: set<(Key, Key)>, listed: seq<Key>, x: Key) {
    exists y :: y in listed && Reaches(e, y, x)
  }

  lemma ReachedThroughListed(r: Replacements, k: Key, x: Key)
    ensures Reaches(SquashEdges(r), k, x) <==> x == k || (k in r && ReachedFromListed(SquashEdges(r), r[k].squashes, x))
  {
    var e := SquashEdges(r);
    if x == k {
      ReachesSelf(e, k);
    } else if Reaches(e, k, x) {
      var y := ReachesFirstStep(e, k, x);
      SquashEdge(r, k, y);
    } else if k in r && ReachedFromListed(e, r[k].squashes, x) {
      var y :| y in r[k].squashes && Reaches(e, y, x);
      SquashEdge(r, k, y);
      ReachesEdge(e, k, y);
      ReachesTrans(e, k, y, x);
      assert false;
    }
  }
}
