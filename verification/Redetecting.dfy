/** Detecting changes again, in the state the first changes lead to. */
module Redetecting {
  import opened Wrappers
  import opened Digraph
  import opened Names
  import opened ModelStates
  import opened Operations
  import opened States
  import opened ModelDiff
  import opened ModelConvergence
  import opened Convergence
  import opened Detecting

  // --- Applying operations of several apps ---

  datatype Located = Located(app: string, op: Operation)

  /** The state after the operations, each in its app. */
  ghost function Applied(run: seq<Located>, s: State): Result<State, StateError> {
    if run == [] then Ok(s)
    else
      match Applied(run[..|run| - 1], s)
      case Err(e) => Err(e)
      case Ok(next) => Forwards(run[|run| - 1].op, run[|run| - 1].app, next)
  }

  ghost predicate IsFor(x: Located, k: ModelKey) {
    x.app == k.app && ChangedModel(x.op) == Some(k.model)
  }

  /** The operations of the run that change the model at k, in order. */
  ghost function RunFor(run: seq<Located>, k: ModelKey): seq<Operation> {
    if run == [] then []
    else RunFor(run[..|run| - 1], k) + if IsFor(run[|run| - 1], k) then [run[|run| - 1].op] else []
  }

  /** Models are kept under their names in lower case. */
  ghost predicate Keyed(s: State) {
    forall k :: k in s ==> Lower(k.model) == k.model
  }

  /** Every operation changes one model, which the state has. */
  ghost predicate RunsOn(run: seq<Located>, s: State) {
    forall i :: 0 <= i < |run| ==> ChangedModel(run[i].op).Some? && ModelKey(run[i].app, ChangedModel(run[i].op).value) in s
  }

  /** The run is a run of each model by itself. */
  ghost predicate RunsEach(run: seq<Located>, s: State, r: State) {
    r.Keys == s.Keys && forall k :: k in s ==> RunAll(RunFor(run, k), k.app, s[k]) == Ok(r[k])
  }

  lemma OneForward(x: Located, s: State, k: ModelKey)
    requires IsFor(x, k) && k in s && Lower(k.model) == k.model && ChangeModel(x.op, x.app, s[k]).Ok?
    ensures Forwards(x.op, x.app, s) == Ok(s[k := ChangeModel(x.op, x.app, s[k]).value])
  {}

  ghost predicate EachRuns(run: seq<Located>, s: State) {
    forall k :: k in s ==> RunAll(RunFor(run, k), k.app, s[k]).Ok?
  }

  lemma FrontRuns(run: seq<Located>, s: State)
    requires run != [] && EachRuns(run, s) && RunsOn(run, s)
    ensures EachRuns(run[..|run| - 1], s) && RunsOn(run[..|run| - 1], s)
  {
    hide RunAll, RunFor, RunsOn;
    forall k | k in s
      ensures RunAll(RunFor(run[..|run| - 1], k), k.app, s[k]).Ok?
    {
      OneMoreRun(run, k, s[k]);
    }
    hide EachRuns;
    FrontRunsOn(run, s);
  }

  lemma FrontRunsOn(run: seq<Located>, s: State)
    requires run != [] && RunsOn(run, s)
    ensures RunsOn(run[..|run| - 1], s)
    ensures ChangedModel(run[|run| - 1].op).Some? &&
      ModelKey(run[|run| - 1].app, ChangedModel(run[|run| - 1].op).value) in s
  {
    hide ChangedModel;
    assert forall i :: 0 <= i < |run| - 1 ==> run[..|run| - 1][i] == run[i];
  }

  /** The last operation changes its model. */
  lemma LastForward(run: seq<Located>, s: State, next: State, key: ModelKey)
    requires run != [] && Keyed(s) && EachRuns(run, s) && RunsEach(run[..|run| - 1], s, next)
    requires key in s && IsFor(run[|run| - 1], key)
    ensures var x := run[|run| - 1];
      && ChangeModel(x.op, x.app, next[key]).Ok?
      && Forwards(x.op, x.app, next) == Ok(next[key := ChangeModel(x.op, x.app, next[key]).value])
      && RunAll(RunFor(run, key), key.app, s[key]) == ChangeModel(x.op, x.app, next[key])
  {
    StillEach(run, s, key);
    FrontEach(run[..|run| - 1], s, next, key);
    assert Lower(key.model) == key.model;
    hide RunAll, RunFor, ChangeModel, Forwards, EachRuns, RunsEach, Keyed;
    OneMoreRun(run, key, s[key]);
    OneForward(run[|run| - 1], next, key);
  }

  lemma FrontEach(run: seq<Located>, s: State, next: State, k: ModelKey)
    requires RunsEach(run, s, next) && k in s
    ensures k in next && RunAll(RunFor(run, k), k.app, s[k]) == Ok(next[k])
  {}

  /** An operation on another model leaves the model as it is. */
  lemma OtherRuns(run: seq<Located>, s: State, next: State, k: ModelKey)
    requires run != [] && EachRuns(run, s) && RunsEach(run[..|run| - 1], s, next)
    requires k in s && !IsFor(run[|run| - 1], k)
    ensures RunAll(RunFor(run, k), k.app, s[k]) == Ok(next[k])
  {
    StillEach(run, s, k);
    FrontEach(run[..|run| - 1], s, next, k);
    hide RunAll, RunFor, EachRuns, RunsEach, IsFor;
    OneMoreRun(run, k, s[k]);
  }

  /** The state after the front of the run, and after its last operation. */
  lemma LastRuns(run: seq<Located>, s: State, next: State)
    requires run != [] && Keyed(s) && EachRuns(run, s) && RunsOn(run, s) && RunsEach(run[..|run| - 1], s, next)
    ensures var x := run[|run| - 1];
      Forwards(x.op, x.app, next).Ok? && RunsEach(run, s, Forwards(x.op, x.app, next).value)
  {
    var x := run[|run| - 1];
    FrontRunsOn(run, s);
    var key := ModelKey(x.app, ChangedModel(x.op).value);
    assert next.Keys == s.Keys && IsFor(x, key) && forall k :: IsFor(x, k) ==> k == key;
    hide RunAll, RunFor, RunsOn, ChangeModel, ChangedModel, Forwards, EachRuns, Keyed, RunsEach, IsFor;
    LastForward(run, s, next, key);
    forall k | k in s && k != key
      ensures RunAll(RunFor(run, k), k.app, s[k]) == Ok(next[k])
    {
      OtherRuns(run, s, next, k);
    }
    RunsEachIs(run, s, next, key, ChangeModel(x.op, x.app, next[key]).value);
  }

  lemma RunsEachIs(run: seq<Located>, s: State, next: State, key: ModelKey, m: ModelState)
    requires next.Keys == s.Keys && key in s && RunAll(RunFor(run, key), key.app, s[key]) == Ok(m)
    requires forall k :: k in s && k != key ==> RunAll(RunFor(run, k), k.app, s[k]) == Ok(next[k])
    ensures RunsEach(run, s, next[key := m])
  {
    hide RunAll, RunFor;
  }

  lemma StillEach(run: seq<Located>, s: State, k: ModelKey)
    requires EachRuns(run, s) && k in s
    ensures RunAll(RunFor(run, k), k.app, s[k]).Ok?
  {}

  /** Operations on different models do not meet: in whatever order those of different
      models come, each model ends as under its own operations alone. */
  lemma {:induction false} ModelByModel(run: seq<Located>, s: State)
    requires Keyed(s) && RunsOn(run, s) && EachRuns(run, s)
    ensures Applied(run, s).Ok? && RunsEach(run, s, Applied(run, s).value)
    decreases |run|
  {
    if run != [] {
      FrontRuns(run, s);
      hide Forwards, RunsOn, EachRuns, RunsEach;
      ModelByModel(run[..|run| - 1], s);
      LastRuns(run, s, Applied(run[..|run| - 1], s).value);
    }
  }

  lemma OneMoreRun(run: seq<Located>, k: ModelKey, m: ModelState)
    requires run != [] && RunAll(RunFor(run, k), k.app, m).Ok?
    ensures var front, x := run[..|run| - 1], run[|run| - 1];
      && RunAll(RunFor(front, k), k.app, m).Ok?
      && (!IsFor(x, k) ==> RunFor(run, k) == RunFor(front, k))
      && (IsFor(x, k) ==> RunAll(RunFor(run, k), k.app, m) == ChangeModel(x.op, k.app, RunAll(RunFor(front, k), k.app, m).value))
  {
    var front, x := run[..|run| - 1], run[|run| - 1];
    var ops := RunFor(front, k);
    assert ops + [] == ops;
    if IsFor(x, k) {
      assert (ops + [x.op])[..|ops|] == ops;
    }
    hide ChangeModel;
  }

  // --- The second comparison ---

  ghost predicate WellKeptState(s: State) {
    Keyed(s) && forall k :: k in s ==> WellKept(s[k], k.app)
  }

  /** The run holds what the comparison generated, each model's operations in order. */
  ghost predicate Runs(run: seq<Located>, c: Comparison, q: Questioner, o: FieldOrders) {
    && (forall i :: 0 <= i < |run| ==> ChangedModel(run[i].op).Some?)
    && forall k :: RunFor(run, k) == PlanAt(c, q, k, o)
  }

  function KindAt(c: Comparison, k: ModelKey): Kind
    requires k in c.from && k in c.to
  {
    KindOf(c.from[k], c.to[k], k.app, c.realApps, c.convertApps)
  }

  /** The comparison from the state that the first one's operations lead to. */
  function From(c: Comparison, s: State): Comparison {
    c.(from := s)
  }

  /** A model that becomes managed, or stops being managed, is compared with its
      fields only the next time. There is nothing to find then when the two agree
      already in what is compared then. */
  ghost predicate AgreesAlready(c: Comparison, k: ModelKey)
    requires k in c.from && k in c.to
  {
    if !IsManaged(c.to[k].options) then OutlineAgrees(c.from[k], c.to[k])
    else k.app !in c.realApps ==> Agrees(c.from[k], c.to[k], k.app)
  }

  ghost predicate SettledAt(c: Comparison, k: ModelKey) {
    k in c.from && k in c.to && KindAt(c, k) == Switched ==> AgreesAlready(c, k)
  }

  lemma {:induction false} RunForSome(run: seq<Located>, i: nat, k: ModelKey)
    requires i < |run| && IsFor(run[i], k)
    ensures RunFor(run, k) != []
    decreases |run|
  {
    if i < |run| - 1 {
      RunForSome(run[..|run| - 1], i, k);
    }
  }

  lemma RunsStayInside(run: seq<Located>, c: Comparison, q: Questioner, o: FieldOrders)
    requires Runs(run, c, q, o)
    ensures RunsOn(run, c.from)
  {
    forall i | 0 <= i < |run|
      ensures ModelKey(run[i].app, ChangedModel(run[i].op).value) in c.from
    {
      RunForSome(run, i, ModelKey(run[i].app, ChangedModel(run[i].op).value));
    }
  }

  /** One model, after its plan. */
  lemma PlanAtRuns(c: Comparison, q: Questioner, k: ModelKey, o: FieldOrders) returns (r: ModelState)
    requires WellKeptState(c.from) && WellKeptState(c.to) && OrdersAll(c, o) && AllPromptsAnswered(c, q, o) &&
      k in c.from
    ensures RunAll(PlanAt(c, q, k, o), k.app, c.from[k]) == Ok(r)
    ensures k !in c.to ==> r == c.from[k]
    ensures k in c.to && KindAt(c, k) == NotCompared ==> r == c.from[k]
    ensures k in c.to && KindAt(c, k) == Switched ==>
      r == c.from[k].(options := c.from[k].options.(managed := c.to[k].options.managed))
    ensures k in c.to && KindAt(c, k) != NotCompared ==> r.options.managed == c.to[k].options.managed
    ensures k in c.to && KindAt(c, k) == Kept ==> Agrees(r, c.to[k], k.app)
    ensures k in c.to && KindAt(c, k) == KeptUnmanaged ==> OutlineAgrees(r, c.to[k])
  {
    if k in c.to {
      assert IsKept(c, k) ==> Orders(OrderAt(o, k), c.from[k].fields, c.to[k].fields);
      assert IsKept(c, k) ==> Answered(q, k, c.from[k].fields, c.to[k].fields, OrderAt(o, k));
      hide OrdersAll, AllPromptsAnswered, RunAll, Plan, WellKept, Orders, Answered, KindOf, NamesIn, Agrees,
        OutlineAgrees;
      r := PlanRuns(q, KindAt(c, k), k, c.from[k], c.to[k], OrderAt(o, k));
    } else {
      r := c.from[k];
    }
  }

  /** The operations that were generated can be applied, in any order that keeps those
      of each model in order. */
  lemma GeneratedApplies(c: Comparison, q: Questioner, o: FieldOrders, run: seq<Located>)
    requires WellKeptState(c.from) && WellKeptState(c.to) && OrdersAll(c, o) && AllPromptsAnswered(c, q, o) &&
      Runs(run, c, q, o)
    ensures Applied(run, c.from).Ok? && RunsEach(run, c.from, Applied(run, c.from).value)
  {
    RunsStayInside(run, c, q, o);
    forall k | k in c.from
      ensures RunAll(RunFor(run, k), k.app, c.from[k]).Ok?
    {
      assert RunFor(run, k) == PlanAt(c, q, k, o);
      hide Runs, PlanAt, RunAll, OrdersAll, AllPromptsAnswered, WellKept;
      var r := PlanAtRuns(c, q, k, o);
    }
    assert EachRuns(run, c.from);
    hide Runs, OrdersAll, AllPromptsAnswered, WellKept, RunsOn, PlanAt, EachRuns;
    ModelByModel(run, c.from);
  }

  /** The second comparison finds nothing for a model whose way of being compared
      does not change, and for one whose way does change exactly when the two agreed
      already. */
  lemma SecondPlanAt(
      c: Comparison, q: Questioner, q2: Questioner, o: FieldOrders, run: seq<Located>, k: ModelKey, o2: FieldOrders)
    requires WellKeptState(c.from) && WellKeptState(c.to) && OrdersAll(c, o) && AllPromptsAnswered(c, q, o) &&
      Runs(run, c, q, o)
    requires Applied(run, c.from).Ok? && OrdersAll(From(c, Applied(run, c.from).value), o2)
    requires AllPromptsAnswered(From(c, Applied(run, c.from).value), q2, o2)
    ensures var c2 := From(c, Applied(run, c.from).value);
      PlanAt(c2, q2, k, o2) == [] <==> SettledAt(c, k)
  {
    GeneratedApplies(c, q, o, run);
    var s2 := Applied(run, c.from).value;
    var c2 := From(c, s2);
    if k !in c.from || k !in c.to {
      return;
    }
    assert RunAll(RunFor(run, k), k.app, c.from[k]) == Ok(s2[k]) && RunFor(run, k) == PlanAt(c, q, k, o);
    assert IsKept(c2, k) ==> Orders(OrderAt(o2, k), s2[k].fields, c.to[k].fields);
    assert IsKept(c2, k) ==> Answered(q2, k, s2[k].fields, c.to[k].fields, OrderAt(o2, k));
    assert WellKept(c.to[k], k.app);
    var r := PlanAtRuns(c, q, k, o);
    SecondPlanOf(c, q2, k, r, OrderAt(o2, k));
  }

  lemma SecondPlanOf(c: Comparison, q2: Questioner, k: ModelKey, r: ModelState, order2: Order)
    requires k in c.from && k in c.to && WellKept(c.to[k], k.app)
    requires var kind := KindAt(c, k);
      && (kind == NotCompared ==> r == c.from[k])
      && (kind == Switched ==> r == c.from[k].(options := c.from[k].options.(managed := c.to[k].options.managed)))
      && (kind != NotCompared ==> r.options.managed == c.to[k].options.managed)
      && (kind == Kept ==> Agrees(r, c.to[k], k.app))
      && (kind == KeptUnmanaged ==> OutlineAgrees(r, c.to[k]))
    requires KindOf(r, c.to[k], k.app, c.realApps, c.convertApps) == Kept ==>
      Orders(order2, r.fields, c.to[k].fields) && Answered(q2, k, r.fields, c.to[k].fields, order2)
    ensures var kind2 := KindOf(r, c.to[k], k.app, c.realApps, c.convertApps);
      Plan(q2, kind2, k, r, c.to[k], order2) == [] <==> (KindAt(c, k) == Switched ==> AgreesAlready(c, k))
  {
    var kind, kind2 := KindAt(c, k), KindOf(r, c.to[k], k.app, c.realApps, c.convertApps);
    var agreesNow := (kind2 == Kept ==> Agrees(r, c.to[k], k.app)) &&
      (kind2 == KeptUnmanaged ==> OutlineAgrees(r, c.to[k]));
    assert kind2 != Switched && (kind != Switched ==> kind2 == kind && agreesNow);
    assert kind == Switched ==> (agreesNow <==> AgreesAlready(c, k));
    if agreesNow && kind2 != NotCompared {
      AgreeingPlanIsEmpty(q2, kind2, k, r, c.to[k], order2);
    } else if kind2 == Kept && Plan(q2, kind2, k, r, c.to[k], order2) == [] {
      EmptyPlanAgrees(q2, k, r, c.to[k], order2);
    }
  }

  /** A model that is settled agrees, if it is compared with its fields the second
      time. */
  lemma SettledAgrees(c: Comparison, q: Questioner, o: FieldOrders, run: seq<Located>, k: ModelKey)
    requires WellKeptState(c.from) && WellKeptState(c.to) && OrdersAll(c, o) && AllPromptsAnswered(c, q, o) &&
      Runs(run, c, q, o)
    requires Applied(run, c.from).Ok? && SettledAt(c, k)
    ensures IsKept(From(c, Applied(run, c.from).value), k) ==> Agrees(Applied(run, c.from).value[k], c.to[k], k.app)
  {
    GeneratedApplies(c, q, o, run);
    var s2 := Applied(run, c.from).value;
    if IsKept(From(c, s2), k) {
      assert RunAll(RunFor(run, k), k.app, c.from[k]) == Ok(s2[k]) && RunFor(run, k) == PlanAt(c, q, k, o);
      hide Runs, PlanAt, RunAll, RunFor, Applied, OrdersAll, AllPromptsAnswered, WellKept;
      var r := PlanAtRuns(c, q, k, o);
    }
  }

  /** Where models agree, there is nothing to ask. */
  lemma NothingToAsk(second: Autodetector, f: FieldKey)
    requires IsKept(second.Compares(), OwnerOf(f)) ==> Agrees(second.from[OwnerOf(f)], second.to[OwnerOf(f)], f.app)
    ensures IsKept(second.Compares(), OwnerOf(f)) ==> second.PromptAnswered(f)
  {
    if IsKept(second.Compares(), OwnerOf(f)) {
      var k := OwnerOf(f);
      assert FieldAgrees(Lookup(second.from[k].fields, f.field), Lookup(second.to[k].fields, f.field), k.app);
      hide FieldIndex, Deconstructed;
    }
  }

  /** Detect changes again, in the state s2 that the first detection's operations lead
      to, with other answers. Nothing is asked and nothing generated, unless a model
      became managed or stopped being so and differs in more than that; and then
      something is. */
  method DetectAgain(first: Autodetector, ghost o: FieldOrders, ghost run: seq<Located>, s2: State, q2: Questioner)
    returns (second: Autodetector, ok: bool)
    requires WellKeptState(first.from) && WellKeptState(first.to)
    requires OrdersAll(first.Compares(), o) && AllPromptsAnswered(first.Compares(), first.q, o)
    requires Runs(run, first.Compares(), first.q, o) && Applied(run, first.from) == Ok(s2)
    ensures fresh(second) && second.from == s2 && second.to == first.to
    ensures (forall k :: SettledAt(first.Compares(), k)) ==> ok && second.generated == map[]
    ensures ok && second.generated == map[] ==> forall k :: SettledAt(first.Compares(), k)
  {
    ghost var c := first.Compares();
    second := new Autodetector(s2, first.to, first.realApps, first.convertApps, q2);
    ghost var o2;
    ok, o2 := second.DetectChanges();
    assert second.Compares() == From(c, s2);
    hide WellKeptState, OrdersAll, AllPromptsAnswered, Runs, Applied, SettledAt, PlanAt, OpsFor, IsKept, Agrees;
    if ok {
      forall k
        ensures OpsFor(second.generated, k) == [] <==> SettledAt(c, k)
      {
        SecondPlanAt(c, first.q, q2, o, run, k, o2);
      }
      if second.generated == map[] {
        NoneAtAll();
      } else {
        SomethingGenerated(second.generated);
      }
    } else if forall k :: SettledAt(c, k) {
      forall f
        ensures IsKept(second.Compares(), OwnerOf(f)) ==> second.PromptAnswered(f)
      {
        SettledAgrees(c, first.q, o, run, OwnerOf(f));
        NothingToAsk(second, f);
      }
    }
  }

  lemma NoneAtAll()
    ensures forall k :: OpsFor(map[], k) == []
  {}

  /** A model that becomes managed under another table: the first comparison does not
      look at its table, so the second one finds it. */
  lemma SwitchedLeavesWork(m: ModelState)
    requires m.app == "shop" && m.table == "old" && m.options.managed == Some(false)
    ensures var key := ModelKey("shop", "cart");
      var now := m.(table := "new", options := m.options.(managed := None));
      !SettledAt(Comparison(map[key := m], map[key := now], {}, {}), key)
  {}
}
