/** Plans as runs of a state machine over the set of applied migrations. */
module Plans {
  import opened Digraph
  import opened Keys
  import opened DepthFirst
  import opened Traversal

  datatype PlanStep = PlanStep(key: Key, backwards: bool)

  type Plan = seq<PlanStep>

  /** A migration is applied with all its parents applied, and unapplied with no
      child applied. */
  ghost predicate StepSafe(e: set<(Key, Key)>, applied: set<Key>, s: PlanStep) {
    if s.backwards
    then s.key in applied && forall c :: (s.key, c) in e ==> c !in applied
    else s.key !in applied && forall p :: (p, s.key) in e ==> p in applied
  }

  function StepEffect(applied: set<Key>, s: PlanStep): set<Key> {
    if s.backwards then applied - {s.key} else applied + {s.key}
  }

  /** The applied set once the plan has run. */
  ghost function Run(applied: set<Key>, plan: Plan): set<Key>
    decreases |plan|
  {
    if plan == [] then applied
    else StepEffect(Run(applied, plan[..|plan| - 1]), plan[|plan| - 1])
  }

  /** Every step of the plan is safe when its turn comes. */
  ghost predicate SafePlan(e: set<(Key, Key)>, applied: set<Key>, plan: Plan)
    decreases |plan|
  {
    plan == [] ||
    (SafePlan(e, applied, plan[..|plan| - 1]) && StepSafe(e, Run(applied, plan[..|plan| - 1]), plan[|plan| - 1]))
  }

  /** No migration is applied before one it depends on. */
  ghost predicate Closed(e: set<(Key, Key)>, applied: set<Key>) {
    forall p, c :: (p, c) in e && c in applied ==> p in applied
  }

  lemma {:induction false} SafePlanKeepsClosed(e: set<(Key, Key)>, applied: set<Key>, plan: Plan)
    requires SafePlan(e, applied, plan) && Closed(e, applied)
    ensures Closed(e, Run(applied, plan))
    decreases |plan|
  {
    if plan != [] {
      SafePlanKeepsClosed(e, applied, plan[..|plan| - 1]);
    }
  }

  lemma RunOneMore(e: set<(Key, Key)>, applied: set<Key>, p: Plan, s: PlanStep)
    ensures Run(applied, p + [s]) == StepEffect(Run(applied, p), s)
    ensures SafePlan(e, applied, p + [s]) <==> SafePlan(e, applied, p) && StepSafe(e, Run(applied, p), s)
  {
    assert (p + [s])[..|p|] == p;
  }

  lemma {:induction false} RunAppend(e: set<(Key, Key)>, applied: set<Key>, a: Plan, b: Plan)
    ensures Run(applied, a + b) == Run(Run(applied, a), b)
    ensures SafePlan(e, applied, a + b) <==> SafePlan(e, applied, a) && SafePlan(e, Run(applied, a), b)
    decreases |b|
  {
    if b == [] {
      assert a + b == a;
    } else {
      var rest := b[..|b| - 1];
      assert (a + b)[..|a + b| - 1] == a + rest;
      RunAppend(e, applied, a, rest);
    }
  }

  lemma ElementsSnoc(s: seq<Key>, k: Key)
    ensures Elements(s + [k]) == Elements(s) + {k}
    ensures k in s <==> k in Elements(s)
  {}

  // --- One target ---

  /** The steps for the keys of ks that are not applied yet. */
  ghost function ForwardSteps(ks: seq<Key>, applied: set<Key>): Plan
    decreases |ks|
  {
    if ks == [] then []
    else
      ForwardSteps(ks[..|ks| - 1], applied) + if ks[|ks| - 1] in applied then [] else [PlanStep(ks[|ks| - 1], false)]
  }

  /** The steps for the keys of ks that are applied. */
  ghost function BackwardSteps(ks: seq<Key>, applied: set<Key>): Plan
    decreases |ks|
  {
    if ks == [] then []
    else
      BackwardSteps(ks[..|ks| - 1], applied) + if ks[|ks| - 1] in applied then [PlanStep(ks[|ks| - 1], true)] else []
  }

  lemma GoodOrderPrefix(e: Steps, ks: seq<Key>)
    requires GoodOrder(e, ks) && ks != []
    ensures var rest, k := ks[..|ks| - 1], ks[|ks| - 1];
      && GoodOrder(e, rest) && ks == rest + [k] && k !in rest
      && forall b :: (k, b) in e ==> b in rest
  {
    var rest := ks[..|ks| - 1];
    forall i, b | 0 <= i < |rest| && (rest[i], b) in e
      ensures b in rest[..i]
    {
      assert rest[..i] == ks[..i] && ks[i] == rest[i];
    }
    assert ks[..|rest|] == rest;
  }

  lemma ForwardStepSafe(e: set<(Key, Key)>, rest: seq<Key>, k: Key, applied: set<Key>)
    requires k !in rest && k !in applied
    requires forall b :: (k, b) in Flip(e) ==> b in rest
    ensures StepSafe(e, applied + Elements(rest), PlanStep(k, false))
  {
    forall q | (q, k) in e
      ensures q in applied + Elements(rest)
    {
      FlipHas(e, k, q);
    }
  }

  lemma {:induction false} ForwardStepsSafe(e: set<(Key, Key)>, ks: seq<Key>, applied: set<Key>)
    requires GoodOrder(Flip(e), ks)
    ensures SafePlan(e, applied, ForwardSteps(ks, applied))
    ensures Run(applied, ForwardSteps(ks, applied)) == applied + Elements(ks)
    decreases |ks|
  {
    hide GoodOrder, Flip, StepSafe;
    if ks != [] {
      var rest, k := ks[..|ks| - 1], ks[|ks| - 1];
      GoodOrderPrefix(Flip(e), ks);
      ForwardStepsSafe(e, rest, applied);
      ElementsSnoc(rest, k);
      var p := ForwardSteps(rest, applied);
      if k in applied {
        assert p + [] == p;
      } else {
        ForwardStepSafe(e, rest, k, applied);
        RunOneMore(e, applied, p, PlanStep(k, false));
      }
    }
  }

  lemma BackwardStepSafe(e: set<(Key, Key)>, rest: seq<Key>, k: Key, applied: set<Key>)
    requires k !in rest && k in applied
    requires forall b :: (k, b) in e ==> b in rest
    ensures StepSafe(e, applied - Elements(rest), PlanStep(k, true))
  {}

  lemma {:induction false} BackwardStepsSafe(e: set<(Key, Key)>, ks: seq<Key>, applied: set<Key>)
    requires GoodOrder(e, ks)
    ensures SafePlan(e, applied, BackwardSteps(ks, applied))
    ensures Run(applied, BackwardSteps(ks, applied)) == applied - Elements(ks)
    decreases |ks|
  {
    hide GoodOrder, StepSafe;
    if ks != [] {
      var rest, k := ks[..|ks| - 1], ks[|ks| - 1];
      GoodOrderPrefix(e, ks);
      BackwardStepsSafe(e, rest, applied);
      ElementsSnoc(rest, k);
      var p := BackwardSteps(rest, applied);
      if k in applied {
        BackwardStepSafe(e, rest, k, applied);
        RunOneMore(e, applied, p, PlanStep(k, true));
      } else {
        assert p + [] == p;
      }
    }
  }

  // --- What a target asks for ---

  /** The migrations whose descendants a target unapplies: the roots of the app
      for a target without a name, the children in its own app otherwise. */
  ghost function Undone(e: set<(Key, Key)>, v: set<Key>, t: Key): set<Key> {
    if t.name == "" then set k | k in Ends(Flip(e), v) && k.app == t.app
    else set k | k in Succ(e, t) && k.app == t.app
  }

  ghost function Downstream(e: set<(Key, Key)>, v: set<Key>, ks: set<Key>): set<Key> {
    set x | x in v && exists k :: k in ks && Reaches(e, k, x)
  }

  ghost function Upstream(e: set<(Key, Key)>, v: set<Key>, k: Key): set<Key> {
    set x | x in v && Reaches(e, x, k)
  }

  /** The applied set a target leads to. */
  ghost function Reached(e: set<(Key, Key)>, v: set<Key>, applied: set<Key>, t: Key): set<Key> {
    if t.name == "" || t in applied then applied - Downstream(e, v, Undone(e, v, t))
    else applied + Upstream(e, v, t)
  }

  ghost function ReachedAll(e: set<(Key, Key)>, v: set<Key>, applied: set<Key>, targets: seq<Key>): set<Key>
    decreases |targets|
  {
    if targets == [] then applied
    else Reached(e, v, ReachedAll(e, v, applied, targets[..|targets| - 1]), targets[|targets| - 1])
  }

  /** Forwards, the plan for k covers k and all it depends on. */
  lemma ForwardPlanCovers(e: set<(Key, Key)>, v: set<Key>, k: Key)
    requires Within(e, v) && !HasCycle(e) && k in v
    ensures Elements(PlanFor(e, v, k, true)) == Upstream(e, v, k) && GoodOrder(Flip(e), PlanFor(e, v, k, true))
  {
    StepsAcyclic(e, v, true);
    FinishOrderCorrect(Flip(e), v, k);
    forall x
      ensures x in Elements(PlanFor(e, v, k, true)) <==> x in Upstream(e, v, k)
    {
      ReachesFlip(e, k, x);
    }
  }

  /** Backwards, it covers k and all that depends on it. */
  lemma BackwardPlanCovers(e: set<(Key, Key)>, v: set<Key>, k: Key)
    requires Within(e, v) && !HasCycle(e) && k in v
    ensures Elements(PlanFor(e, v, k, false)) == Downstream(e, v, {k}) && GoodOrder(e, PlanFor(e, v, k, false))
  {
    StepsAcyclic(e, v, false);
    FinishOrderCorrect(e, v, k);
    assert forall x :: x in Elements(PlanFor(e, v, k, false)) <==> x in Downstream(e, v, {k});
  }

  /** Unapplying to "zero" leaves nothing of the app applied. */
  lemma ZeroLeavesNothing(e: set<(Key, Key)>, v: set<Key>, applied: set<Key>, t: Key)
    requires Within(e, v) && !HasCycle(e) && t.name == ""
    ensures forall k :: k in v && k.app == t.app ==> k !in Reached(e, v, applied, t)
  {
    var rank := AcyclicCanBeRanked(e, v);
    forall k | k in v && k.app == t.app
      ensures k !in Reached(e, v, applied, t)
    {
      var root := RootAbove(e, v, rank, k);
    }
  }

  /** Every migration comes after a root of its own app. */
  lemma {:induction false} RootAbove(e: set<(Key, Key)>, v: set<Key>, rank: map<Key, nat>, k: Key) returns (root: Key)
    requires Within(e, v) && Ranked(e, rank) && k in v
    ensures root in Ends(Flip(e), v) && root.app == k.app && Reaches(e, root, k)
    decreases if k in rank then rank[k] else 0
  {
    if k in Ends(Flip(e), v) {
      root := k;
      ReachesSelf(e, k);
    } else {
      var p :| p in Succ(Flip(e), k) && p.app == k.app;
      FlipHas(e, k, p);
      var d := (p, k);
      assert d in e && d.0 in v;
      root := RootAbove(e, v, rank, p);
      ReachesEdge(e, p, k);
      ReachesTrans(e, root, p, k);
    }
  }

  /** Every migration comes before a leaf of its own app. */
  lemma LeafBelow(e: set<(Key, Key)>, v: set<Key>, k: Key) returns (leaf: Key)
    requires Within(e, v) && !HasCycle(e) && k in v
    ensures leaf in Ends(e, v) && leaf.app == k.app && Reaches(e, k, leaf)
  {
    FlipAcyclic(e, v);
    var rank := AcyclicCanBeRanked(Flip(e), v);
    FlipFlip(e);
    leaf := RootAbove(Flip(e), v, rank, k);
    ReachesFlip(e, leaf, k);
  }

  // --- The steps for targets ---

  /** Undoes the keys of ks one after the other, each with all that depends on it. */
  ghost function UndoSteps(e: set<(Key, Key)>, v: set<Key>, ks: seq<Key>, applied: set<Key>): Plan
    requires Within(e, v) && !HasCycle(e) && forall k :: k in ks ==> k in v
    decreases |ks|
  {
    if ks == [] then []
    else
      var p := UndoSteps(e, v, ks[..|ks| - 1], applied);
      p + BackwardSteps(PlanFor(e, v, ks[|ks| - 1], false), Run(applied, p))
  }

  ghost predicate Known(v: set<Key>, targets: seq<Key>) {
    forall t :: t in targets ==> t.name == "" || t in v
  }

  lemma UndoneKnown(e: set<(Key, Key)>, v: set<Key>, t: Key)
    requires Within(e, v)
    ensures forall k :: k in Sorted(Undone(e, v, t)) ==> k in v
  {
    SortedLists(Undone(e, v, t));
    forall k | k in Undone(e, v, t)
      ensures k in v
    {
      if t.name != "" {
        var d := (t, k);
        assert d in e && d.1 in v;
      }
    }
  }

  ghost function TargetSteps(e: set<(Key, Key)>, v: set<Key>, applied: set<Key>, t: Key): Plan
    requires Within(e, v) && !HasCycle(e) && (t.name == "" || t in v)
  {
    UndoneKnown(e, v, t);
    if t.name == "" || t in applied then UndoSteps(e, v, Sorted(Undone(e, v, t)), applied)
    else ForwardSteps(PlanFor(e, v, t, true), applied)
  }

  ghost function PlanTargets(e: set<(Key, Key)>, v: set<Key>, applied: set<Key>, targets: seq<Key>): Plan
    requires Within(e, v) && !HasCycle(e) && Known(v, targets)
    decreases |targets|
  {
    if targets == [] then []
    else
      var p := PlanTargets(e, v, applied, targets[..|targets| - 1]);
      p + TargetSteps(e, v, Run(applied, p), targets[|targets| - 1])
  }

  lemma DownstreamOfNone(e: set<(Key, Key)>, v: set<Key>)
    ensures Downstream(e, v, {}) == {}
  {}

  lemma DownstreamOfUnion(e: set<(Key, Key)>, v: set<Key>, a: set<Key>, b: set<Key>)
    ensures Downstream(e, v, a + b) == Downstream(e, v, a) + Downstream(e, v, b)
  {}

  lemma {:induction false} UndoStepsSafe(e: set<(Key, Key)>, v: set<Key>, ks: seq<Key>, applied: set<Key>)
    requires Within(e, v) && !HasCycle(e) && forall k :: k in ks ==> k in v
    ensures SafePlan(e, applied, UndoSteps(e, v, ks, applied))
    ensures Run(applied, UndoSteps(e, v, ks, applied)) == applied - Downstream(e, v, Elements(ks))
    decreases |ks|
  {
    hide Within, HasCycle, Downstream, GoodOrder, PlanFor;
    if ks == [] {
      assert Elements(ks) == {};
      DownstreamOfNone(e, v);
    } else {
      var rest, k := ks[..|ks| - 1], ks[|ks| - 1];
      UndoStepsSafe(e, v, rest, applied);
      var p := UndoSteps(e, v, rest, applied);
      BackwardPlanCovers(e, v, k);
      var bp := PlanFor(e, v, k, false);
      BackwardStepsSafe(e, bp, Run(applied, p));
      RunAppend(e, applied, p, BackwardSteps(bp, Run(applied, p)));
      assert ks == rest + [k];
      ElementsSnoc(rest, k);
      DownstreamOfUnion(e, v, Elements(rest), {k});
    }
  }

  /** One target: its steps are safe, and change exactly what it asks for. */
  lemma TargetStepsSafe(e: set<(Key, Key)>, v: set<Key>, applied: set<Key>, t: Key)
    requires Within(e, v) && !HasCycle(e) && (t.name == "" || t in v)
    ensures SafePlan(e, applied, TargetSteps(e, v, applied, t))
    ensures Run(applied, TargetSteps(e, v, applied, t)) == Reached(e, v, applied, t)
  {
    if t.name == "" || t in applied {
      var us := Undone(e, v, t);
      UndoneKnown(e, v, t);
      UndoStepsSafe(e, v, Sorted(us), applied);
      SortedLists(us);
      assert Elements(Sorted(us)) == us;
    } else {
      ForwardPlanCovers(e, v, t);
      ForwardStepsSafe(e, PlanFor(e, v, t, true), applied);
    }
  }

  /** Every plan is safe, whatever the targets, and leads where they ask; a
      dependency-closed applied set stays closed. */
  lemma {:induction false} PlanTargetsSafe(e: set<(Key, Key)>, v: set<Key>, applied: set<Key>, targets: seq<Key>)
    requires Within(e, v) && !HasCycle(e) && Known(v, targets)
    ensures SafePlan(e, applied, PlanTargets(e, v, applied, targets))
    ensures Run(applied, PlanTargets(e, v, applied, targets)) == ReachedAll(e, v, applied, targets)
    ensures Closed(e, applied) ==> Closed(e, ReachedAll(e, v, applied, targets))
    decreases |targets|
  {
    if targets != [] {
      var rest, t := targets[..|targets| - 1], targets[|targets| - 1];
      PlanTargetsSafe(e, v, applied, rest);
      var p := PlanTargets(e, v, applied, rest);
      TargetStepsSafe(e, v, Run(applied, p), t);
      RunAppend(e, applied, p, TargetSteps(e, v, Run(applied, p), t));
      if Closed(e, applied) {
        SafePlanKeepsClosed(e, applied, PlanTargets(e, v, applied, targets));
      }
    }
  }

  // --- Going to one target ---

  /** The migration comes first in its app: it depends on none of it. */
  ghost predicate FirstOfApp(e: set<(Key, Key)>, v: set<Key>, r: Key) {
    r in v && forall p :: (p, r) in e ==> p.app != r.app
  }

  /** What is applied once a target has been gone to: without a name, all but what depends
      on a first migration of the app; when the target was applied, all but what depends on
      something of its app that depends on it directly; otherwise also the target and all
      it depends on. */
  lemma GoingTo(e: set<(Key, Key)>, v: set<Key>, applied: set<Key>, t: Key, x: Key)
    requires Within(e, v) && !HasCycle(e) && Known(v, [t]) && applied <= v
    ensures x in Run(applied, PlanTargets(e, v, applied, [t])) <==>
      if t.name == "" then
        x in applied && !exists r :: FirstOfApp(e, v, r) && r.app == t.app && Reaches(e, r, x)
      else if t in applied then
        x in applied && !exists c :: (t, c) in e && c.app == t.app && Reaches(e, c, x)
      else x in applied || (x in v && Reaches(e, x, t))
  {
    PlanTargetsSafe(e, v, applied, [t]);
    assert [t][..0] == [] && ReachedAll(e, v, applied, [t]) == Reached(e, v, applied, t);
    hide Run, PlanTargets, Reaches, SafePlan, HasCycle;
    if t.name == "" {
      forall r
        ensures r in Undone(e, v, t) <==> FirstOfApp(e, v, r) && r.app == t.app
      {
        FirstIsRoot(e, v, r);
      }
    } else if t in applied {
      assert forall c :: c in Undone(e, v, t) <==> (t, c) in e && c.app == t.app;
    }
  }

  lemma FirstIsRoot(e: set<(Key, Key)>, v: set<Key>, r: Key)
    ensures r in Ends(Flip(e), v) <==> FirstOfApp(e, v, r)
  {
    assert forall p :: p in Succ(Flip(e), r) <==> (p, r) in e;
  }

  /** Once a target with a name has been gone to from a state closed under dependencies, it
      is applied with all it depends on, and if it was applied before, nothing of its app
      that depends on it directly is. */
  lemma TargetIsLast(e: set<(Key, Key)>, v: set<Key>, applied: set<Key>, t: Key)
    requires Within(e, v) && !HasCycle(e) && t in v && t.name != "" && applied <= v && Closed(e, applied)
    ensures var r := Run(applied, PlanTargets(e, v, applied, [t]));
      && t in r && (forall x :: x in v && Reaches(e, x, t) ==> x in r)
      && (t in applied ==> forall c :: (t, c) in e && c.app == t.app ==> c !in r)
  {
    var r := Run(applied, PlanTargets(e, v, applied, [t]));
    PlanTargetsSafe(e, v, applied, [t]);
    hide Run, PlanTargets, SafePlan;
    forall x | x in v && Reaches(e, x, t)
      ensures x in r
    {
      GoingTo(e, v, applied, t, x);
      if t in applied {
        ClosedHolds(e, applied, x, t);
        forall c | (t, c) in e && Reaches(e, c, x)
          ensures false
        {
          ReachesTrans(e, c, x, t);
          EdgeBackMeansCycle(e, t, c);
        }
      }
    }
    ReachesSelf(e, t);
    forall c | t in applied && (t, c) in e && c.app == t.app
      ensures c !in r
    {
      GoingTo(e, v, applied, t, c);
      ReachesSelf(e, c);
    }
  }

  lemma ClosedHolds(e: set<(Key, Key)>, applied: set<Key>, x: Key, t: Key)
    requires Closed(e, applied) && t in applied && Reaches(e, x, t)
    ensures x in applied
  {
    ReachesFlip(e, t, x);
    var p: seq<Key> :| PathBetween(Flip(e), p, t, x);
    ClosedHoldsReachable(Flip(e), applied, p);
  }

  lemma EdgeBackMeansCycle(e: set<(Key, Key)>, t: Key, c: Key)
    requires (t, c) in e && Reaches(e, c, t)
    ensures HasCycle(e)
  {
    var p: seq<Key> :| PathBetween(e, p, c, t);
    assert IsCycle(e, p);
  }

  // --- The full plan ---

  ghost function Forwards(ks: seq<Key>): Plan {
    seq(|ks|, i requires 0 <= i < |ks| => PlanStep(ks[i], false))
  }

  lemma {:induction false} AddNewIsForward(plan: seq<Key>, ks: seq<Key>)
    requires Distinct(ks)
    ensures Forwards(AddNew(plan, ks, {})) == Forwards(plan) + ForwardSteps(ks, Elements(plan))
    ensures Elements(AddNew(plan, ks, {})) == Elements(plan) + Elements(ks)
    decreases |ks|
  {
    if ks == [] {
      assert Forwards(plan) + [] == Forwards(plan);
    } else {
      var rest, k := ks[..|ks| - 1], ks[|ks| - 1];
      assert ks == rest + [k];
      AddNewIsForward(plan, rest);
      var p, f := AddNew(plan, rest, {}), ForwardSteps(rest, Elements(plan));
      ElementsSnoc(rest, k);
      ElementsSnoc(p, k);
      if k in p {
        assert f + [] == f;
      } else {
        assert Forwards(p + [k]) == Forwards(p) + [PlanStep(k, false)];
      }
    }
  }

  /** From a clean start the plan for leaves is the one in dependency order, and
      every step of it goes forwards. */
  lemma {:induction false} FullPlanIsForward(e: set<(Key, Key)>, v: set<Key>, leaves: seq<Key>)
    requires Within(e, v) && !HasCycle(e)
    requires forall t :: t in leaves ==> t in v && t in Ends(e, v) && t.name != ""
    ensures PlanTargets(e, v, {}, leaves) == Forwards(PlanForAll(e, v, leaves, {}))
    ensures Run({}, PlanTargets(e, v, {}, leaves)) == Elements(PlanForAll(e, v, leaves, {}))
    decreases |leaves|
  {
    if leaves != [] {
      var rest, t := leaves[..|leaves| - 1], leaves[|leaves| - 1];
      FullPlanIsForward(e, v, rest);
      var p, applied := PlanTargets(e, v, {}, rest), Run({}, PlanTargets(e, v, {}, rest));
      var fp := PlanFor(e, v, t, true);
      ForwardPlanCovers(e, v, t);
      AddNewIsForward(PlanForAll(e, v, rest, {}), fp);
      ForwardStepsSafe(e, fp, applied);
      RunAppend(e, {}, p, TargetSteps(e, v, applied, t));
      if t in applied {
        LeafAsksNothing(e, v, applied, t);
        PlanForAllCorrect(e, v, rest);
        StepsAcyclic(e, v, true);
        FinishOrderCorrect(Flip(e), v, t);
        UpstreamPlanned(e, v, rest, fp, t);
        NothingForward(fp, applied);
      }
    }
  }

  lemma LeafAsksNothing(e: set<(Key, Key)>, v: set<Key>, applied: set<Key>, t: Key)
    requires Within(e, v) && !HasCycle(e) && t in Ends(e, v) && t.name != "" && t in applied
    ensures TargetSteps(e, v, applied, t) == []
  {
    assert Undone(e, v, t) == {};
    SortedLists({});
    SomeElement(Sorted({}));
  }

  /** What a planned migration depends on is planned. */
  lemma UpstreamPlanned(e: set<(Key, Key)>, v: set<Key>, nodes: seq<Key>, fp: seq<Key>, t: Key)
    requires Within(e, v) && !HasCycle(e) && forall n :: n in nodes ==> n in v
    requires t in PlanForAll(e, v, nodes, {}) && forall x :: x in fp ==> Reaches(Flip(e), t, x)
    ensures forall x :: x in fp ==> x in PlanForAll(e, v, nodes, {})
  {
    PlanForAllCorrect(e, v, nodes);
    var n :| n in nodes && Reaches(Flip(e), n, t);
    forall x | x in fp
      ensures x in PlanForAll(e, v, nodes, {})
    {
      ReachesTrans(Flip(e), n, t, x);
    }
  }

  lemma {:induction false} NothingForward(ks: seq<Key>, applied: set<Key>)
    requires forall k :: k in ks ==> k in applied
    ensures ForwardSteps(ks, applied) == []
    decreases |ks|
  {
    if ks != [] {
      NothingForward(ks[..|ks| - 1], applied);
    }
  }

  /** The full plan reaches every migration of the graph. */
  lemma FullPlanCovers(e: set<(Key, Key)>, v: set<Key>)
    requires Within(e, v) && !HasCycle(e)
    ensures forall t :: t in Sorted(Ends(e, v)) ==> t in v
    ensures var p := PlanForAll(e, v, Sorted(Ends(e, v)), {});
      Elements(p) == v && GoodOrder(Flip(e), p)
  {
    SortedLists(Ends(e, v));
    var leaves := Sorted(Ends(e, v));
    PlanForAllCorrect(e, v, leaves);
    var p := PlanForAll(e, v, leaves, {});
    forall k
      ensures k in p <==> k in v
    {
      if k in v {
        var leaf := LeafBelow(e, v, k);
        ReachesFlip(e, leaf, k);
      }
      if k in p {
        var n :| n in leaves && Reaches(Flip(e), n, k);
        var q: seq<Key> :| PathBetween(Flip(e), q, n, k);
        StepsAcyclic(e, v, true);
        ClosedHoldsReachable(Flip(e), v, q);
      }
    }
  }

  // --- Running a forward plan in the order of the full one ---

  /** The keys of full that are in todo, in the order of full. */
  ghost function Chosen(full: seq<Key>, todo: set<Key>): seq<Key>
    decreases |full|
  {
    if full == [] then []
    else Chosen(full[..|full| - 1], todo) + if full[|full| - 1] in todo then [full[|full| - 1]] else []
  }

  lemma {:induction false} ChosenKeys(full: seq<Key>, todo: set<Key>)
    requires Distinct(full)
    ensures Distinct(Chosen(full, todo)) && forall k :: k in Chosen(full, todo) <==> k in full && k in todo
    decreases |full|
  {
    if full != [] {
      var rest, k := full[..|full| - 1], full[|full| - 1];
      assert full == rest + [k] && Distinct(rest);
      ChosenKeys(rest, todo);
      assert k !in rest;
      var c := Chosen(rest, todo);
      assert c + [] == c;
    }
  }

  lemma ChosenStepSafe(e: set<(Key, Key)>, rest: seq<Key>, k: Key, todo: set<Key>, applied: set<Key>)
    requires k !in rest && k in todo && todo !! applied
    requires forall b :: (k, b) in Flip(e) ==> b in rest
    requires forall p, c :: (p, c) in e && c in todo ==> p in applied || p in todo
    ensures StepSafe(e, applied + todo * Elements(rest), PlanStep(k, false))
  {
    forall q | (q, k) in e
      ensures q in applied + todo * Elements(rest)
    {
      FlipHas(e, k, q);
    }
  }

  /** Running the migrations of a safe forward plan in dependency order is safe
      and leads to the same applied set. */
  lemma {:induction false} ChosenIsSafe(e: set<(Key, Key)>, full: seq<Key>, todo: set<Key>, applied: set<Key>)
    requires GoodOrder(Flip(e), full) && todo !! applied
    requires forall p, c :: (p, c) in e && c in todo ==> p in applied || p in todo
    ensures SafePlan(e, applied, Forwards(Chosen(full, todo)))
    ensures Run(applied, Forwards(Chosen(full, todo))) == applied + todo * Elements(full)
    decreases |full|
  {
    hide GoodOrder, Flip, StepSafe;
    if full != [] {
      var rest, k := full[..|full| - 1], full[|full| - 1];
      GoodOrderPrefix(Flip(e), full);
      ChosenIsSafe(e, rest, todo, applied);
      ElementsSnoc(rest, k);
      var c := Chosen(rest, todo);
      if k in todo {
        ChosenStepSafe(e, rest, k, todo, applied);
        RunOneMore(e, applied, Forwards(c), PlanStep(k, false));
        assert Forwards(c + [k]) == Forwards(c) + [PlanStep(k, false)];
      } else {
        assert c + [] == c;
      }
    }
  }

  lemma {:induction false} SafeForwardPlan(e: set<(Key, Key)>, applied: set<Key>, ks: seq<Key>)
    requires SafePlan(e, applied, Forwards(ks))
    ensures Run(applied, Forwards(ks)) == applied + Elements(ks)
    ensures Elements(ks) !! applied && Distinct(ks)
    ensures forall p, c :: (p, c) in e && c in ks ==> p in applied || p in ks
    decreases |ks|
  {
    if ks != [] {
      var rest, k := ks[..|ks| - 1], ks[|ks| - 1];
      assert ks == rest + [k];
      assert Forwards(ks) == Forwards(rest) + [PlanStep(k, false)];
      RunOneMore(e, applied, Forwards(rest), PlanStep(k, false));
      SafeForwardPlan(e, applied, rest);
      ElementsSnoc(rest, k);
    }
  }

  /** Running a safe forward plan in the order of the full plan runs each of its
      migrations once, safely, and ends in the same applied set. */
  lemma RunInFullOrder(e: set<(Key, Key)>, v: set<Key>, applied: set<Key>, ks: seq<Key>, full: seq<Key>)
    requires Within(e, v) && !HasCycle(e) && SafePlan(e, applied, Forwards(ks)) && forall k :: k in ks ==> k in v
    requires (forall t :: t in Sorted(Ends(e, v)) ==> t in v) && full == PlanForAll(e, v, Sorted(Ends(e, v)), {})
    ensures var run := Chosen(full, Elements(ks));
      && Distinct(run) && Elements(run) == Elements(ks)
      && SafePlan(e, applied, Forwards(run))
      && Run(applied, Forwards(run)) == Run(applied, Forwards(ks))
  {
    FullPlanCovers(e, v);
    SafeForwardPlan(e, applied, ks);
    ChosenIsSafe(e, full, Elements(ks), applied);
    ChosenKeys(full, Elements(ks));
    assert Elements(ks) * Elements(full) == Elements(ks);
    assert forall k :: k in full <==> k in Elements(full);
  }
}
