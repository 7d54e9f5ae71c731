/** The operations the autodetector generates, what each one has to wait for, and
    the sort of one app's operations. */
module GeneratedOps {
  import opened Wrappers
  import opened Digraph
  import opened Names
  import opened ModelStates
  import opened Operations
  import opened TopoSort

  datatype FieldDepType = FieldCreated | FieldRemoved | FieldAltered | UniqueTogetherAltered | IndexOrConstraintRemoved

  /** One thing a generated operation has to wait for. */
  datatype OpDep =
    | ModelDep(app: string, model: string, created: bool)
    | FieldDep(app: string, model: string, field: string, kind: FieldDepType)

  datatype GenOp = GenOp(op: Operation, deps: seq<OpDep>)

  /** Whether op is the operation waited for. */
  predicate SatisfiedBy(d: OpDep, op: Operation) {
    match d
    case ModelDep(_, model, true) => op.CreateModel? && EqualFold(op.name, model)
    case ModelDep(_, model, false) => op.DeleteModel? && EqualFold(op.name, model)
    case FieldDep(_, model, field, FieldCreated) =>
      if op.CreateModel? && EqualFold(op.name, model) then HasField(op.fields, field)
      else op.AddField? && EqualFold(op.modelName, model) && EqualFold(op.name, field)
    case FieldDep(_, model, field, FieldRemoved) =>
      op.RemoveField? && EqualFold(op.modelName, model) && EqualFold(op.name, field)
    case FieldDep(_, model, field, FieldAltered) =>
      op.AlterField? && EqualFold(op.modelName, model) && EqualFold(op.name, field)
    case FieldDep(_, model, _, UniqueTogetherAltered) =>
      op.AlterUniqueTogether? && EqualFold(op.name, model)
    case FieldDep(_, model, _, IndexOrConstraintRemoved) =>
      (op.RemoveIndex? || op.RemoveConstraint?) && EqualFold(op.modelName, model)
  }

  // --- Sorting the operations of one app ---

  /** One of the first j dependencies of ops[n] is on this app and met by ops[x]. */
  ghost predicate WaitsOn(app: string, ops: seq<GenOp>, n: nat, j: nat, x: nat)
    requires n < |ops| && j <= |ops[n].deps| && x < |ops|
  {
    exists k :: 0 <= k < j && ops[n].deps[k].app == app && SatisfiedBy(ops[n].deps[k], ops[x].op)
  }

  /** The dependencies within the app: (x, n) when ops[n] waits for ops[x]. */
  ghost function Waits(app: string, ops: seq<GenOp>): set<(nat, nat)> {
    set n: nat, x: nat | 0 <= n < |ops| && 0 <= x < |ops| && WaitsOn(app, ops, n, |ops[n].deps|, x) :: (x, n)
  }

  /** The dependencies of the first n operations, and the first j of the next. */
  ghost predicate WaitsUpTo(app: string, ops: seq<GenOp>, n: nat, j: nat, e: set<(nat, nat)>)
    requires n < |ops| ==> j <= |ops[n].deps|
  {
    forall x: nat, m: nat :: (x, m) in e <==>
      x < |ops| && m < |ops| && ((m < n && WaitsOn(app, ops, m, |ops[m].deps|, x)) ||
        (m == n && WaitsOn(app, ops, m, j, x)))
  }

  lemma WaitsUpToDep(app: string, ops: seq<GenOp>, n: nat, j: nat, e: set<(nat, nat)>, preds: seq<nat>)
    requires n < |ops| && j < |ops[n].deps| && WaitsUpTo(app, ops, n, j, e)
    requires forall x: nat :: x in preds <==>
      x < |ops| && ops[n].deps[j].app == app && SatisfiedBy(ops[n].deps[j], ops[x].op)
    ensures WaitsUpTo(app, ops, n, j + 1, e + Into(preds, n))
  {
    forall x: nat | x < |ops|
      ensures WaitsOn(app, ops, n, j + 1, x) <==> WaitsOn(app, ops, n, j, x) || x in preds
    {
      if WaitsOn(app, ops, n, j + 1, x) && !WaitsOn(app, ops, n, j, x) {
        assert ops[n].deps[j].app == app && SatisfiedBy(ops[n].deps[j], ops[x].op);
      }
      if WaitsOn(app, ops, n, j, x) {
        var k :| 0 <= k < j && ops[n].deps[k].app == app && SatisfiedBy(ops[n].deps[k], ops[x].op);
        assert k < j + 1;
      }
    }
  }

  lemma WaitsUpToNext(app: string, ops: seq<GenOp>, n: nat, e: set<(nat, nat)>)
    requires n < |ops| && WaitsUpTo(app, ops, n, |ops[n].deps|, e)
    ensures WaitsUpTo(app, ops, n + 1, 0, e)
    ensures n + 1 == |ops| ==> e == Waits(app, ops)
  {
    if n + 1 == |ops| {
      forall d
        ensures d in e <==> d in Waits(app, ops)
      {
        assert d == (d.0, d.1);
      }
    }
  }

  predicate Positions(order: seq<nat>, n: nat) {
    forall i :: 0 <= i < |order| ==> order[i] < n
  }

  ghost predicate AllPositions(order: seq<nat>, n: nat) {
    Positions(order, n) && forall k: nat :: k < n ==> k in order
  }

  /** The operations at the given positions. */
  function Picked(ops: seq<GenOp>, order: seq<nat>): seq<GenOp>
    requires Positions(order, |ops|)
  {
    seq(|order|, i requires 0 <= i < |order| => ops[order[i]])
  }

  /** Without the position i, where the last operation is picked. */
  lemma Unpicked(order: seq<nat>, i: nat, last: nat)
    requires Distinct(order) && AllPositions(order, last + 1) && i < |order| && order[i] == last
    ensures var rest := order[..i] + order[i + 1..]; Distinct(rest) && AllPositions(rest, last)
    ensures order == order[..i] + [last] + order[i + 1..]
  {
    var rest := order[..i] + order[i + 1..];
    assert order == order[..i] + [last] + order[i + 1..];
    forall k | 0 <= k < |rest|
      ensures rest[k] < last
    {
      assert rest[k] == order[if k < i then k else k + 1];
    }
    forall k: nat | k < last
      ensures k in rest
    {
      assert k in order;
    }
  }

  lemma PickedApart(ops: seq<GenOp>, a: seq<nat>, last: nat, b: seq<nat>)
    requires last + 1 == |ops| && Positions(a + b, last) && Positions(a + [last] + b, last + 1)
    ensures multiset(Picked(ops, a + [last] + b)) == multiset(Picked(ops[..last], a + b)) + multiset{ops[last]}
  {
    assert Positions(a, last + 1) by {
      assert forall i :: 0 <= i < |a| ==> a[i] == (a + [last] + b)[i];
    }
    assert Positions(b, last + 1) by {
      assert forall i :: 0 <= i < |b| ==> b[i] == (a + [last] + b)[|a| + 1 + i];
    }
    assert Picked(ops[..last], a + b) == Picked(ops, a) + Picked(ops, b);
    assert Picked(ops, a + [last] + b) == Picked(ops, a) + [ops[last]] + Picked(ops, b);
  }

  lemma PositionsBelow(order: seq<nat>, n: nat)
    requires Positions(order, n)
    ensures order != [] ==> n > 0
  {
    if order != [] {
      assert order[0] < n;
    }
  }

  /** Taking every position once, in any order, keeps the operations. */
  lemma {:induction false} PickedKeepsOps(ops: seq<GenOp>, order: seq<nat>)
    requires Distinct(order) && AllPositions(order, |ops|)
    ensures multiset(Picked(ops, order)) == multiset(ops)
    decreases |ops|
  {
    if ops == [] {
      PositionsBelow(order, 0);
    } else {
      var last := |ops| - 1;
      assert last in order;
      var i :| 0 <= i < |order| && order[i] == last;
      Unpicked(order, i, last);
      hide Picked, Distinct;
      PickedKeepsOps(ops[..last], order[..i] + order[i + 1..]);
      PickedApart(ops, order[..i], last, order[i + 1..]);
      assert ops == ops[..last] + [ops[last]];
    }
  }

  /** The positions of the operations that satisfy d. */
  method Satisfying(ops: seq<GenOp>, d: OpDep) returns (preds: seq<nat>)
    ensures StrictlyAscending(preds) && forall x: nat :: x in preds <==> x < |ops| && SatisfiedBy(d, ops[x].op)
  {
    preds := [];
    var x := 0;
    while x < |ops|
      invariant 0 <= x <= |ops|
      invariant StrictlyAscending(preds) && forall y: nat :: y in preds <==> y < x && SatisfiedBy(d, ops[y].op)
    {
      if SatisfiedBy(d, ops[x].op) {
        AscendingSnoc(preds, x);
        preds := preds + [x];
      }
      x := x + 1;
    }
  }

  /** Add the operation at n and what it waits for to the sorter. */
  method AddWaits(app: string, ops: seq<GenOp>, n: nat, ts: TopoSorter)
    requires n < |ops| && ts.Valid() && WaitsUpTo(app, ops, n, 0, ts.Edges()) && ListsUpTo(ts.info, n)
    requires Positions(ts.added, |ops|)
    modifies ts
    ensures ts.Valid() && WaitsUpTo(app, ops, n + 1, 0, ts.Edges()) && ListsUpTo(ts.info, n)
    ensures n + 1 == |ops| ==> ts.Edges() == Waits(app, ops)
    ensures old(Elements(ts.added)) + {n} <= Elements(ts.added) && Positions(ts.added, |ops|)
  {
    hide *;
    ghost var was := ts.added;
    NothingAdded(n, ts.Edges());
    ts.Add(n, []);
    NothingAdded(n, ts.Edges());
    StillPositions(was, ts.added, n, [], |ops|);
    var deps := ops[n].deps;
    var j := 0;
    while j < |deps|
      invariant 0 <= j <= |deps|
      invariant ts.Valid() && WaitsUpTo(app, ops, n, j, ts.Edges()) && ListsUpTo(ts.info, n)
      invariant old(Elements(ts.added)) + {n} <= Elements(ts.added) && Positions(ts.added, |ops|)
    {
      if deps[j].app == app {
        var preds := Satisfying(ops, deps[j]);
        WaitsUpToDep(app, ops, n, j, ts.Edges(), preds);
        was := ts.added;
        ts.Add(n, preds);
        StillPositions(was, ts.added, n, preds, |ops|);
      } else {
        WaitsUpToDep(app, ops, n, j, ts.Edges(), []);
        NothingAdded(n, ts.Edges());
      }
      j := j + 1;
    }
    WaitsUpToNext(app, ops, n, ts.Edges());
  }

  lemma NothingAdded(n: nat, e: set<(nat, nat)>)
    ensures e + Into([], n) == e && Elements<nat>([]) == {}
  {}

  /** Only positions were added. */
  lemma StillPositions(before: seq<nat>, after: seq<nat>, n: nat, preds: seq<nat>, k: nat)
    requires Positions(before, k) && Elements(after) == Elements(before) + {n} + Elements(preds) && n < k
    requires forall x :: x in preds ==> x < k
    ensures Positions(after, k)
  {
    forall i | 0 <= i < |after|
      ensures after[i] < k
    {
      assert after[i] in Elements(after);
    }
  }

  lemma AllAdded(a: seq<nat>, k: nat)
    requires Positions(a, k) && forall m :: 0 <= m < k ==> m in Elements(a)
    ensures AllPositions(a, k)
  {
    forall i: nat | i < k
      ensures i in a
    {
      assert i in Elements(a);
    }
  }

  lemma SamePositions(a: seq<nat>, b: seq<nat>, k: nat)
    requires AllPositions(a, k) && Elements(a) == Elements(b)
    ensures AllPositions(b, k)
  {
    forall i | 0 <= i < |b|
      ensures b[i] < k
    {
      assert b[i] in Elements(a);
    }
    forall i: nat | i < k
      ensures i in b
    {
      assert i in Elements(b);
    }
  }

  /** One app's operations in an order in which each follows those of the app it
      waits for, or an error when they wait for each other. order and release say
      where each came from and which operation it waited for last. */
  method SortOps(app: string, ops: seq<GenOp>)
    returns (r: Result<seq<GenOp>, string>, ghost added: seq<nat>, ghost order: seq<nat>, ghost release: seq<nat>)
    ensures r.Err? <==> HasCycle(Waits(app, ops))
    ensures r.Ok? ==> multiset(r.value) == multiset(ops)
    ensures r.Ok? ==> Positions(order, |ops|) && r.value == Picked(ops, order)
    ensures r.Ok? ==> SortedAs(app, ops, added, order, release)
  {
    var ts := new TopoSorter();
    var n := 0;
    while n < |ops|
      invariant 0 <= n <= |ops|
      invariant fresh(ts) && ts.Valid() && WaitsUpTo(app, ops, n, 0, ts.Edges())
      invariant ListsUpTo(ts.info, n)
      invariant n == |ops| ==> ts.Edges() == Waits(app, ops)
      invariant Positions(ts.added, |ops|)
      invariant forall m :: 0 <= m < n ==> m in Elements(ts.added)
    {
      AddWaits(app, ops, n, ts);
      n := n + 1;
    }
    var sorted: Result<seq<Node>, string>;
    sorted, release := ts.Order();
    if sorted.Err? {
      return Err(sorted.error), [], [], [];
    }
    order, added := sorted.value, ts.added;
    AllAdded(added, |ops|);
    SamePositions(added, order, |ops|);
    PickedKeepsOps(ops, order);
    return Ok(Picked(ops, sorted.value)), added, order, release;
  }

  /** What the sort promises of the positions it returns; the operations that wait
      for nothing come first, in the order in which the sorter met them. */
  ghost predicate SortedAs(app: string, ops: seq<GenOp>, added: seq<nat>, order: seq<nat>, release: seq<nat>) {
    && Distinct(added) && AllPositions(added, |ops|) && AllPositions(order, |ops|)
    && KahnOrder(Waits(app, ops), added, order, release)
    && TiesAscend(|Sources(Waits(app, ops), added)|, order, release)
  }
}
