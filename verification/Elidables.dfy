/** Elidable operations drop out of a list: when that keeps the state. */
module Elidables {
  import opened Wrappers
  import opened Names
  import opened ModelStates
  import opened Operations
  import opened States
  import opened Reductions
  import opened FieldReductions
  import opened ReduceField

  // --- What an operation comes to, for the state ---

  /** The operations on models that the list comes to, those inside others included. */
  function Effects(ops: seq<Operation>): seq<Operation>
    decreases ops
  {
    if ops == [] then [] else EffectsOf(ops[0]) + Effects(ops[1..])
  }

  function EffectsOf(op: Operation): seq<Operation>
    decreases op
  {
    match op
    case RunGo(_, _, _) => []
    case RunSQL(_, _, stateOperations, _) => Effects(stateOperations)
    case SeparateDatabaseAndState(_, stateOperations) => Effects(stateOperations)
    case _ => [op]
  }

  lemma {:induction false} RunsInTurn(a: seq<Operation>, b: seq<Operation>, app: string, s: State)
    ensures ForwardsAll(a + b, app, s)
         == match ForwardsAll(a, app, s) case Ok(next) => ForwardsAll(b, app, next) case Err(e) => Err(e)
    decreases |a|
  {
    if a == [] {
      assert a + b == b;
    } else {
      assert (a + b)[1..] == a[1..] + b && (a + b)[0] == a[0];
      hide Forwards;
      if Forwards(a[0], app, s).Ok? {
        RunsInTurn(a[1..], b, app, Forwards(a[0], app, s).value);
      }
    }
  }

  lemma {:induction false} EffectsRun(ops: seq<Operation>, app: string, s: State)
    ensures ForwardsAll(Effects(ops), app, s) == ForwardsAll(ops, app, s)
    decreases ops
  {
    if ops != [] {
      EffectsOfRun(ops[0], app, s);
      RunsInTurn(EffectsOf(ops[0]), Effects(ops[1..]), app, s);
      if Forwards(ops[0], app, s).Ok? {
        EffectsRun(ops[1..], app, Forwards(ops[0], app, s).value);
      }
    }
  }

  lemma {:induction false} EffectsOfRun(op: Operation, app: string, s: State)
    ensures ForwardsAll(EffectsOf(op), app, s) == Forwards(op, app, s)
    decreases op
  {
    match op
    case RunGo(_, _, _) =>
    case RunSQL(_, _, stateOperations, _) => EffectsRun(stateOperations, app, s);
    case SeparateDatabaseAndState(_, stateOperations) => EffectsRun(stateOperations, app, s);
    case _ => RunOne(op, app, s);
  }

  /** The operation changes every state it runs on. */
  predicate AlwaysChanges(op: Operation) {
    op.DeleteModel? || op.AddField? || op.RemoveField? || op.AddIndex? || op.RemoveIndex? || op.AddConstraint?
  }

  lemma {:induction false} FewerIndexes(ixs: seq<Index>, name: string)
    ensures |WithoutIndex(ixs, name)| <= |ixs| && (HasIndex(ixs, name) ==> |WithoutIndex(ixs, name)| < |ixs|)
    decreases |ixs|
  {
    if ixs != [] {
      var front, last := ixs[..|ixs| - 1], ixs[|ixs| - 1];
      FewerIndexes(front, name);
      assert HasIndex(ixs, name) && last.name != name ==> HasIndex(front, name) by {
        assert forall i :: 0 <= i < |ixs| ==> ixs[i] == if i < |front| then front[i] else last;
      }
    }
  }

  lemma ChangesState(op: Operation, app: string, s: State, t: State)
    requires AlwaysChanges(op) && Forwards(op, app, s) == Ok(t)
    ensures t != s
  {
    if op.DeleteModel? {
      assert KeyOf(app, op.name) !in t;
    } else {
      var key := KeyOf(app, op.modelName);
      if op.RemoveIndex? {
        FewerIndexes(s[key].options.indexes, op.name);
        assert |t[key].options.indexes| != |s[key].options.indexes|;
      } else if op.AddIndex? {
        assert |t[key].options.indexes| != |s[key].options.indexes|;
      } else if op.AddConstraint? {
        assert |t[key].options.constraints| != |s[key].options.constraints|;
      } else {
        assert |t[key].fields| != |s[key].fields|;
      }
    }
  }

  // --- Dropping an operation ---

  /** An elidable operation after a field operation drops out. It is safe to drop when
      it comes to no operation on models at all, and not when it comes to just one
      that always changes the state. */
  lemma ElidableDropsOut(o: Operation, x: Operation, app: string, s: State, s1: State, s2: State)
    requires FieldOf(o).Some? && Elidable(x) && Forwards(o, app, s) == Ok(s1) && Forwards(x, app, s1) == Ok(s2)
    ensures ReduceFieldOp(o, x, app) == Replace([o]) && ForwardsAll([o], app, s) == Ok(s1)
    ensures EffectsOf(x) == [] ==> s2 == s1
    ensures |EffectsOf(x)| == 1 && AlwaysChanges(EffectsOf(x)[0]) ==> s2 != s1
  {
    RunOne(o, app, s);
    EffectsOfRun(x, app, s1);
    if |EffectsOf(x)| == 1 && AlwaysChanges(EffectsOf(x)[0]) {
      assert EffectsOf(x) == [EffectsOf(x)[0]];
      RunOne(EffectsOf(x)[0], app, s1);
      ChangesState(EffectsOf(x)[0], app, s1, s2);
    }
  }

  /** Of two operations the second can undo the first, so that nothing is lost. */
  lemma EffectsCanCancel(app: string, m: ModelState, f: Field)
    requires m.fields == []
    ensures var s, x := map[KeyOf(app, "M") := m],
      RunSQL("", None, [AddField("M", "a", f, None), RemoveField("M", "a")], true);
      Elidable(x) && |EffectsOf(x)| == 2 && Forwards(x, app, s) == Ok(s)
  {
    var s, key := map[KeyOf(app, "M") := m], KeyOf(app, "M");
    var a, b := AddField("M", "a", f, None), RemoveField("M", "a");
    var x := RunSQL("", None, [a, b], true);
    assert [a, b][1..] == [b] && [b][1..] == [];
    assert Effects([b]) == [b] + Effects([]);
    assert Effects([a, b]) == [a] + Effects([b]);
    FieldForwards(a, app, s);
    var s1 := Forwards(a, app, s).value;
    FieldForwards(b, app, s1);
    var fs := s1[key].fields;
    assert fs == [NamedField("a", Entering(f, app, true))];
    assert FieldIndex(fs, "a") == 0 by { FieldIndexIs(fs, "a", 0); }
    assert RemoveAt(fs, 0) == [];
    assert s1[key := m] == s;
    RunTwo(a, b, app, s);
  }

  /** Raw SQL that is elidable and has state operations is lost with its state
      operations. */
  lemma ElidableLosesState(app: string, m: ModelState, f: Field)
    requires m.fields == [NamedField("a", f)]
    ensures var s, o, x := map[KeyOf(app, "M") := m], RemoveField("M", "a"), RunSQL("", None, [DeleteModel("M")], true);
      && Elidable(x) && Forwards(o, app, s).Ok?
      && ForwardsAll([o, x], app, s) == Ok(map[])
      && ForwardsAll(ReduceFieldOp(o, x, app).ops, app, s) != Ok(map[])
  {
    var s, o, x := map[KeyOf(app, "M") := m], RemoveField("M", "a"), RunSQL("", None, [DeleteModel("M")], true);
    assert FieldIndex(m.fields, "a") == 0 by { FieldIndexIs(m.fields, "a", 0); }
    FieldForwards(o, app, s);
    var s1 := Forwards(o, app, s).value;
    assert KeyOf(app, "M") in s1 && s1 - {KeyOf(app, "M")} == map[];
    RunOne(DeleteModel("M"), app, s1);
    RunTwo(o, x, app, s);
    RunOne(o, app, s);
  }
}
