/** Applying and unapplying a migration: each operation between the states it
    runs between, also inside nested operations. */
module Applying {
  import opened Wrappers
  import opened Names
  import opened ModelStates
  import opened Operations
  import opened States

  /** What a single operation does to the database, forwards from the state before
      it and backwards from the state after it. An operation that fails leaves the
      database alone. */
  datatype Effects<!D> = Effects(
    forwards: (Operation, State, State, D) -> Result<D, string>,
    backwards: (Operation, State, State, D) -> Result<D, string>)

  datatype RunError = StateFailed(error: StateError) | DatabaseFailed(message: string) | Irreversible(op: Operation)

  /** A step on the database, between two states, or a state that cannot be
      computed. */
  datatype Step = Step(op: Operation, before: State, after: State) | Fail(error: StateError)

  /** The database after a run, the operations undone, and what stopped it. */
  datatype Outcome<D> = Outcome(db: D, undone: seq<Operation>, err: Option<RunError>)

  /** The steps an operation comes down to: an operation that separates database
      and state runs its database operations, each from the state its predecessors
      lead to. */
  function Trace(op: Operation, app: string, before: State, after: State): seq<Step>
    decreases op
  {
    if op.SeparateDatabaseAndState? then TraceAll(op.databaseOperations, app, before) else [Step(op, before, after)]
  }

  function TraceAll(ops: seq<Operation>, app: string, s: State): seq<Step>
    decreases ops
  {
    if ops == [] then []
    else
      match Forwards(ops[0], app, s)
      case Err(e) => [Fail(e)]
      case Ok(after) => Trace(ops[0], app, s, after) + TraceAll(ops[1..], app, after)
  }

  /** Run the steps on the database, first to last. */
  function RunOn<D>(fx: Effects<D>, steps: seq<Step>, db: D): Outcome<D>
    decreases |steps|
  {
    if steps == [] then Outcome(db, [], None)
    else
      match steps[0]
      case Fail(e) => Outcome(db, [], Some(StateFailed(e)))
      case Step(op, before, after) =>
        match fx.forwards(op, before, after, db)
        case Err(e) => Outcome(db, [], Some(DatabaseFailed(e)))
        case Ok(next) => RunOn(fx, steps[1..], next)
  }

  /** Undo the steps, last to first. */
  function RunBack<D>(fx: Effects<D>, steps: seq<Step>, db: D, undone: seq<Operation>): Outcome<D>
    decreases |steps|
  {
    if steps == [] then Outcome(db, undone, None)
    else
      match steps[|steps| - 1]
      case Fail(e) => Outcome(db, undone, Some(StateFailed(e)))
      case Step(op, before, after) =>
        if !Reversible(op) then Outcome(db, undone, Some(Irreversible(op)))
        else
          match fx.backwards(op, after, before, db)
          case Err(e) => Outcome(db, undone, Some(DatabaseFailed(e)))
          case Ok(next) => RunBack(fx, steps[..|steps| - 1], next, undone + [op])
  }

  lemma {:induction false} RunOnConcat<D>(fx: Effects<D>, a: seq<Step>, b: seq<Step>, db: D)
    ensures var r := RunOn(fx, a, db);
      RunOn(fx, a + b, db) == if r.err.Some? then r else RunOn(fx, b, r.db)
    decreases |a|
  {
    if a == [] {
      assert a + b == b;
    } else {
      assert (a + b)[1..] == a[1..] + b;
      if a[0].Step? && fx.forwards(a[0].op, a[0].before, a[0].after, db).Ok? {
        RunOnConcat(fx, a[1..], b, fx.forwards(a[0].op, a[0].before, a[0].after, db).value);
      }
    }
  }

  lemma {:induction false} RunBackConcat<D>(fx: Effects<D>, a: seq<Step>, b: seq<Step>, db: D, undone: seq<Operation>)
    ensures var r := RunBack(fx, b, db, undone);
      RunBack(fx, a + b, db, undone) == if r.err.Some? then r else RunBack(fx, a, r.db, r.undone)
    decreases |b|
  {
    if b == [] {
      assert a + b == a;
    } else {
      var front, last := b[..|b| - 1], b[|b| - 1];
      assert (a + b)[..|a + b| - 1] == a + front;
      if last.Step? && Reversible(last.op) && fx.backwards(last.op, last.after, last.before, db).Ok? {
        RunBackConcat(fx, a, front, fx.backwards(last.op, last.after, last.before, db).value, undone + [last.op]);
      }
    }
  }

  lemma {:induction false} TraceSnoc(ops: seq<Operation>, op: Operation, app: string, s: State)
    requires ForwardsAll(ops, app, s).Ok?
    ensures var t := ForwardsAll(ops, app, s).value;
      && ForwardsAll(ops + [op], app, s) == Forwards(op, app, t)
      && TraceAll(ops + [op], app, s) == TraceAll(ops, app, s)
           + match Forwards(op, app, t) { case Err(e) => [Fail(e)] case Ok(u) => Trace(op, app, t, u) }
    decreases |ops|
  {
    hide Trace, Forwards;
    if ops == [] {
      assert [] + [op] == [op] && [op][1..] == [];
    } else {
      assert (ops + [op])[1..] == ops[1..] + [op];
      TraceSnoc(ops[1..], op, app, Forwards(ops[0], app, s).value);
    }
  }

  /** The state operations fail at one operation, whatever comes after it. */
  lemma {:induction false} TraceFails(ops: seq<Operation>, i: nat, app: string, s: State)
    requires i < |ops| && ForwardsAll(ops[..i], app, s).Ok? &&
      Forwards(ops[i], app, ForwardsAll(ops[..i], app, s).value).Err?
    ensures var e := Forwards(ops[i], app, ForwardsAll(ops[..i], app, s).value).error;
      && TraceAll(ops, app, s) != [] && TraceAll(ops, app, s)[|TraceAll(ops, app, s)| - 1] == Fail(e)
      && ForwardsAll(ops, app, s) == Err(e)
    decreases |ops|
  {
    if i > 0 {
      assert ops[..i][1..] == ops[1..][..i - 1] && ops[..i][0] == ops[0];
      TraceFails(ops[1..], i - 1, app, Forwards(ops[0], app, s).value);
    }
  }

  // --- What is called, and between which states ---

  /** The state before the i-th operation, or after the last one. */
  function StateAt(ops: seq<Operation>, app: string, s: State, i: nat): Result<State, StateError>
    requires i <= |ops|
  {
    ForwardsAll(ops[..i], app, s)
  }

  /** There are states before and after the i-th operation. */
  ghost predicate Between(ops: seq<Operation>, app: string, s: State, i: nat)
    requires i < |ops|
  {
    StateAt(ops, app, s, i).Ok? && StateAt(ops, app, s, i + 1).Ok?
  }

  /** The operation takes the database from db to db'. One that separates database and
      state does so by its database operations, starting from the state before it. */
  ghost predicate Ran<D(!new)>(fx: Effects<D>, op: Operation, app: string, before: State, after: State, db: D, db': D)
    decreases op, 0
  {
    if op.SeparateDatabaseAndState? then
      exists dbs: seq<D> :: |dbs| == |op.databaseOperations| + 1 && dbs[0] == db && dbs[|dbs| - 1] == db'
        && RanAll(fx, op.databaseOperations, app, before, dbs)
    else fx.forwards(op, before, after, db) == Ok(db')
  }

  ghost predicate RanAt<D(!new)>(fx: Effects<D>, ops: seq<Operation>, app: string, s: State, dbs: seq<D>, i: nat)
    requires i < |ops| && i + 1 < |dbs|
    decreases ops, 0
  {
    && Between(ops, app, s, i)
    && Ran(fx, ops[i], app, StateAt(ops, app, s, i).value, StateAt(ops, app, s, i + 1).value, dbs[i], dbs[i + 1])
  }

  /** The first operations take the database from each of dbs to the next. */
  ghost predicate RanAll<D(!new)>(fx: Effects<D>, ops: seq<Operation>, app: string, s: State, dbs: seq<D>)
    decreases ops, 1
  {
    0 < |dbs| <= |ops| + 1 && forall i :: 0 <= i && i + 1 < |dbs| ==> RanAt(fx, ops, app, s, dbs, i)
  }

  /** The same backwards: the states are those the operation ran between, the one after
      it first. */
  ghost predicate RanBack<D(!new)>(fx: Effects<D>, op: Operation, app: string, before: State, after: State, db: D,
      db': D)
    decreases op, 0
  {
    if op.SeparateDatabaseAndState? then
      exists dbs: seq<D> :: |dbs| == |op.databaseOperations| + 1 && dbs[0] == db && dbs[|dbs| - 1] == db'
        && RanBackAll(fx, op.databaseOperations, app, before, dbs)
    else Reversible(op) && fx.backwards(op, after, before, db) == Ok(db')
  }

  ghost predicate RanBackAt<D(!new)>(fx: Effects<D>, ops: seq<Operation>, app: string, s: State, dbs: seq<D>, j: nat)
    requires j < |ops| && j + 1 < |dbs|
    decreases ops, 0
  {
    var i := |ops| - 1 - j;
    && Between(ops, app, s, i)
    && RanBack(fx, ops[i], app, StateAt(ops, app, s, i).value, StateAt(ops, app, s, i + 1).value, dbs[j], dbs[j + 1])
  }

  /** The last operations, last first, take the database from each of dbs to the next. */
  ghost predicate RanBackAll<D(!new)>(fx: Effects<D>, ops: seq<Operation>, app: string, s: State, dbs: seq<D>)
    decreases ops, 1
  {
    0 < |dbs| <= |ops| + 1 && forall j :: 0 <= j && j + 1 < |dbs| ==> RanBackAt(fx, ops, app, s, dbs, j)
  }

  lemma StateAtStart(ops: seq<Operation>, app: string, s: State)
    ensures StateAt(ops, app, s, 0) == Ok(s)
  {}

  lemma FirstState(ops: seq<Operation>, app: string, s: State)
    requires ops != []
    ensures StateAt(ops, app, s, 1) == Forwards(ops[0], app, s)
  {
    assert ops[..1][1..] == [] && ops[..1][0] == ops[0];
    if Forwards(ops[0], app, s).Ok? {
      assert ForwardsAll(ops[..1][1..], app, Forwards(ops[0], app, s).value) == Forwards(ops[0], app, s);
    }
  }

  lemma StateAtNext(ops: seq<Operation>, app: string, s: State, i: nat)
    requires ops != [] && Forwards(ops[0], app, s).Ok? && i < |ops|
    ensures StateAt(ops, app, s, i + 1) == StateAt(ops[1..], app, Forwards(ops[0], app, s).value, i)
  {
    assert ops[..i + 1][1..] == ops[1..][..i];
  }

  lemma StateAtFront(ops: seq<Operation>, app: string, s: State, i: nat)
    requires i < |ops|
    ensures StateAt(ops[..|ops| - 1], app, s, i) == StateAt(ops, app, s, i)
  {
    assert ops[..|ops| - 1][..i] == ops[..i];
  }

  lemma RanNextAt<D(!new)>(fx: Effects<D>, ops: seq<Operation>, app: string, s: State, db: D, rest: seq<D>, i: nat)
    requires ops != [] && Forwards(ops[0], app, s).Ok? && i + 1 < |rest| <= |ops|
    requires RanAt(fx, ops[1..], app, Forwards(ops[0], app, s).value, rest, i)
    ensures RanAt(fx, ops, app, s, [db] + rest, i + 1)
  {
    hide Ran, Forwards, ForwardsAll;
    StateAtNext(ops, app, s, i);
    StateAtNext(ops, app, s, i + 1);
    assert ops[i + 1] == ops[1..][i];
  }

  lemma RanNext<D(!new)>(fx: Effects<D>, ops: seq<Operation>, app: string, s: State, db: D, rest: seq<D>)
    requires ops != [] && Forwards(ops[0], app, s).Ok? && rest != []
    requires Ran(fx, ops[0], app, s, Forwards(ops[0], app, s).value, db, rest[0])
    requires RanAll(fx, ops[1..], app, Forwards(ops[0], app, s).value, rest)
    ensures RanAll(fx, ops, app, s, [db] + rest)
  {
    hide Ran, Forwards, ForwardsAll, StateAt;
    forall i | 0 <= i && i + 1 < |[db] + rest|
      ensures RanAt(fx, ops, app, s, [db] + rest, i)
    {
      if i == 0 {
        StateAtStart(ops, app, s);
        FirstState(ops, app, s);
      } else {
        RanNextAt(fx, ops, app, s, db, rest, i - 1);
      }
    }
  }

  /** What stopped a run at the k-th operation. */
  ghost predicate StoppedAt<D(!new)>(fx: Effects<D>, ops: seq<Operation>, app: string, s: State, k: nat, db: D,
      r: Outcome<D>)
    requires k < |ops|
  {
    if StateAt(ops, app, s, k).Err? then false
    else if StateAt(ops, app, s, k + 1).Err? then
      r.db == db && r.err == Some(StateFailed(StateAt(ops, app, s, k + 1).error))
    else
      Refused(fx, ops[k], StateAt(ops, app, s, k).value, StateAt(ops, app, s, k + 1).value, db, r)
  }

  ghost predicate Refused<D(!new)>(fx: Effects<D>, op: Operation, before: State, after: State, db: D, r: Outcome<D>) {
    && r.err.Some?
    && (!op.SeparateDatabaseAndState? ==>
          var x := fx.forwards(op, before, after, db);
          x.Err? && r.db == db && r.err == Some(DatabaseFailed(x.error)))
  }

  lemma StoppedNext<D(!new)>(fx: Effects<D>, ops: seq<Operation>, app: string, s: State, k: nat, db: D, r: Outcome<D>)
    requires ops != [] && Forwards(ops[0], app, s).Ok? && k + 1 < |ops|
    requires StoppedAt(fx, ops[1..], app, Forwards(ops[0], app, s).value, k, db, r)
    ensures StoppedAt(fx, ops, app, s, k + 1, db, r)
  {
    hide Refused, Forwards, ForwardsAll;
    StateAtNext(ops, app, s, k);
    StateAtNext(ops, app, s, k + 1);
    assert ops[k + 1] == ops[1..][k];
  }

  /** The run of one operation's steps is the run of the operation. */
  lemma StepsRan<D(!new)>(fx: Effects<D>, op: Operation, app: string, before: State, after: State, db: D)
    ensures var r := RunOn(fx, Trace(op, app, before, after), db);
      if r.err.None? then Ran(fx, op, app, before, after, db, r.db) else Refused(fx, op, before, after, db, r)
    decreases op, 1
  {
    if op.SeparateDatabaseAndState? {
      var dbs := AllStepsRan(fx, op.databaseOperations, app, before, db);
    } else {
      assert Trace(op, app, before, after)[1..] == [];
    }
  }

  /** The databases a run of the operations goes through, and what stopped it. */
  ghost predicate WentThrough<D(!new)>(fx: Effects<D>, ops: seq<Operation>, app: string, s: State, dbs: seq<D>,
      r: Outcome<D>)
  {
    && RanAll(fx, ops, app, s, dbs)
    && (if r.err.None? then |dbs| == |ops| + 1 && r.db == dbs[|ops|]
        else |dbs| <= |ops| && StoppedAt(fx, ops, app, s, |dbs| - 1, dbs[|dbs| - 1], r))
  }

  lemma AllStepsRan<D(!new)>(fx: Effects<D>, ops: seq<Operation>, app: string, s: State, db: D) returns (dbs: seq<D>)
    ensures WentThrough(fx, ops, app, s, dbs, RunOn(fx, TraceAll(ops, app, s), db)) && dbs[0] == db
    decreases ops, 0
  {
    dbs := [db];
    if ops != [] {
      hide StateAt, Ran, Refused, Forwards, ForwardsAll;
      StateAtStart(ops, app, s);
      FirstState(ops, app, s);
      var next := Forwards(ops[0], app, s);
      if next.Ok? {
        StepsRan(fx, ops[0], app, s, next.value, db);
        RunOnConcat(fx, Trace(ops[0], app, s, next.value), TraceAll(ops[1..], app, next.value), db);
        var r := RunOn(fx, Trace(ops[0], app, s, next.value), db);
        if r.err.None? {
          var rest := AllStepsRan(fx, ops[1..], app, next.value, r.db);
          dbs := [db] + rest;
          WentNext(fx, ops, app, s, db, rest, RunOn(fx, TraceAll(ops[1..], app, next.value), r.db));
        }
      }
    }
  }

  lemma WentNext<D(!new)>(fx: Effects<D>, ops: seq<Operation>, app: string, s: State, db: D, rest: seq<D>,
      r: Outcome<D>)
    requires ops != [] && Forwards(ops[0], app, s).Ok? && rest != []
    requires Ran(fx, ops[0], app, s, Forwards(ops[0], app, s).value, db, rest[0])
    requires WentThrough(fx, ops[1..], app, Forwards(ops[0], app, s).value, rest, r)
    ensures WentThrough(fx, ops, app, s, [db] + rest, r)
  {
    RanNext(fx, ops, app, s, db, rest);
    if r.err.Some? {
      StoppedNext(fx, ops, app, s, |rest| - 1, rest[|rest| - 1], r);
    }
    hide RanAll, StoppedAt, Forwards;
  }

  // Backwards.

  lemma RanBackFrontAt<D(!new)>(fx: Effects<D>, ops: seq<Operation>, app: string, s: State, db: D, rest: seq<D>, j: nat)
    requires ops != [] && j + 1 < |rest| <= |ops|
    requires RanBackAt(fx, ops[..|ops| - 1], app, s, rest, j)
    ensures RanBackAt(fx, ops, app, s, [db] + rest, j + 1)
  {
    hide RanBack, StateAt;
    var i := |ops| - 2 - j;
    StateAtFront(ops, app, s, i);
    StateAtFront(ops, app, s, i + 1);
    assert ops[i] == ops[..|ops| - 1][i];
  }

  lemma RanBackNext<D(!new)>(fx: Effects<D>, ops: seq<Operation>, app: string, s: State, db: D, rest: seq<D>)
    requires ops != [] && rest != [] && Between(ops, app, s, |ops| - 1)
    requires RanBack(fx, ops[|ops| - 1], app, StateAt(ops, app, s, |ops| - 1).value, StateAt(ops, app, s, |ops|).value,
               db, rest[0])
    requires RanBackAll(fx, ops[..|ops| - 1], app, s, rest)
    ensures RanBackAll(fx, ops, app, s, [db] + rest)
  {
    hide RanBack, StateAt;
    forall j | 0 <= j && j + 1 < |[db] + rest|
      ensures RanBackAt(fx, ops, app, s, [db] + rest, j)
    {
      if j > 0 {
        RanBackFrontAt(fx, ops, app, s, db, rest, j - 1);
      }
    }
  }

  ghost predicate RefusedBack<D(!new)>(fx: Effects<D>, op: Operation, before: State, after: State, db: D, r: Outcome<D>)
  {
    && r.err.Some?
    && (!op.SeparateDatabaseAndState? ==> r.db == db)
    && (!op.SeparateDatabaseAndState? && !Reversible(op) ==> r.err == Some(Irreversible(op)))
    && (!op.SeparateDatabaseAndState? && Reversible(op) ==>
          var x := fx.backwards(op, after, before, db);
          x.Err? && r.err == Some(DatabaseFailed(x.error)))
  }

  ghost predicate StoppedBackAt<D(!new)>(fx: Effects<D>, ops: seq<Operation>, app: string, s: State, j: nat, db: D,
      r: Outcome<D>)
    requires j < |ops|
  {
    var i := |ops| - 1 - j;
    if StateAt(ops, app, s, |ops|).Err? then
      j == 0 && r.db == db && r.err == Some(StateFailed(StateAt(ops, app, s, |ops|).error))
    else
      && Between(ops, app, s, i)
      && RefusedBack(fx, ops[i], StateAt(ops, app, s, i).value, StateAt(ops, app, s, i + 1).value, db, r)
  }

  /** The databases a run backwards goes through, and what stopped it. */
  ghost predicate WentBack<D(!new)>(fx: Effects<D>, ops: seq<Operation>, app: string, s: State, dbs: seq<D>,
      r: Outcome<D>)
  {
    && RanBackAll(fx, ops, app, s, dbs)
    && (if r.err.None? then |dbs| == |ops| + 1 && r.db == dbs[|ops|]
        else |dbs| <= |ops| && StoppedBackAt(fx, ops, app, s, |dbs| - 1, dbs[|dbs| - 1], r))
  }

  lemma StepsRanBack<D(!new)>(fx: Effects<D>, op: Operation, app: string, before: State, after: State, db: D,
      undone: seq<Operation>)
    ensures var r := RunBack(fx, Trace(op, app, before, after), db, undone);
      if r.err.None? then RanBack(fx, op, app, before, after, db, r.db) else RefusedBack(fx, op, before, after, db, r)
    decreases op, 1
  {
    if op.SeparateDatabaseAndState? {
      var dbs := AllStepsRanBack(fx, op.databaseOperations, app, before, db, undone);
    } else {
      assert Trace(op, app, before, after)[..0] == [];
    }
  }

  /** The steps backwards when some state cannot be computed. */
  lemma {:induction false} StateStops<D>(fx: Effects<D>, ops: seq<Operation>, app: string, s: State, db: D,
      undone: seq<Operation>)
    requires ForwardsAll(ops, app, s).Err?
    ensures RunBack(fx, TraceAll(ops, app, s), db, undone)
         == Outcome(db, undone, Some(StateFailed(ForwardsAll(ops, app, s).error)))
    decreases |ops|
  {
    if Forwards(ops[0], app, s).Ok? {
      var after := Forwards(ops[0], app, s).value;
      StateStops(fx, ops[1..], app, after, db, undone);
      RunBackConcat(fx, Trace(ops[0], app, s, after), TraceAll(ops[1..], app, after), db, undone);
    }
  }

  /** The states before and after the last operation. */
  lemma LastStates(ops: seq<Operation>, app: string, s: State)
    requires ops != [] && ForwardsAll(ops, app, s).Ok?
    ensures var before := ForwardsAll(ops[..|ops| - 1], app, s);
      && before.Ok? && Between(ops, app, s, |ops| - 1)
      && StateAt(ops, app, s, |ops| - 1) == before && StateAt(ops, app, s, |ops|) == ForwardsAll(ops, app, s)
      && TraceAll(ops, app, s) == TraceAll(ops[..|ops| - 1], app, s)
           + Trace(ops[|ops| - 1], app, before.value, ForwardsAll(ops, app, s).value)
  {
    hide Trace, Forwards;
    var front, last := ops[..|ops| - 1], ops[|ops| - 1];
    assert ops == front + [last] && ops[..|ops|] == ops;
    FrontRuns(ops, app, s);
    TraceSnoc(front, last, app, s);
  }

  lemma {:induction false} FrontRuns(ops: seq<Operation>, app: string, s: State)
    requires ops != [] && ForwardsAll(ops, app, s).Ok?
    ensures ForwardsAll(ops[..|ops| - 1], app, s).Ok?
    decreases |ops|
  {
    if |ops| > 1 {
      FrontRuns(ops[1..], app, Forwards(ops[0], app, s).value);
      assert ops[..|ops| - 1][1..] == ops[1..][..|ops| - 2];
    }
  }

  lemma {:induction false} AllStepsRanBack<D(!new)>(fx: Effects<D>, ops: seq<Operation>, app: string, s: State, db: D,
      undone: seq<Operation>) returns (dbs: seq<D>)
    ensures WentBack(fx, ops, app, s, dbs, RunBack(fx, TraceAll(ops, app, s), db, undone)) && dbs[0] == db
    decreases ops, 0
  {
    dbs := [db];
    if ops != [] {
      hide RanBack, RefusedBack, Forwards;
      if ForwardsAll(ops, app, s).Err? {
        StateStops(fx, ops, app, s, db, undone);
        assert ops[..|ops|] == ops;
      } else {
        hide ForwardsAll, StateAt, TraceAll, Trace;
        LastStates(ops, app, s);
        var front, last := ops[..|ops| - 1], ops[|ops| - 1];
        var before, after := ForwardsAll(front, app, s).value, ForwardsAll(ops, app, s).value;
        StepsRanBack(fx, last, app, before, after, db, undone);
        RunBackConcat(fx, TraceAll(front, app, s), Trace(last, app, before, after), db, undone);
        var r := RunBack(fx, Trace(last, app, before, after), db, undone);
        if r.err.None? {
          var rest := AllStepsRanBack(fx, front, app, s, r.db, r.undone);
          dbs := [db] + rest;
          WentBackNext(fx, ops, app, s, db, rest, RunBack(fx, TraceAll(front, app, s), r.db, r.undone));
        }
      }
    }
  }

  lemma WentBackNext<D(!new)>(fx: Effects<D>, ops: seq<Operation>, app: string, s: State, db: D, rest: seq<D>,
      r: Outcome<D>)
    requires ops != [] && rest != [] && Between(ops, app, s, |ops| - 1)
    requires RanBack(fx, ops[|ops| - 1], app, StateAt(ops, app, s, |ops| - 1).value, StateAt(ops, app, s, |ops|).value,
               db, rest[0])
    requires WentBack(fx, ops[..|ops| - 1], app, s, rest, r)
    ensures WentBack(fx, ops, app, s, [db] + rest, r)
  {
    hide RanBack, StateAt;
    RanBackNext(fx, ops, app, s, db, rest);
    if r.err.Some? {
      var front, j := ops[..|ops| - 1], |rest| - 1;
      var i := |ops| - 2 - j;
      StateAtFront(ops, app, s, i);
      StateAtFront(ops, app, s, i + 1);
      StateAtFront(ops, app, s, |front|);
      assert ops[i] == front[i];
    }
  }

  /** The call for the operation from the one state to the other took the database from
      db to db'. */
  ghost predicate CalledFrom<D(!new)>(fx: Effects<D>, op: Operation, from: Result<State, StateError>,
      to: Result<State, StateError>, db: D, db': D)
  {
    from.Ok? && to.Ok? && fx.forwards(op, from.value, to.value, db) == Ok(db')
  }

  ghost predicate CalledBackFrom<D(!new)>(fx: Effects<D>, op: Operation, from: Result<State, StateError>,
      to: Result<State, StateError>, db: D, db': D)
  {
    from.Ok? && to.Ok? && fx.backwards(op, from.value, to.value, db) == Ok(db')
  }

  lemma CalledAt<D(!new)>(fx: Effects<D>, ops: seq<Operation>, app: string, s: State, dbs: seq<D>, i: nat)
    requires i < |ops| && i + 1 < |dbs| && RanAt(fx, ops, app, s, dbs, i) && !ops[i].SeparateDatabaseAndState?
    ensures CalledFrom(fx, ops[i], StateAt(ops, app, s, i), StateAt(ops, app, s, i + 1), dbs[i], dbs[i + 1])
  {
    hide StateAt;
    FlatRan(fx, ops[i], app, StateAt(ops, app, s, i).value, StateAt(ops, app, s, i + 1).value, dbs[i], dbs[i + 1]);
  }

  lemma FlatRan<D(!new)>(fx: Effects<D>, op: Operation, app: string, before: State, after: State, db: D, db': D)
    requires Ran(fx, op, app, before, after, db, db') && !op.SeparateDatabaseAndState?
    ensures fx.forwards(op, before, after, db) == Ok(db')
  {}

  lemma CalledBackAt<D(!new)>(fx: Effects<D>, ops: seq<Operation>, app: string, s: State, dbs: seq<D>, j: nat)
    requires j < |ops| && j + 1 < |dbs| && RanBackAt(fx, ops, app, s, dbs, j)
    requires !ops[|ops| - 1 - j].SeparateDatabaseAndState?
    ensures var i := |ops| - 1 - j;
      CalledBackFrom(fx, ops[i], StateAt(ops, app, s, i + 1), StateAt(ops, app, s, i), dbs[j], dbs[j + 1])
  {
    hide StateAt;
    var i := |ops| - 1 - j;
    FlatRanBack(fx, ops[i], app, StateAt(ops, app, s, i).value, StateAt(ops, app, s, i + 1).value, dbs[j], dbs[j + 1]);
  }

  lemma FlatRanBack<D(!new)>(fx: Effects<D>, op: Operation, app: string, before: State, after: State, db: D, db': D)
    requires RanBack(fx, op, app, before, after, db, db') && !op.SeparateDatabaseAndState?
    ensures fx.backwards(op, after, before, db) == Ok(db')
  {}

  /** What the databases a run goes through say of a single operation. */
  lemma Called<D(!new)>(fx: Effects<D>, ops: seq<Operation>, app: string, s: State, dbs: seq<D>, r: Outcome<D>)
    requires WentThrough(fx, ops, app, s, dbs, r)
    ensures |dbs| <= |ops| + 1
    ensures forall i :: 0 <= i && i + 1 < |dbs| && !ops[i].SeparateDatabaseAndState? ==>
      CalledFrom(fx, ops[i], StateAt(ops, app, s, i), StateAt(ops, app, s, i + 1), dbs[i], dbs[i + 1])
  {
    hide StateAt, CalledFrom, RanAt;
    forall i | 0 <= i && i + 1 < |dbs| && !ops[i].SeparateDatabaseAndState?
      ensures CalledFrom(fx, ops[i], StateAt(ops, app, s, i), StateAt(ops, app, s, i + 1), dbs[i], dbs[i + 1])
    {
      CalledAt(fx, ops, app, s, dbs, i);
    }
  }

  lemma CalledBack<D(!new)>(fx: Effects<D>, ops: seq<Operation>, app: string, s: State, dbs: seq<D>, r: Outcome<D>)
    requires WentBack(fx, ops, app, s, dbs, r)
    ensures 0 < |dbs| <= |ops| + 1
    ensures forall i :: |ops| + 1 - |dbs| <= i < |ops| && !ops[i].SeparateDatabaseAndState? ==>
      CalledBackFrom(fx, ops[i], StateAt(ops, app, s, i + 1), StateAt(ops, app, s, i), dbs[|ops| - 1 - i],
        dbs[|ops| - i])
  {
    hide StateAt, Reversible, CalledBackFrom, RanBackAt;
    forall i | |ops| + 1 - |dbs| <= i < |ops| && !ops[i].SeparateDatabaseAndState?
      ensures CalledBackFrom(fx, ops[i], StateAt(ops, app, s, i + 1), StateAt(ops, app, s, i), dbs[|ops| - 1 - i],
                dbs[|ops| - i])
    {
      CalledBackAt(fx, ops, app, s, dbs, |ops| - 1 - i);
    }
  }

  lemma NothingYet(ops: seq<Operation>, app: string, s: State)
    ensures ForwardsAll(ops[..0], app, s) == Ok(s) && ops[0..] == ops
  {}

  lemma NothingMore<D>(fx: Effects<D>, ops: seq<Operation>, app: string, s: State, current: State, db: D)
    ensures ops[..|ops|] == ops && RunOn(fx, TraceAll(ops[|ops|..], app, current), db) == Outcome(db, [], None)
  {}

  /** What is left to run from the i-th operation on. */
  lemma ForwardStep<D>(fx: Effects<D>, ops: seq<Operation>, i: nat, app: string, s: State, current: State, db: D)
    requires i < |ops| && ForwardsAll(ops[..i], app, s) == Ok(current)
    ensures match Forwards(ops[i], app, current)
      case Err(e) => RunOn(fx, TraceAll(ops[i..], app, current), db) == Outcome(db, [], Some(StateFailed(e)))
      case Ok(after) =>
        var r := RunOn(fx, Trace(ops[i], app, current, after), db);
        && ForwardsAll(ops[..i + 1], app, s) == Ok(after)
        && RunOn(fx, TraceAll(ops[i..], app, current), db)
           == if r.err.Some? then r else RunOn(fx, TraceAll(ops[i + 1..], app, after), r.db)
  {
    assert ops[i..][1..] == ops[i + 1..] && ops[..i + 1] == ops[..i] + [ops[i]];
    TraceSnoc(ops[..i], ops[i], app, s);
    hide Trace, Forwards;
    if Forwards(ops[i], app, current).Ok? {
      var after := Forwards(ops[i], app, current).value;
      RunOnConcat(fx, Trace(ops[i], app, current, after), TraceAll(ops[i + 1..], app, after), db);
    }
  }

  /** The i-th operation cannot be undone: it is irreversible, or its state cannot be
      computed. */
  ghost predicate NoStep(ops: seq<Operation>, app: string, s: State, i: nat)
    requires i < |ops|
  {
    !Reversible(ops[i]) || StateAt(ops, app, s, i + 1).Err?
  }

  /** The first such operation is the one reported. */
  ghost predicate FirstNoStep(ops: seq<Operation>, app: string, s: State, i: nat, err: Option<RunError>)
    requires i < |ops|
  {
    && NoStep(ops, app, s, i) && (forall j :: 0 <= j < i ==> !NoStep(ops, app, s, j))
    && (!Reversible(ops[i]) ==> err == Some(Irreversible(ops[i])))
    && (Reversible(ops[i]) && StateAt(ops, app, s, i + 1).Err? ==>
          err == Some(StateFailed(StateAt(ops, app, s, i + 1).error)))
  }

  // --- The methods ---

  class SchemaEditor<!D(!new)> {
    const fx: Effects<D>
    var db: D
    // The operations whose backward step has run.
    ghost var undone: seq<Operation>

    constructor (fx: Effects<D>, db: D)
      ensures this.fx == fx && this.db == db && undone == []
    {
      this.fx, this.db, undone := fx, db, [];
    }

    /** Run the operation on the database, between the states before and after it. */
    method DatabaseForwards(op: Operation, app: string, before: State, after: State) returns (err: Option<RunError>)
      modifies this
      ensures Outcome(db, [], err) == RunOn(fx, Trace(op, app, before, after), old(db)) && undone == old(undone)
      decreases op, 1
    {
      if op.SeparateDatabaseAndState? {
        err := DatabaseForwardsAll(op.databaseOperations, app, before);
      } else {
        var r := fx.forwards(op, before, after, db);
        match r {
          case Ok(next) =>
            db := next;
            err := None;
          case Err(e) =>
            err := Some(DatabaseFailed(e));
        }
        assert Trace(op, app, before, after)[1..] == [];
      }
    }

    /** Run the operations in order, each from the state its predecessors lead to. */
    method DatabaseForwardsAll(ops: seq<Operation>, app: string, start: State) returns (err: Option<RunError>)
      modifies this
      ensures Outcome(db, [], err) == RunOn(fx, TraceAll(ops, app, start), old(db)) && undone == old(undone)
      decreases ops, 0
    {
      var before := start;
      var i := 0;
      while i < |ops|
        invariant 0 <= i <= |ops| && undone == old(undone)
        invariant RunOn(fx, TraceAll(ops, app, start), old(db)) == RunOn(fx, TraceAll(ops[i..], app, before), db)
      {
        assert ops[i..][1..] == ops[i + 1..];
        var after := Forwards(ops[i], app, before);
        if after.Err? {
          return Some(StateFailed(after.error));
        }
        RunOnConcat(fx, Trace(ops[i], app, before, after.value), TraceAll(ops[i + 1..], app, after.value), db);
        var e := DatabaseForwards(ops[i], app, before, after.value);
        if e.Some? {
          return e;
        }
        before := after.value;
        i := i + 1;
      }
      assert ops[i..] == [];
      return None;
    }

    /** Undo the operation on the database, between the states after and before it. */
    method DatabaseBackwards(op: Operation, app: string, after: State, before: State) returns (err: Option<RunError>)
      modifies this
      ensures Outcome(db, undone, err) == RunBack(fx, Trace(op, app, before, after), old(db), old(undone))
      decreases op, 1
    {
      if op.SeparateDatabaseAndState? {
        err := DatabaseBackwardsAll(op.databaseOperations, app, before);
      } else {
        assert Trace(op, app, before, after)[..0] == [];
        if !Reversible(op) {
          return Some(Irreversible(op));
        }
        var r := fx.backwards(op, after, before, db);
        match r {
          case Ok(next) =>
            db, undone := next, undone + [op];
            err := None;
          case Err(e) =>
            err := Some(DatabaseFailed(e));
        }
      }
    }

    /** Compute the state each operation starts from, then undo the operations from
        the last to the first. */
    method DatabaseBackwardsAll(ops: seq<Operation>, app: string, start: State) returns (err: Option<RunError>)
      modifies this
      ensures Outcome(db, undone, err) == RunBack(fx, TraceAll(ops, app, start), old(db), old(undone))
      decreases ops, 0
    {
      var before: seq<State> := [];
      var after := start;
      var i := 0;
      while i < |ops|
        invariant 0 <= i <= |ops| && |before| == i && db == old(db) && undone == old(undone)
        invariant ForwardsAll(ops[..i], app, start) == Ok(after)
        invariant forall j :: 0 <= j < i ==> ForwardsAll(ops[..j], app, start) == Ok(before[j])
      {
        before := before + [after];
        assert ops[..i + 1] == ops[..i] + [ops[i]];
        TraceSnoc(ops[..i], ops[i], app, start);
        var next := Forwards(ops[i], app, after);
        if next.Err? {
          TraceFails(ops, i, app, start);
          return Some(StateFailed(next.error));
        }
        after := next.value;
        i := i + 1;
      }
      assert ops[..i] == ops;
      while i > 0
        invariant 0 <= i <= |ops| == |before|
        invariant forall j :: 0 <= j < |ops| ==> ForwardsAll(ops[..j], app, start) == Ok(before[j])
        invariant ForwardsAll(ops[..i], app, start) == Ok(after)
        invariant RunBack(fx, TraceAll(ops, app, start), old(db), old(undone))
          == RunBack(fx, TraceAll(ops[..i], app, start), db, undone)
      {
        i := i - 1;
        assert ops[..i + 1] == ops[..i] + [ops[i]];
        TraceSnoc(ops[..i], ops[i], app, start);
        RunBackConcat(fx, TraceAll(ops[..i], app, start), Trace(ops[i], app, before[i], after), db, undone);
        var e := DatabaseBackwards(ops[i], app, after, before[i]);
        if e.Some? {
          return e;
        }
        after := before[i];
      }
      assert ops[..i] == [];
      return None;
    }

    /** Run the migration's operations forwards. The database goes through dbs: each
        operation is run once, from the state its predecessors lead to and to the state
        it leads to itself. */
    method Apply(ops: seq<Operation>, app: string, state: State)
        returns (r: Result<State, RunError>, ghost dbs: seq<D>)
      modifies this
      ensures Outcome(db, [], if r.Err? then Some(r.error) else None) == RunOn(fx, TraceAll(ops, app, state), old(db))
      ensures undone == old(undone) && (r.Ok? ==> ForwardsAll(ops, app, state) == Ok(r.value))
      ensures WentThrough(fx, ops, app, state, dbs, Outcome(db, [], if r.Err? then Some(r.error) else None))
      ensures dbs[0] == old(db)
      ensures forall i :: 0 <= i && i + 1 < |dbs| && !ops[i].SeparateDatabaseAndState? ==>
        CalledFrom(fx, ops[i], StateAt(ops, app, state, i), StateAt(ops, app, state, i + 1), dbs[i], dbs[i + 1])
    {
      hide Forwards, StateAt, TraceAll, Trace, RunOn, WentThrough, CalledFrom;
      dbs := AllStepsRan(fx, ops, app, state, db);
      Called(fx, ops, app, state, dbs, RunOn(fx, TraceAll(ops, app, state), db));
      NothingYet(ops, app, state);
      var current := state;
      var i := 0;
      while i < |ops|
        invariant 0 <= i <= |ops| && undone == old(undone)
        invariant RunOn(fx, TraceAll(ops, app, state), old(db)) == RunOn(fx, TraceAll(ops[i..], app, current), db)
        invariant ForwardsAll(ops[..i], app, state) == Ok(current)
      {
        ForwardStep(fx, ops, i, app, state, current, db);
        var oldState := current;
        var next := Forwards(ops[i], app, current);
        if next.Err? {
          return Err(StateFailed(next.error)), dbs;
        }
        current := next.value;
        var e := DatabaseForwards(ops[i], app, oldState, current);
        if e.Some? {
          return Err(e.value), dbs;
        }
        i := i + 1;
      }
      NothingMore(fx, ops, app, state, current, db);
      return Ok(current), dbs;
    }

    /** The operations of a migration with the states each runs between, last
        first; or the first that cannot be reversed or whose state fails. */
    static method PlanBackwards(ops: seq<Operation>, app: string, state: State)
        returns (r: Result<seq<(Operation, State, State)>, RunError>)
      ensures r.Ok? ==> Planned(ops, app, state, |ops|, r.value) && forall i :: 0 <= i < |ops| ==>
        Reversible(ops[i]) && !NoStep(ops, app, state, i)
      ensures r.Err? ==> (exists i :: 0 <= i < |ops| && !Reversible(ops[i])) || FailsLast(TraceAll(ops, app, state), r.error)
      ensures r.Err? ==> exists i :: 0 <= i < |ops| && FirstNoStep(ops, app, state, i, Some(r.error))
    {
      var toRun: seq<(Operation, State, State)> := [];
      var newState := state;
      var i := 0;
      hide TraceAll, Trace, Reversible, Forwards;
      while i < |ops|
        invariant 0 <= i <= |ops| && Planned(ops, app, state, i, toRun)
        invariant ForwardsAll(ops[..i], app, state) == Ok(newState)
        invariant forall j :: 0 <= j < i ==> Reversible(ops[j]) && !NoStep(ops, app, state, j)
      {
        if !Reversible(ops[i]) {
          assert FirstNoStep(ops, app, state, i, Some(Irreversible(ops[i])));
          return Err(Irreversible(ops[i]));
        }
        var oldState := newState;
        assert ops[..i + 1] == ops[..i] + [ops[i]];
        TraceSnoc(ops[..i], ops[i], app, state);
        var next := Forwards(ops[i], app, newState);
        if next.Err? {
          TraceFails(ops, i, app, state);
          assert FirstNoStep(ops, app, state, i, Some(StateFailed(next.error)));
          return Err(StateFailed(next.error));
        }
        newState := next.value;
        PlannedNext(ops, app, state, i, toRun, (ops[i], oldState, newState));
        toRun := [(ops[i], oldState, newState)] + toRun;
        i := i + 1;
      }
      return Ok(toRun);
    }

    /** Run the migration's operations backwards, unless one of them cannot be
        reversed: then nothing runs. The database goes through dbs: the last operation
        is undone first, each between the two states it ran between. */
    method Unapply(ops: seq<Operation>, app: string, state: State)
        returns (err: Option<RunError>, ghost dbs: seq<D>)
      modifies this
      ensures (forall i :: 0 <= i < |ops| ==> Reversible(ops[i])) ==>
          Outcome(db, undone, err) == RunBack(fx, TraceAll(ops, app, state), old(db), old(undone))
      ensures (exists i :: 0 <= i < |ops| && !Reversible(ops[i])) ==>
        err.Some? && db == old(db) && undone == old(undone)
      ensures (exists i :: 0 <= i < |ops| && NoStep(ops, app, state, i)) ==>
        exists i :: 0 <= i < |ops| && FirstNoStep(ops, app, state, i, err)
      ensures (forall i :: 0 <= i < |ops| ==> Reversible(ops[i])) ==>
        WentBack(fx, ops, app, state, dbs, Outcome(db, undone, err)) && dbs[0] == old(db)
      ensures (forall i :: 0 <= i < |ops| ==> Reversible(ops[i])) ==>
        forall i :: |ops| + 1 - |dbs| <= i < |ops| && !ops[i].SeparateDatabaseAndState? ==>
          CalledBackFrom(fx, ops[i], StateAt(ops, app, state, i + 1), StateAt(ops, app, state, i), dbs[|ops| - 1 - i],
            dbs[|ops| - i])
    {
      hide TraceAll, Trace, Reversible, Forwards, StateAt, RunBack, WentBack, FirstNoStep, CalledBackFrom;
      dbs := AllStepsRanBack(fx, ops, app, state, db, undone);
      CalledBack(fx, ops, app, state, dbs, RunBack(fx, TraceAll(ops, app, state), db, undone));
      var plan := PlanBackwards(ops, app, state);
      if plan.Err? {
        FailingStops(fx, TraceAll(ops, app, state), plan.error, db, undone);
        return Some(plan.error), dbs;
      }
      var toRun := plan.value;
      var k := 0;
      assert ops[..|ops|] == ops;
      while k < |toRun|
        invariant 0 <= k <= |toRun| == |ops|
        invariant RunBack(fx, TraceAll(ops, app, state), old(db), old(undone))
          == RunBack(fx, TraceAll(ops[..|ops| - k], app, state), db, undone)
      {
        BeforeLast(ops, app, state, toRun, k, fx, db, undone);
        var e := DatabaseBackwards(toRun[k].0, app, toRun[k].2, toRun[k].1);
        if e.Some? {
          return e, dbs;
        }
        k := k + 1;
      }
      NothingLeft(fx, ops, app, state, db, undone);
      return None, dbs;
    }
  }

  lemma NothingLeft<D>(fx: Effects<D>, ops: seq<Operation>, app: string, s: State, db: D, undone: seq<Operation>)
    ensures RunBack(fx, TraceAll(ops[..0], app, s), db, undone) == Outcome(db, undone, None)
  {}

  ghost predicate FailsLast(steps: seq<Step>, e: RunError) {
    e.StateFailed? && steps != [] && steps[|steps| - 1] == Fail(e.error)
  }

  lemma FailingStops<D>(fx: Effects<D>, steps: seq<Step>, e: RunError, db: D, undone: seq<Operation>)
    ensures FailsLast(steps, e) ==> RunBack(fx, steps, db, undone) == Outcome(db, undone, Some(e))
  {}

  /** toRun holds the first i operations, last first, with their states. */
  ghost predicate Planned(ops: seq<Operation>, app: string, s: State, i: nat, toRun: seq<(Operation, State, State)>)
    requires i <= |ops|
  {
    |toRun| == i && forall k :: 0 <= k < i ==> StepAt(ops, app, s, i - 1 - k, toRun[k])
  }

  lemma PlannedNext(ops: seq<Operation>, app: string, s: State, i: nat, toRun: seq<(Operation, State, State)>,
      step: (Operation, State, State))
    requires i < |ops| && Planned(ops, app, s, i, toRun) && StepAt(ops, app, s, i, step)
    ensures Planned(ops, app, s, i + 1, [step] + toRun)
  {
    var more := [step] + toRun;
    forall k | 0 <= k < i + 1
      ensures StepAt(ops, app, s, i - k, more[k])
    {
      if k > 0 {
        assert StepAt(ops, app, s, i - 1 - (k - 1), toRun[k - 1]);
      }
    }
  }

  /** Undoing the last operation comes first. */
  lemma BeforeLast<D>(ops: seq<Operation>, app: string, s: State, toRun: seq<(Operation, State, State)>, k: nat,
      fx: Effects<D>, db: D, undone: seq<Operation>)
    requires k < |toRun| && Planned(ops, app, s, |ops|, toRun)
    ensures var r := RunBack(fx, Trace(toRun[k].0, app, toRun[k].1, toRun[k].2), db, undone);
      RunBack(fx, TraceAll(ops[..|ops| - k], app, s), db, undone)
      == if r.err.Some? then r else RunBack(fx, TraceAll(ops[..|ops| - (k + 1)], app, s), r.db, r.undone)
  {
    var j := |ops| - 1 - k;
    assert StepAt(ops, app, s, j, toRun[k]);
    assert ops[..j + 1] == ops[..j] + [ops[j]];
    TraceSnoc(ops[..j], ops[j], app, s);
    RunBackConcat(fx, TraceAll(ops[..j], app, s), Trace(ops[j], app, toRun[k].1, toRun[k].2), db, undone);
  }

  /** The j-th operation and the states before and after it. */
  ghost predicate StepAt(ops: seq<Operation>, app: string, start: State, j: nat, step: (Operation, State, State))
    requires j < |ops|
  {
    && step.0 == ops[j] && ForwardsAll(ops[..j], app, start) == Ok(step.1) &&
      Forwards(ops[j], app, step.1) == Ok(step.2)
  }

  // --- Undoing what was applied ---

  /** The backward step of a reversible operation undoes its forward step, between
      the same two states. */
  ghost predicate Inverts<D(!new)>(fx: Effects<D>) {
    forall op, before, after, db :: Reversible(op) && fx.forwards(op, before, after, db).Ok? ==>
      fx.backwards(op, after, before, fx.forwards(op, before, after, db).value) == Ok(db)
  }

  predicate StepsReversible(steps: seq<Step>) {
    forall i :: 0 <= i < |steps| && steps[i].Step? ==> Reversible(steps[i].op)
  }

  /** Reversible, and so are the database operations inside. */
  predicate DeepReversible(op: Operation) {
    if op.SeparateDatabaseAndState? then forall i :: 0 <= i < |op.databaseOperations| ==>
      DeepReversible(op.databaseOperations[i])
    else Reversible(op)
  }

  lemma DeepTrace(op: Operation, app: string, before: State, after: State)
    requires DeepReversible(op)
    ensures StepsReversible(Trace(op, app, before, after))
    decreases op
  {
    if op.SeparateDatabaseAndState? {
      DeepTraceAll(op.databaseOperations, app, before);
    }
  }

  lemma DeepTraceAll(ops: seq<Operation>, app: string, s: State)
    requires forall i :: 0 <= i < |ops| ==> DeepReversible(ops[i])
    ensures StepsReversible(TraceAll(ops, app, s))
    decreases ops
  {
    if ops != [] && Forwards(ops[0], app, s).Ok? {
      DeepTrace(ops[0], app, s, Forwards(ops[0], app, s).value);
      DeepTraceAll(ops[1..], app, Forwards(ops[0], app, s).value);
    }
  }

  lemma {:induction false} StepsUndone<D(!new)>(fx: Effects<D>, steps: seq<Step>, db: D, undone: seq<Operation>)
    requires Inverts(fx) && StepsReversible(steps) && RunOn(fx, steps, db).err.None?
    ensures RunBack(fx, steps, RunOn(fx, steps, db).db, undone).db == db &&
      RunBack(fx, steps, RunOn(fx, steps, db).db, undone).err.None?
    decreases |steps|
  {
    if steps != [] {
      var first, rest := steps[0], steps[1..];
      var next := fx.forwards(first.op, first.before, first.after, db).value;
      assert Reversible(first.op);
      assert StepsReversible(rest);
      StepsUndone(fx, rest, next, undone);
      assert steps == [first] + rest;
      RunBackConcat(fx, [first], rest, RunOn(fx, steps, db).db, undone);
      assert [first][..0] == [];
    }
  }

  /** Unapplying right after applying restores the database, for any operations,
      nested ones included, that are reversible all the way down. */
  lemma UnapplyUndoesApply<D(!new)>(fx: Effects<D>, ops: seq<Operation>, app: string, s: State, db: D,
      undone: seq<Operation>)
    requires Inverts(fx) && forall i :: 0 <= i < |ops| ==> DeepReversible(ops[i])
    requires RunOn(fx, TraceAll(ops, app, s), db).err.None?
    ensures forall i :: 0 <= i < |ops| ==> Reversible(ops[i])
    ensures var r := RunBack(fx, TraceAll(ops, app, s), RunOn(fx, TraceAll(ops, app, s), db).db, undone);
      r.db == db && r.err.None?
  {
    DeepTraceAll(ops, app, s);
    StepsUndone(fx, TraceAll(ops, app, s), db, undone);
    forall i | 0 <= i < |ops|
      ensures Reversible(ops[i])
    {
      assert DeepReversible(ops[i]);
    }
  }

  // --- Irreversible operations inside others ---

  /** No backward step fails. */
  ghost predicate BackwardsTotal<D(!new)>(fx: Effects<D>) {
    forall op, after, before, db :: Reversible(op) ==> fx.backwards(op, after, before, db).Ok?
  }

  lemma {:induction false} BackwardStops<D(!new)>(fx: Effects<D>, steps: seq<Step>, db: D, undone: seq<Operation>)
    requires BackwardsTotal(fx) && (forall i :: 0 <= i < |steps| ==> steps[i].Step?) && !StepsReversible(steps)
    ensures var r := RunBack(fx, steps, db, undone);
      && r.err.Some? && |undone| <= |r.undone|
      && (|r.undone| == |undone| <==> !Reversible(steps[|steps| - 1].op))
    decreases |steps|
  {
    var front, last := steps[..|steps| - 1], steps[|steps| - 1];
    if Reversible(last.op) {
      assert !StepsReversible(front) by {
        var i :| 0 <= i < |steps| && steps[i].Step? && !Reversible(steps[i].op);
        assert front[i] == steps[i];
      }
      BackwardStops(fx, front, fx.backwards(last.op, last.after, last.before, db).value, undone + [last.op]);
    }
  }

  /** Every operation of the migration passes for reversible, but one inside is
      not: the run fails, and no backward step has run by then exactly when the
      very last step of the migration is an irreversible one. */
  lemma NestedIrreversible<D(!new)>(fx: Effects<D>, ops: seq<Operation>, app: string, s: State, db: D)
    requires BackwardsTotal(fx) && !StepsReversible(TraceAll(ops, app, s))
    requires forall i :: 0 <= i < |TraceAll(ops, app, s)| ==> TraceAll(ops, app, s)[i].Step?
    ensures var steps, r := TraceAll(ops, app, s), RunBack(fx, TraceAll(ops, app, s), db, []);
      r.err.Some? && steps != [] && (r.undone == [] <==> !Reversible(steps[|steps| - 1].op))
  {
    BackwardStops(fx, TraceAll(ops, app, s), db, []);
  }

  lemma TraceOfGo(code: string, reverse: Option<string>, app: string, s: State)
    ensures TraceAll([RunGo(code, reverse, false)], app, s) == [Step(RunGo(code, reverse, false), s, s)]
  {
    assert [RunGo(code, reverse, false)][1..] == [];
  }

  lemma NestedTrace(stuck: Operation, last: Operation, app: string, s: State)
    requires stuck == RunGo("stuck", None, false) && last == RunGo("last", Some("back"), false)
    ensures TraceAll([SeparateDatabaseAndState([stuck], []), last], app, s) == [Step(stuck, s, s), Step(last, s, s)]
  {
    var ops := [SeparateDatabaseAndState([stuck], []), last];
    assert ops[1..] == [last] && Forwards(ops[0], app, s) == Ok(s);
    TraceOfGo("stuck", None, app, s);
    TraceOfGo("last", Some("back"), app, s);
  }

  /** An irreversible operation inside another does not keep the ones after it from
      being undone. */
  lemma NestedIrreversibleUndoes<D(!new)>(fx: Effects<D>, app: string, s: State, db: D)
    requires BackwardsTotal(fx)
    ensures var stuck, last := RunGo("stuck", None, false), RunGo("last", Some("back"), false);
      var ops := [SeparateDatabaseAndState([stuck], []), last];
      && Reversible(ops[0]) && Reversible(ops[1])
      && RunBack(fx, TraceAll(ops, app, s), db, []).err == Some(Irreversible(stuck))
      && RunBack(fx, TraceAll(ops, app, s), db, []).undone == [last]
  {
    var stuck, last := RunGo("stuck", None, false), RunGo("last", Some("back"), false);
    NestedTrace(stuck, last, app, s);
    hide Forwards, TraceAll;
    var steps := [Step(stuck, s, s), Step(last, s, s)];
    assert steps[..1] == [Step(stuck, s, s)];
    var next := fx.backwards(last, s, s, db).value;
    assert RunBack(fx, steps[..1], next, [last]) == Outcome(next, [last], Some(Irreversible(stuck)));
  }
}
