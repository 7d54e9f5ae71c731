/** Applying what the autodetector generates for a model leaves nothing to generate
    for it. */
module ModelConvergence {
  import opened Wrappers
  import opened Digraph
  import opened Names
  import opened ModelStates
  import opened Operations
  import opened States
  import opened ModelDiff
  import opened FieldReductions
  import Keys

  /** The model after the operations, each of which changes just it. */
  function RunAll(ops: seq<Operation>, app: string, m: ModelState): Result<ModelState, StateError> {
    if ops == [] then Ok(m)
    else
      match RunAll(ops[..|ops| - 1], app, m)
      case Err(e) => Err(e)
      case Ok(next) => ChangeModel(ops[|ops| - 1], app, next)
  }

  lemma {:induction false} RunBoth(a: seq<Operation>, b: seq<Operation>, app: string, m: ModelState)
    requires RunAll(a, app, m).Ok?
    ensures RunAll(a + b, app, m) == RunAll(b, app, RunAll(a, app, m).value)
    decreases |b|
  {
    if b == [] {
      assert a + b == a;
    } else {
      var front := b[..|b| - 1];
      assert (a + b)[..|a + b| - 1] == a + front;
      RunBoth(a, front, app, m);
    }
  }

  lemma RunMore(ops: seq<Operation>, op: Operation, app: string, m: ModelState)
    requires RunAll(ops, app, m).Ok?
    ensures RunAll(ops + [op], app, m) == ChangeModel(op, app, RunAll(ops, app, m).value)
  {
    assert (ops + [op])[..|ops|] == ops;
  }

  // --- Fields ---

  /** The fields are those of before, but what name stands for. */
  ghost predicate Rebound(r: Fields, before: Fields, name: string, f: Option<Field>) {
    DistinctNames(r) && forall n :: Lookup(r, n) == if n == name then f else Lookup(before, n)
  }

  lemma DistinctAfterRemoving(fs: Fields, at: nat)
    requires DistinctNames(fs) && at < |fs|
    ensures DistinctNames(RemoveAt(fs, at)) && !HasField(RemoveAt(fs, at), fs[at].name)
  {
    var r := RemoveAt(fs, at);
    forall j | 0 <= j < |r|
      ensures r[j].name != fs[at].name
    {
      assert r[j] == fs[if j < at then j else j + 1];
    }
    forall i, j | 0 <= i < j < |r|
      ensures r[i].name != r[j].name
    {
      assert r[i] == fs[if i < at then i else i + 1] && r[j] == fs[if j < at then j else j + 1];
    }
  }

  lemma OthersAfterRemoving(fs: Fields, at: nat, n: string)
    requires at < |fs| && fs[at].name != n
    ensures Lookup(RemoveAt(fs, at), n) == Lookup(fs, n)
  {
    IndexAfterRemove(fs, at, n);
    hide FieldIndex;
  }

  lemma AfterRemoving(fs: Fields, name: string)
    requires DistinctNames(fs) && HasField(fs, name)
    ensures Rebound(RemoveAt(fs, FieldIndex(fs, name)), fs, name, None)
  {
    var at := FieldIndex(fs, name);
    DistinctAfterRemoving(fs, at);
    forall n
      ensures Lookup(RemoveAt(fs, at), n) == if n == name then None else Lookup(fs, n)
    {
      hide FieldIndex, DistinctNames, RemoveAt;
      if n != name {
        OthersAfterRemoving(fs, at, n);
      }
    }
  }

  lemma AfterAdding(fs: Fields, name: string, f: Field)
    requires DistinctNames(fs) && !HasField(fs, name)
    ensures Rebound(fs + [NamedField(name, f)], fs, name, Some(f))
  {
    var r := fs + [NamedField(name, f)];
    forall n
      ensures Lookup(r, n) == if n == name then Some(f) else Lookup(fs, n)
    {
      IndexAfterAdd(fs, NamedField(name, f), n);
    }
  }

  lemma AfterAltering(fs: Fields, name: string, f: Field)
    requires DistinctNames(fs) && HasField(fs, name)
    ensures Rebound(fs[FieldIndex(fs, name) := NamedField(name, f)], fs, name, Some(f))
  {
    var at := FieldIndex(fs, name);
    var r := fs[at := NamedField(name, f)];
    forall n
      ensures Lookup(r, n) == if n == name then Some(f) else Lookup(fs, n)
    {
      IndexAfterAlter(fs, at, NamedField(name, f), n);
      if FieldIndex(fs, n) == at {
        assert n == name;
      }
    }
  }

  /** One more name is bound anew. */
  lemma ReboundMore(before: Fields, mid: Fields, r: Fields, front: seq<string>, name: string, anew: Fields)
    requires AllRebound(mid, before, front, anew) && Rebound(r, mid, name, Lookup(anew, name))
    ensures AllRebound(r, before, front + [name], anew)
  {
    forall n
      ensures Lookup(r, n) == if n in front + [name] then Lookup(anew, n) else Lookup(before, n)
    {
      hide Lookup;
    }
  }

  /** The fields are those of before, but that the names stand for what anew says. */
  ghost predicate AllRebound(r: Fields, before: Fields, names: seq<string>, anew: Fields) {
    DistinctNames(r) && forall n :: Lookup(r, n) == if n in names then Lookup(anew, n) else Lookup(before, n)
  }

  /** The model differs only in its fields. */
  predicate OnlyFields(r: ModelState, m: ModelState) {
    r == m.(fields := r.fields)
  }

  lemma Front(names: seq<string>)
    requires Distinct(names) && names != []
    ensures var front, name := names[..|names| - 1], names[|names| - 1];
      names == front + [name] && Distinct(front) && name !in front
  {}

  predicate AllThere(fs: Fields, names: seq<string>) {
    forall n :: n in names ==> HasField(fs, n)
  }

  lemma RemovalStep(model: string, front: seq<string>, name: string, app: string, m: ModelState, mid: ModelState)
    requires OnlyFields(mid, m) && AllRebound(mid.fields, m.fields, front, []) && name !in front &&
      HasField(m.fields, name)
    ensures var r := ChangeModel(RemoveField(model, name), app, mid);
      r.Ok? && OnlyFields(r.value, m) && AllRebound(r.value.fields, m.fields, front + [name], [])
  {
    assert Lookup(mid.fields, name) == Lookup(m.fields, name);
    hide FieldIndex, Lookup, AllRebound, Rebound, RemoveAt;
    AfterRemoving(mid.fields, name);
    ReboundMore(m.fields, mid.fields, RemoveAt(mid.fields, FieldIndex(mid.fields, name)), front, name, []);
  }

  lemma {:induction false} RemovalsRun(model: string, names: seq<string>, app: string, m: ModelState)
    requires DistinctNames(m.fields) && Distinct(names) && AllThere(m.fields, names)
    ensures RunAll(Removals(model, names), app, m).Ok?
    ensures OnlyFields(RunAll(Removals(model, names), app, m).value, m)
    ensures AllRebound(RunAll(Removals(model, names), app, m).value.fields, m.fields, names, [])
    decreases |names|
  {
    if names != [] {
      var front, name := names[..|names| - 1], names[|names| - 1];
      Front(names);
      assert AllThere(m.fields, front) && HasField(m.fields, name);
      hide DistinctNames, AllRebound, ChangeModel, AllThere, HasField, Distinct, OnlyFields;
      RemovalsRun(model, front, app, m);
      RunMore(Removals(model, front), RemoveField(model, name), app, m);
      RemovalStep(model, front, name, app, m, RunAll(Removals(model, front), app, m).value);
    }
  }

  /** A field the model of app has in the state it is compared with. */
  predicate Stored(f: Field, app: string) {
    QualifyField(f, app) == f
  }

  predicate AllStored(fs: Fields, app: string) {
    forall i :: 0 <= i < |fs| ==> Stored(fs[i].field, app)
  }

  /** The one-off default of an addition does not stay. */
  lemma AddedEnters(q: Questioner, model: string, name: string, f: Field, app: string)
    requires Stored(f, app) && AddedField(q, model, name, f).Some?
    ensures var op := AddedField(q, model, name, f).value;
      op.AddField? && op.modelName == model && op.name == name &&
        Entering(op.field, app, Preserve(op.preserveDefault)) == f
  {}

  lemma AlteredEnters(q: Questioner, model: string, name: string, a: Field, b: Field, app: string)
    requires Stored(b, app) && AlteredField(q, model, name, a, b).Some?
    ensures var op := AlteredField(q, model, name, a, b).value;
      op.AlterField? && op.modelName == model && op.name == name &&
        Entering(op.field, app, Preserve(op.preserveDefault)) == b
  {}

  predicate AllAnswered(q: Questioner, model: string, names: seq<string>, new_: Fields) {
    forall n :: n in names ==> AdditionOf(q, model, n, new_).Some?
  }

  predicate NoneThere(fs: Fields, names: seq<string>) {
    forall n :: n in names ==> !HasField(fs, n)
  }

  /** The addition appends the field the new state has. */
  lemma AdditionAppends(q: Questioner, model: string, name: string, new_: Fields, app: string, m: ModelState)
    requires AllStored(new_, app) && AdditionOf(q, model, name, new_).Some?
    ensures Lookup(new_, name).Some?
    ensures ChangeModel(AdditionOf(q, model, name, new_).value, app, m)
         == Ok(m.(fields := m.fields + [NamedField(name, Lookup(new_, name).value)]))
  {
    var f := Lookup(new_, name).value;
    assert Stored(f, app) by {
      assert f == new_[FieldIndex(new_, name)].field;
    }
    hide AllStored, Lookup, FieldIndex;
    AddedEnters(q, model, name, f, app);
    hide AddedField, Entering;
  }

  lemma AdditionStep(q: Questioner, model: string, front: seq<string>, name: string, new_: Fields, app: string,
      m: ModelState, mid: ModelState)
    requires OnlyFields(mid, m) && AllRebound(mid.fields, m.fields, front, new_) && name !in front &&
      !HasField(m.fields, name)
    requires AllStored(new_, app) && AdditionOf(q, model, name, new_).Some?
    ensures var r := ChangeModel(AdditionOf(q, model, name, new_).value, app, mid);
      r.Ok? && OnlyFields(r.value, m) && AllRebound(r.value.fields, m.fields, front + [name], new_)
  {
    assert !HasField(mid.fields, name) && DistinctNames(mid.fields) by {
      assert Lookup(mid.fields, name) == Lookup(m.fields, name);
    }
    hide AllStored, Lookup, FieldIndex, AllRebound, Rebound, AdditionOf, ChangeModel, DistinctNames, HasField;
    AdditionAppends(q, model, name, new_, app, mid);
    var f := Lookup(new_, name).value;
    AfterAdding(mid.fields, name, f);
    ReboundMore(m.fields, mid.fields, mid.fields + [NamedField(name, f)], front, name, new_);
  }

  lemma {:induction false} AdditionsRun(q: Questioner, model: string, names: seq<string>, new_: Fields, app: string,
      m: ModelState)
    requires DistinctNames(m.fields) && Distinct(names) && AllStored(new_, app) && AllAnswered(q, model, names, new_)
    requires NoneThere(m.fields, names)
    ensures RunAll(Additions(q, model, names, new_), app, m).Ok?
    ensures OnlyFields(RunAll(Additions(q, model, names, new_), app, m).value, m)
    ensures AllRebound(RunAll(Additions(q, model, names, new_), app, m).value.fields, m.fields, names, new_)
    decreases |names|
  {
    if names != [] {
      var front, name := names[..|names| - 1], names[|names| - 1];
      Front(names);
      assert NoneThere(m.fields, front) && !HasField(m.fields, name) && AllAnswered(q, model, front, new_);
      assert AdditionOf(q, model, name, new_).Some?;
      hide DistinctNames, AllRebound, ChangeModel, NoneThere, HasField, Distinct, OnlyFields, AllAnswered, AdditionOf,
        AllStored;
      AdditionsRun(q, model, front, new_, app, m);
      RunMore(Additions(q, model, front, new_), AdditionOf(q, model, name, new_).value, app, m);
      AdditionStep(q, model, front, name, new_, app, m, RunAll(Additions(q, model, front, new_), app, m).value);
    }
  }

  predicate IsAltered(old_: Fields, new_: Fields, name: string, app: string) {
    match (Lookup(old_, name), Lookup(new_, name))
    case (Some(a), Some(b)) => !Unaltered(a, b, app)
    case _ => false
  }

  /** The prompts of all altered fields were answered. */
  predicate AlterationsAnswered(q: Questioner, key: ModelKey, names: seq<string>, old_: Fields, new_: Fields) {
    forall n :: n in names && IsAltered(old_, new_, n, key.app) ==> AlterationOf(q, key, n, old_, new_).Some?
  }

  /** The fields are those of before, but that the altered ones of the names stand
      for what they are altered to. */
  ghost predicate AllAltered(r: Fields, before: Fields, names: seq<string>, old_: Fields, new_: Fields, app: string) {
    DistinctNames(r) && forall n :: Lookup(r, n) == if n in names then Settled(old_, new_, n, app)
      else Lookup(before, n)
  }

  /** What a field is left as. */
  function Settled(old_: Fields, new_: Fields, name: string, app: string): Option<Field> {
    match (Lookup(old_, name), Lookup(new_, name))
    case (Some(a), Some(b)) => if Unaltered(a, b, app) then Some(a) else Some(b)
    case (a, _) => a
  }

  lemma AlteredMore(before: Fields, mid: Fields, r: Fields, front: seq<string>, name: string, old_: Fields,
      new_: Fields, app: string)
    requires AllAltered(mid, before, front, old_, new_, app) && Rebound(r, mid, name, Settled(old_, new_, name, app))
    ensures AllAltered(r, before, front + [name], old_, new_, app)
  {
    hide Lookup, Settled;
  }

  predicate AllSame(fs: Fields, old_: Fields, new_: Fields, names: seq<string>) {
    forall n :: n in names ==> HasField(new_, n) && HasField(old_, n) && Lookup(fs, n) == Lookup(old_, n)
  }

  lemma AlterationStep(
      q: Questioner, key: ModelKey, front: seq<string>, name: string, old_: Fields, new_: Fields, m: ModelState,
        mid: ModelState)
    requires OnlyFields(mid, m) && AllAltered(mid.fields, m.fields, front, old_, new_, key.app) && name !in front
    requires AllStored(new_, key.app) && IsAltered(old_, new_, name, key.app) &&
      AlterationOf(q, key, name, old_, new_).Some?
    requires Lookup(m.fields, name) == Lookup(old_, name)
    ensures var r := ChangeModel(AlterationOf(q, key, name, old_, new_).value, key.app, mid);
      r.Ok? && OnlyFields(r.value, m) && AllAltered(r.value.fields, m.fields, front + [name], old_, new_, key.app)
  {
    var a, b := Lookup(old_, name).value, Lookup(new_, name).value;
    assert Lookup(mid.fields, name) == Some(a);
    assert b == new_[FieldIndex(new_, name)].field && Stored(b, key.app);
    AlteredEnters(q, key.model, name, a, b, key.app);
    assert Settled(old_, new_, name, key.app) == Some(b);
    hide FieldIndex, Lookup, AllAltered, Rebound, AlteredField, Entering, AllStored, Settled, Unaltered;
    AfterAltering(mid.fields, name, b);
    AlteredMore(m.fields, mid.fields, mid.fields[FieldIndex(mid.fields, name) := NamedField(name, b)], front, name,
      old_, new_, key.app);
  }

  lemma UnalteredStep(
      q: Questioner, key: ModelKey, front: seq<string>, name: string, old_: Fields, new_: Fields, m: ModelState,
        mid: ModelState)
    requires AllAltered(mid.fields, m.fields, front, old_, new_, key.app) && name !in front
    requires !IsAltered(old_, new_, name, key.app) && Lookup(m.fields, name) == Lookup(old_, name)
    ensures AlterationOf(q, key, name, old_, new_) == None
    ensures AllAltered(mid.fields, m.fields, front + [name], old_, new_, key.app)
  {
    assert Lookup(mid.fields, name) == Settled(old_, new_, name, key.app);
    hide Lookup, Settled, Unaltered, DistinctNames;
  }

  lemma {:induction false} AlterationsRun(q: Questioner, key: ModelKey, names: seq<string>, old_: Fields, new_: Fields,
      m: ModelState)
    requires DistinctNames(m.fields) && Distinct(names) && AllStored(new_, key.app)
    requires AlterationsAnswered(q, key, names, old_, new_) && AllSame(m.fields, old_, new_, names)
    ensures RunAll(Alterations(q, key, names, old_, new_), key.app, m).Ok?
    ensures OnlyFields(RunAll(Alterations(q, key, names, old_, new_), key.app, m).value, m)
    ensures AllAltered(RunAll(Alterations(q, key, names, old_, new_), key.app, m).value.fields, m.fields, names, old_,
      new_, key.app)
    decreases |names|
  {
    if names != [] {
      var front, name := names[..|names| - 1], names[|names| - 1];
      Front(names);
      assert AllSame(m.fields, old_, new_, front) && Lookup(m.fields, name) == Lookup(old_, name);
      assert AlterationsAnswered(q, key, front, old_, new_);
      assert IsAltered(old_, new_, name, key.app) ==> AlterationOf(q, key, name, old_, new_).Some?;
      hide DistinctNames, AllAltered, ChangeModel, AllSame, Lookup, Distinct, OnlyFields, AlterationsAnswered,
        AlterationOf, AllStored, IsAltered;
      AlterationsRun(q, key, front, old_, new_, m);
      var done := Alterations(q, key, front, old_, new_);
      var mid := RunAll(done, key.app, m).value;
      if IsAltered(old_, new_, name, key.app) {
        RunMore(done, AlterationOf(q, key, name, old_, new_).value, key.app, m);
        AlterationStep(q, key, front, name, old_, new_, m, mid);
      } else {
        UnalteredStep(q, key, front, name, old_, new_, m, mid);
        assert done + [] == done;
      }
    }
  }

  // --- Constraints ---

  predicate Has(cs: seq<Constraint>, c: Constraint) {
    c in cs
  }

  lemma {:induction false} WithoutConstraintIs(cs: seq<Constraint>, name: string)
    ensures forall c :: c in WithoutConstraint(cs, name) <==> c in cs && c.name != name
    ensures UniqueNames(cs) ==> UniqueNames(WithoutConstraint(cs, name))
    decreases |cs|
  {
    if cs != [] {
      var front, last := cs[..|cs| - 1], cs[|cs| - 1];
      assert cs == front + [last];
      WithoutConstraintIs(front, name);
      var r := WithoutConstraint(front, name);
      if UniqueNames(cs) {
        forall i | 0 <= i < |r|
          ensures r[i].name != last.name
        {
          assert r[i] in r && r[i] in front;
          var j :| 0 <= j < |front| && front[j] == r[i];
          assert cs[j].name != cs[|front|].name;
        }
      }
    }
  }

  lemma NameIsListed(cs: seq<Constraint>, c: Constraint)
    requires c in cs
    ensures c.name in NamesOf(cs)
  {
    var i :| 0 <= i < |cs| && cs[i] == c;
  }

  lemma NamesOfMore(cs: seq<Constraint>, c: Constraint)
    ensures NamesOf(cs + [c]) == NamesOf(cs) + {c.name}
  {
    var all := cs + [c];
    forall n
      ensures n in NamesOf(all) <==> n in NamesOf(cs) + {c.name}
    {
      if n in NamesOf(cs) {
        var i :| 0 <= i < |cs| && cs[i].name == n;
        assert all[i].name == n;
      }
      if n == c.name {
        assert all[|cs|].name == n;
      }
    }
  }

  /** The model differs only in its constraints. */
  predicate OnlyConstraints(r: ModelState, m: ModelState) {
    r == m.(options := m.options.(constraints := r.options.constraints))
  }

  /** The constraints of before that do not have one of the names. */
  ghost predicate AllRemoved(r: seq<Constraint>, before: seq<Constraint>, names: set<string>) {
    UniqueNames(r) && forall c :: c in r <==> c in before && c.name !in names
  }

  lemma {:induction false} RemoveConstraintsRun(model: string, cs: seq<Constraint>, app: string, m: ModelState)
    requires UniqueNames(m.options.constraints)
    ensures RunAll(RemoveConstraintOps(model, cs), app, m).Ok?
    ensures OnlyConstraints(RunAll(RemoveConstraintOps(model, cs), app, m).value, m)
    ensures AllRemoved(RunAll(RemoveConstraintOps(model, cs), app, m).value.options.constraints, m.options.constraints,
      NamesOf(cs))
    decreases |cs|
  {
    if cs != [] {
      var front, last := cs[..|cs| - 1], cs[|cs| - 1];
      hide RunAll, AllRemoved, ChangeModel, OnlyConstraints, UniqueNames;
      RemoveConstraintsRun(model, front, app, m);
      RunMore(RemoveConstraintOps(model, front), RemoveConstraint(model, last.name), app, m);
      RemoveConstraintStep(model, cs, app, m, RunAll(RemoveConstraintOps(model, front), app, m).value);
    }
  }

  lemma RemoveConstraintStep(model: string, cs: seq<Constraint>, app: string, m: ModelState, mid: ModelState)
    requires cs != [] && OnlyConstraints(mid, m)
    requires AllRemoved(mid.options.constraints, m.options.constraints, NamesOf(cs[..|cs| - 1]))
    ensures var r := ChangeModel(RemoveConstraint(model, cs[|cs| - 1].name), app, mid);
      r.Ok? && OnlyConstraints(r.value, m) && AllRemoved(r.value.options.constraints, m.options.constraints,
        NamesOf(cs))
  {
    var front, last := cs[..|cs| - 1], cs[|cs| - 1];
    assert cs == front + [last];
    hide UniqueNames, NamesOf, WithoutConstraint;
    NamesOfMore(front, last);
    WithoutConstraintIs(mid.options.constraints, last.name);
  }

  predicate ConstraintsStored(cs: seq<Constraint>, app: string) {
    forall i :: 0 <= i < |cs| ==> QualifyConstraint(cs[i], app) == cs[i]
  }

  lemma StoredFront(cs: seq<Constraint>, app: string)
    requires ConstraintsStored(cs, app) && cs != []
    ensures ConstraintsStored(cs[..|cs| - 1], app) && QualifyConstraint(cs[|cs| - 1], app) == cs[|cs| - 1]
  {}

  lemma AddConstraintStep(model: string, cs: seq<Constraint>, app: string, m: ModelState)
    requires cs != [] && QualifyConstraint(cs[|cs| - 1], app) == cs[|cs| - 1]
    ensures var mid := m.(options := m.options.(constraints := m.options.constraints + cs[..|cs| - 1]));
      ChangeModel(AddConstraint(model, cs[|cs| - 1]), app, mid)
      == Ok(m.(options := m.options.(constraints := m.options.constraints + cs)))
  {
    assert m.options.constraints + cs[..|cs| - 1] + [cs[|cs| - 1]] == m.options.constraints + cs;
    hide QualifyConstraint;
  }

  lemma {:induction false} AddConstraintsRun(model: string, cs: seq<Constraint>, app: string, m: ModelState)
    requires ConstraintsStored(cs, app)
    ensures RunAll(AddConstraintOps(model, cs), app, m)
         == Ok(m.(options := m.options.(constraints := m.options.constraints + cs)))
    decreases |cs|
  {
    if cs == [] {
      assert m.options.constraints + cs == m.options.constraints;
    } else {
      var front, last := cs[..|cs| - 1], cs[|cs| - 1];
      hide RunAll, ConstraintsStored, QualifyConstraint, ChangeModel;
      StoredFront(cs, app);
      AddConstraintsRun(model, front, app, m);
      RunMore(AddConstraintOps(model, front), AddConstraint(model, last), app, m);
      AddConstraintStep(model, cs, app, m);
    }
  }

  lemma AfterAlteringOne(cs: seq<Constraint>, c: Constraint)
    requires UniqueNames(cs) && c.name in NamesOf(cs)
    ensures var r := AlteredConstraints(cs, c.name, c);
      && UniqueNames(r) && NamesOf(r) == NamesOf(cs)
      && forall x :: x in r <==> x == c || (x in cs && x.name != c.name)
  {
    var r := AlteredConstraints(cs, c.name, c);
    assert |r| == |cs| && forall i :: 0 <= i < |cs| ==> r[i].name == cs[i].name;
    var at :| 0 <= at < |cs| && cs[at].name == c.name;
    assert r[at] == c;
    forall x
      ensures x in r <==> x == c || (x in cs && x.name != c.name)
    {
      if x in r {
        var i :| 0 <= i < |r| && r[i] == x;
        assert cs[i].name != c.name ==> r[i] == cs[i];
      }
      if x in cs && x.name != c.name {
        var i :| 0 <= i < |cs| && cs[i] == x;
        assert r[i] == x;
      }
    }
  }

  /** The constraints of before, but that those under the names of cs are cs. */
  ghost predicate AllReplaced(r: seq<Constraint>, before: seq<Constraint>, cs: seq<Constraint>) {
    && UniqueNames(r) && NamesOf(r) == NamesOf(before)
    && forall c :: c in r <==> c in cs || (c in before && c.name !in NamesOf(cs))
  }

  lemma ReplacedMore(before: seq<Constraint>, mid: seq<Constraint>, front: seq<Constraint>, last: Constraint)
    requires AllReplaced(mid, before, front) && last.name in NamesOf(before) && last.name !in NamesOf(front)
    ensures AllReplaced(AlteredConstraints(mid, last.name, last), before, front + [last])
  {
    AfterAlteringOne(mid, last);
    NamesOfMore(front, last);
    forall c | c in front
      ensures c.name != last.name
    {
      NameIsListed(front, c);
    }
    hide UniqueNames, NamesOf, AlteredConstraints;
  }

  lemma LastNameIsNew(cs: seq<Constraint>)
    requires UniqueNames(cs) && cs != []
    ensures var front, last := cs[..|cs| - 1], cs[|cs| - 1];
      cs == front + [last] && UniqueNames(front) && last.name !in NamesOf(front) &&
        NamesOf(cs) == NamesOf(front) + {last.name}
  {
    NamesOfMore(cs[..|cs| - 1], cs[|cs| - 1]);
    assert cs == cs[..|cs| - 1] + [cs[|cs| - 1]];
  }

  lemma AlterConstraintStep(model: string, front: seq<Constraint>, last: Constraint, app: string, m: ModelState,
      mid: ModelState)
    requires OnlyConstraints(mid, m) && AllReplaced(mid.options.constraints, m.options.constraints, front)
    requires last.name in NamesOf(m.options.constraints) && last.name !in NamesOf(front) &&
      QualifyConstraint(last, app) == last
    ensures var r := ChangeModel(AlterConstraint(model, last.name, last), app, mid);
      r.Ok? && OnlyConstraints(r.value, m) && AllReplaced(r.value.options.constraints, m.options.constraints,
        front + [last])
  {
    hide AllReplaced, NamesOf, QualifyConstraint, AlteredConstraints;
    ReplacedMore(m.options.constraints, mid.options.constraints, front, last);
  }

  /** Altering constraints that are all there, under names that are all different. */
  lemma {:induction false} AlterConstraintsRun(model: string, cs: seq<Constraint>, app: string, m: ModelState)
    requires UniqueNames(m.options.constraints) && UniqueNames(cs) && ConstraintsStored(cs, app)
    requires NamesOf(cs) <= NamesOf(m.options.constraints)
    ensures RunAll(AlterConstraintOps(model, cs), app, m).Ok?
    ensures OnlyConstraints(RunAll(AlterConstraintOps(model, cs), app, m).value, m)
    ensures AllReplaced(RunAll(AlterConstraintOps(model, cs), app, m).value.options.constraints, m.options.constraints,
      cs)
    decreases |cs|
  {
    if cs != [] {
      var front, last := cs[..|cs| - 1], cs[|cs| - 1];
      LastNameIsNew(cs);
      assert ConstraintsStored(front, app) && QualifyConstraint(last, app) == last;
      assert last.name in NamesOf(m.options.constraints) && NamesOf(front) <= NamesOf(m.options.constraints);
      hide UniqueNames, NamesOf, ConstraintsStored, AllReplaced, QualifyConstraint, ChangeModel, OnlyConstraints;
      AlterConstraintsRun(model, front, app, m);
      RunMore(AlterConstraintOps(model, front), AlterConstraint(model, last.name, last), app, m);
      AlterConstraintStep(model, front, last, app, m, RunAll(AlterConstraintOps(model, front), app, m).value);
    }
  }

  lemma {:induction false} MissingIs(cs: seq<Constraint>, others: seq<Constraint>, names: set<string>)
    ensures forall c :: c in Missing(cs, others, names) <==> c in cs && c !in others && c.name !in names
    ensures UniqueNames(cs) ==> UniqueNames(Missing(cs, others, names))
    decreases |cs|
  {
    if cs != [] {
      var front, last := cs[..|cs| - 1], cs[|cs| - 1];
      assert cs == front + [last];
      MissingIs(front, others, names);
      var r := Missing(front, others, names);
      if UniqueNames(cs) {
        forall i | 0 <= i < |r|
          ensures r[i].name != last.name
        {
          assert r[i] in r && r[i] in front;
          var j :| 0 <= j < |front| && front[j] == r[i];
          assert cs[j].name != cs[|front|].name;
        }
      }
    }
  }

  lemma {:induction false} AlteredIntoIs(c: Constraint, new_: seq<Constraint>)
    ensures forall x :: x in AlteredInto(c, new_) <==> x in new_ && AlteredTo(c, x)
    ensures UniqueNames(new_) ==> |AlteredInto(c, new_)| <= 1
    decreases |new_|
  {
    if new_ != [] {
      var front, last := new_[..|new_| - 1], new_[|new_| - 1];
      assert new_ == front + [last];
      AlteredIntoIs(c, front);
      var r := AlteredInto(c, front);
      if r != [] {
        assert r[0] in r;
        var i :| 0 <= i < |front| && front[i] == r[0];
        assert new_[i].name == c.name && new_[|front|] == last;
      }
    }
  }

  lemma {:induction false} AlteredIs(old_: seq<Constraint>, new_: seq<Constraint>)
    ensures forall x :: x in Altered(old_, new_) <==> x in new_ && exists c :: c in old_ && AlteredTo(c, x)
    ensures UniqueNames(old_) && UniqueNames(new_) ==> UniqueNames(Altered(old_, new_))
    decreases |old_|
  {
    if old_ != [] {
      var front, last := old_[..|old_| - 1], old_[|old_| - 1];
      assert old_ == front + [last];
      AlteredIs(front, new_);
      AlteredIntoIs(last, new_);
      var r, more := Altered(front, new_), AlteredInto(last, new_);
      if UniqueNames(old_) && UniqueNames(new_) && more != [] {
        assert more[0] in more && more == [more[0]];
        forall i | 0 <= i < |r|
          ensures r[i].name != more[0].name
        {
          assert r[i] in r;
          var c :| c in front && AlteredTo(c, r[i]);
          var j :| 0 <= j < |front| && front[j] == c;
          assert old_[j].name != old_[|front|].name;
        }
      }
    }
  }

  // --- unique_together ---

  lemma {:induction false} TogetherKeys(entries: seq<seq<string>>)
    ensures forall k :: k in TogetherMap(entries) <==> exists i :: 0 <= i < |entries| && Joined(entries[i]) == k
    decreases |entries|
  {
    if entries != [] {
      var front := entries[..|entries| - 1];
      TogetherKeys(front);
      forall k
        ensures k in TogetherMap(entries) <==> exists i :: 0 <= i < |entries| && Joined(entries[i]) == k
      {
        if k in TogetherMap(front) {
          var i :| 0 <= i < |front| && Joined(front[i]) == k;
          assert Joined(entries[i]) == k;
        }
      }
    }
  }

  /** Listing the entries and reading them back gives the same keys. */
  lemma EntriesBack(m: map<string, seq<string>>)
    requires forall k :: k in m ==> Joined(m[k]) == k
    ensures TogetherMap(Entries(m)).Keys == m.Keys
  {
    var keys := set k | k in m :: Keys.Key("", k);
    Keys.SortedLists(keys);
    var ks, es := Listing(m), Entries(m);
    TogetherKeys(es);
    forall k
      ensures k in TogetherMap(es) <==> k in m
    {
      if k in m {
        assert Keys.Key("", k) in keys && Keys.Key("", k) in ks;
        var i :| 0 <= i < |ks| && ks[i] == Keys.Key("", k);
        assert es[i] == m[k];
      }
      if k in TogetherMap(es) {
        var i :| 0 <= i < |es| && Joined(es[i]) == k;
        assert ks[i] in ks && ks[i] in keys;
      }
    }
  }
}
