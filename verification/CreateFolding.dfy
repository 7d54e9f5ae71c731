/** Folding operations into the creation of their model. */
module CreateFolding {
  import opened Wrappers
  import opened Names
  import opened ModelStates
  import opened Operations
  import opened States
  import opened Reductions
  import opened FieldReductions

  /** The operations whose folding keeps the state for every creation. */
  predicate Foldable(op: Operation) {
    || op.AddField? || op.AlterField? || op.AlterModelTable? || op.AlterModelTableComment? || op.AlterUniqueTogether?
    || op.AlterModelOptions? || op.AddIndex? || op.RemoveIndex? || op.AddConstraint? || op.RemoveConstraint?
  }

  /** Every field of the name redefined. */
  function Redefined(fs: Fields, name: string, f: Field): (r: Fields)
    ensures |r| == |fs|
  {
    seq(|fs|, i requires 0 <= i < |fs| => if fs[i].name == name then NamedField(name, f) else fs[i])
  }

  /** A creation with the operation folded in, for operations on its model. */
  function FoldInto(c: Operation, op: Operation): Operation
    requires c.CreateModel? && Foldable(op)
  {
    var o := c.options;
    match op
    case AddField(_, name, field, _) => CreateModel(c.name, c.table, c.fields + [NamedField(name, field)], o)
    case AlterField(_, name, field, _) => CreateModel(c.name, c.table, Redefined(c.fields, name, field), o)
    case AlterModelTable(_, table) => CreateModel(c.name, table, c.fields, o)
    case AlterModelTableComment(_, comment) => CreateModel(c.name, c.table, c.fields, o.(tableComment := comment))
    case AlterUniqueTogether(_, together) => CreateModel(c.name, c.table, c.fields, o.(uniqueTogether := together))
    case AlterModelOptions(_, managed) => CreateModel(c.name, c.table, c.fields, o.(managed := managed))
    case AddIndex(_, index) => CreateModel(c.name, c.table, c.fields, o.(indexes := o.indexes + [index]))
    case RemoveIndex(_, name) => CreateModel(c.name, c.table, c.fields, o.(indexes := WithoutIndex(o.indexes, name)))
    case AddConstraint(_, con) => CreateModel(c.name, c.table, c.fields, o.(constraints := o.constraints + [con]))
    case RemoveConstraint(_, name) =>
      CreateModel(c.name, c.table, c.fields, o.(constraints := WithoutConstraint(o.constraints, name)))
  }

  predicate OnModel(op: Operation, name: string) {
    ChangedModel(op).Some? && Lower(ChangedModel(op).value) == Lower(name)
  }

  function ReduceCreate(c: Operation, other: Operation, app: string): Reduction
    requires c.CreateModel? && (Foldable(other) || other.DeleteModel?)
  {
    if other.DeleteModel? then
      if Lower(other.name) == Lower(c.name) then Replace([]) else ModelOpReduce(c, c.name, other, app)
    else if OnModel(other, c.name) then Replace([FoldInto(c, other)])
    else ModelOpReduce(c, c.name, other, app)
  }

  // --- One operation ---

  /** The model without one-off defaults. */
  function LastingModel(m: ModelState): ModelState {
    m.(fields := NoDefaults(m.fields))
  }

  function Created(c: Operation, app: string): ModelState
    requires c.CreateModel?
  {
    Qualified(NewModel(c, app))
  }

  lemma QualifiedConcat(fs: Fields, f: NamedField, app: string)
    ensures QualifyFields(fs + [f], app) == QualifyFields(fs, app) + [NamedField(f.name, QualifyField(f.field, app))]
  {}

  lemma {:induction false} QualifiedWithout(cs: seq<Constraint>, app: string, name: string)
    ensures QualifyConstraints(WithoutConstraint(cs, name), app) == WithoutConstraint(QualifyConstraints(cs, app), name)
  {
    if cs != [] {
      var front, last := cs[..|cs| - 1], cs[|cs| - 1];
      var q := QualifyConstraints(cs, app);
      assert q[..|q| - 1] == QualifyConstraints(front, app) && q[|q| - 1] == QualifyConstraint(last, app);
      assert QualifyConstraint(last, app).name == last.name;
      QualifiedWithout(front, app, name);
      var rest := WithoutConstraint(front, name);
      assert QualifyConstraints(rest + [last], app) == QualifyConstraints(rest, app) + [QualifyConstraint(last, app)];
      assert rest + [] == rest;
    }
  }

  lemma AddFolds(c: Operation, op: Operation, app: string)
    requires c.CreateModel? && op.AddField?
    ensures var m := ChangeModel(op, app, Created(c, app));
      m.Ok? && LastingModel(Created(FoldInto(c, op), app)) == LastingModel(m.value)
  {
    QualifiedConcat(c.fields, NamedField(op.name, op.field), app);
    var q := QualifyFields(c.fields, app);
    assert NoDefaults(q + [NamedField(op.name, QualifyField(op.field, app))])
        == NoDefaults(q + [NamedField(op.name, Entering(op.field, app, Preserve(op.preserveDefault)))]);
  }

  /** Where names are distinct, redefining every field of the name redefines the
      one that is altered. */
  lemma AlterFolds(c: Operation, op: Operation, app: string)
    requires c.CreateModel? && op.AlterField? && DistinctNames(c.fields) && ChangeModel(op, app, Created(c, app)).Ok?
    ensures LastingModel(Created(FoldInto(c, op), app)) == LastingModel(ChangeModel(op, app, Created(c, app)).value)
  {
    var fs, q := c.fields, QualifyFields(c.fields, app);
    var i := FieldIndex(q, op.name);
    var altered := q[i := NamedField(op.name, Entering(op.field, app, Preserve(op.preserveDefault)))];
    assert fs[i].name == op.name;
    assert forall j :: 0 <= j < |fs| && j != i ==> fs[j].name != op.name;
    hide FieldIndex;
    assert NoDefaults(QualifyFields(Redefined(fs, op.name, op.field), app)) == NoDefaults(altered);
  }

  lemma OptionFolds(c: Operation, op: Operation, app: string)
    requires c.CreateModel? && Foldable(op) && !op.AddField? && !op.AlterField? &&
      ChangeModel(op, app, Created(c, app)).Ok?
    ensures Created(FoldInto(c, op), app) == ChangeModel(op, app, Created(c, app)).value
  {
    var cs := c.options.constraints;
    if op.AddConstraint? {
      assert QualifyConstraints(cs + [op.constraint], app) == QualifyConstraints(cs, app)
        + [QualifyConstraint(op.constraint, app)];
    } else if op.RemoveConstraint? {
      QualifiedWithout(cs, app, op.name);
    }
    hide QualifyConstraints, QualifyFields, WithoutConstraint, WithoutIndex;
  }

  /** An operation folded into the creation of its model makes the same model, up
      to one-off defaults. */
  lemma FoldKeepsModel(c: Operation, op: Operation, app: string)
    requires c.CreateModel? && Foldable(op) && ChangeModel(op, app, Created(c, app)).Ok? && DistinctNames(c.fields)
    ensures LastingModel(Created(FoldInto(c, op), app)) == LastingModel(ChangeModel(op, app, Created(c, app)).value)
  {
    if op.AddField? {
      AddFolds(c, op, app);
    } else if op.AlterField? {
      AlterFolds(c, op, app);
    } else {
      OptionFolds(c, op, app);
    }
  }

  // --- A run of operations ---

  /** The creation with all the operations folded in, one after the other. */
  function FoldAll(c: Operation, ops: seq<Operation>): (r: Operation)
    requires c.CreateModel? && forall i :: 0 <= i < |ops| ==> Foldable(ops[i])
    ensures r.CreateModel? && r.name == c.name
    decreases |ops|
  {
    if ops == [] then c else FoldAll(FoldInto(c, ops[0]), ops[1..])
  }

  /** The creation that reducing it with one operation after the other leaves, as long
      as each reduces to a creation. */
  function ReduceAll(c: Operation, ops: seq<Operation>, app: string): (r: Option<Operation>)
    requires c.CreateModel? && forall i :: 0 <= i < |ops| ==> Foldable(ops[i])
    ensures r.Some? ==> r.value.CreateModel?
    decreases |ops|
  {
    if ops == [] then Some(c)
    else
      var r := ReduceCreate(c, ops[0], app);
      if r.Replace? && |r.ops| == 1 && r.ops[0].CreateModel? then ReduceAll(r.ops[0], ops[1..], app) else None
  }

  lemma {:induction false} ReducesToFold(c: Operation, ops: seq<Operation>, app: string)
    requires c.CreateModel? && forall i :: 0 <= i < |ops| ==> Foldable(ops[i]) && OnModel(ops[i], c.name)
    ensures ReduceAll(c, ops, app) == Some(FoldAll(c, ops))
    decreases |ops|
  {
    if ops != [] {
      assert ReduceCreate(c, ops[0], app) == Replace([FoldInto(c, ops[0])]);
      ReducesToFold(FoldInto(c, ops[0]), ops[1..], app);
    }
  }

  /** What the operations make of the model. */
  function ChangeAll(ops: seq<Operation>, app: string, m: ModelState): Result<ModelState, StateError> {
    if ops == [] then Ok(m)
    else
      match ChangeModel(ops[0], app, m)
      case Ok(next) => ChangeAll(ops[1..], app, next)
      case Err(e) => Err(e)
  }

  lemma NamesKept(c: Operation, ops: seq<Operation>)
    requires c.CreateModel? && forall i :: 0 <= i < |ops| ==> Foldable(ops[i])
    ensures |c.fields| <= |FoldAll(c, ops).fields|
    ensures forall i :: 0 <= i < |c.fields| ==> FoldAll(c, ops).fields[i].name == c.fields[i].name
    decreases |ops|
  {
    if ops != [] {
      NamesKept(FoldInto(c, ops[0]), ops[1..]);
    }
  }

  lemma SameNamesSameIndex(a: Fields, b: Fields, name: string)
    requires |a| == |b| && forall i :: 0 <= i < |a| ==> a[i].name == b[i].name
    ensures FieldIndex(a, name) == FieldIndex(b, name)
  {
    if FieldIndex(a, name) >= 0 {
      FieldIndexIs(b, name, FieldIndex(a, name));
    }
  }

  lemma LastingNames(a: Fields, b: Fields)
    requires NoDefaults(a) == NoDefaults(b)
    ensures |a| == |b| && forall i :: 0 <= i < |a| ==>
      a[i].name == b[i].name && NoDefault(a[i].field) == NoDefault(b[i].field)
  {
    forall i | 0 <= i < |a|
      ensures a[i].name == b[i].name && NoDefault(a[i].field) == NoDefault(b[i].field)
    {
      assert NoDefaults(a)[i] == NoDefaults(b)[i];
    }
  }

  /** No operation looks at a one-off default. */
  lemma DefaultsDoNotMatter(op: Operation, app: string, m: ModelState, n: ModelState)
    requires Foldable(op) && LastingModel(m) == LastingModel(n)
    ensures ChangeModel(op, app, m).Ok? <==> ChangeModel(op, app, n).Ok?
    ensures ChangeModel(op, app, m).Ok? ==> LastingModel(ChangeModel(op, app, m).value) == LastingModel(ChangeModel(op, app, n).value)
  {
    LastingNames(m.fields, n.fields);
    assert m.options == n.options && m.(fields := []) == n.(fields := []);
    if op.AddField? {
      var f := NamedField(op.name, Entering(op.field, app, Preserve(op.preserveDefault)));
      assert NoDefaults(m.fields + [f]) == NoDefaults(n.fields + [f]);
    } else if op.AlterField? {
      SameNamesSameIndex(m.fields, n.fields, op.name);
      var i, f := FieldIndex(m.fields, op.name),
        NamedField(op.name, Entering(op.field, app, Preserve(op.preserveDefault)));
      if i >= 0 {
        assert NoDefaults(m.fields[i := f]) == NoDefaults(n.fields[i := f]);
      }
    }
  }

  lemma FoldAllKeepsModel(c: Operation, ops: seq<Operation>, app: string, m: ModelState)
    requires c.CreateModel? && forall i :: 0 <= i < |ops| ==> Foldable(ops[i])
    requires LastingModel(m) == LastingModel(Created(c, app)) && ChangeAll(ops, app, m).Ok?
    requires DistinctNames(FoldAll(c, ops).fields)
    ensures LastingModel(Created(FoldAll(c, ops), app)) == LastingModel(ChangeAll(ops, app, m).value)
    decreases |ops|
  {
    if ops != [] {
      NamesKept(c, ops);
      hide LastingModel, Created, ChangeModel, FoldInto;
      DefaultsDoNotMatter(ops[0], app, m, Created(c, app));
      FoldKeepsModel(c, ops[0], app);
      FoldAllKeepsModel(FoldInto(c, ops[0]), ops[1..], app, ChangeModel(ops[0], app, m).value);
    }
  }

  predicate AllNamed(ixs: seq<Index>) {
    forall i :: 0 <= i < |ixs| ==> ixs[i].name != ""
  }

  lemma NamedIndexKept(c: Operation, op: Operation, app: string, m: ModelState)
    requires c.CreateModel? && Foldable(op) && ChangeModel(op, app, m).Ok?
    requires AllNamed(c.options.indexes)
    ensures AllNamed(FoldInto(c, op).options.indexes)
  {
    if op.RemoveIndex? {
      WithoutNamed(c.options.indexes, op.name);
      assert FoldInto(c, op).options.indexes == WithoutIndex(c.options.indexes, op.name);
    }
  }

  lemma NamedIndexesKept(c: Operation, ops: seq<Operation>, app: string, m: ModelState)
    requires c.CreateModel? && (forall i :: 0 <= i < |ops| ==> Foldable(ops[i])) && ChangeAll(ops, app, m).Ok?
    requires AllNamed(c.options.indexes)
    ensures AllNamed(FoldAll(c, ops).options.indexes)
    decreases |ops|
  {
    if ops != [] {
      NamedIndexKept(c, ops[0], app, m);
      NamedIndexesKept(FoldInto(c, ops[0]), ops[1..], app, ChangeModel(ops[0], app, m).value);
    }
  }

  lemma {:induction false} WithoutNamed(ixs: seq<Index>, name: string)
    requires AllNamed(ixs)
    ensures AllNamed(WithoutIndex(ixs, name))
  {
    if ixs != [] {
      WithoutNamed(ixs[..|ixs| - 1], name);
    }
  }

  /** Operations on one model change nothing else. */
  lemma ChangeAllInState(ops: seq<Operation>, app: string, s: State, name: string)
    requires (forall i :: 0 <= i < |ops| ==> Foldable(ops[i]) && OnModel(ops[i], name)) && KeyOf(app, name) in s
    ensures var key := KeyOf(app, name);
      && (ForwardsAll(ops, app, s).Ok? ==> ChangeAll(ops, app, s[key]).Ok?)
      && (ForwardsAll(ops, app, s).Ok? ==> ForwardsAll(ops, app, s).value == s[key := ChangeAll(ops, app, s[key]).value])
    decreases |ops|
  {
    var key := KeyOf(app, name);
    if ops == [] {
      assert s[key := s[key]] == s;
    } else {
      OneInState(ops[0], app, s, name);
      if ForwardsAll(ops, app, s).Ok? {
        var m := ChangeModel(ops[0], app, s[key]).value;
        hide ChangeModel;
        ChangeAllInState(ops[1..], app, s[key := m], name);
      }
    }
  }

  lemma OneInState(op: Operation, app: string, s: State, name: string)
    requires Foldable(op) && OnModel(op, name) && KeyOf(app, name) in s
    ensures var key := KeyOf(app, name);
      && (Forwards(op, app, s).Ok? <==> ChangeModel(op, app, s[key]).Ok?)
      && (Forwards(op, app, s).Ok? ==> Forwards(op, app, s).value == s[key := ChangeModel(op, app, s[key]).value])
  {}

  predicate WellShaped(cs: seq<Constraint>) {
    forall i :: 0 <= i < |cs| ==> ConstraintShape(cs[i])
  }

  lemma FoldedState(c: Operation, ops: seq<Operation>, app: string, s: State, s2: State)
    requires c.CreateModel? && forall i :: 0 <= i < |ops| ==> Foldable(ops[i]) && OnModel(ops[i], c.name)
    requires ForwardsAll([c] + ops, app, s) == Ok(s2)
    ensures var f := FoldAll(c, ops);
      && (Forwards(f, app, s).Ok? <==> DistinctNames(f.fields) && WellShaped(f.options.constraints))
      && (Forwards(f, app, s).Ok? ==> Lasting(Forwards(f, app, s).value) == Lasting(s2))
  {
    var f, key := FoldAll(c, ops), KeyOf(app, c.name);
    assert ([c] + ops)[1..] == ops;
    var s1 := s[key := Created(c, app)];
    assert Forwards(c, app, s) == Ok(s1);
    ChangeAllInState(ops, app, s1, c.name);
    NamedIndexesKept(c, ops, app, s1[key]);
    hide ForwardsAll, ChangeAll, Lasting;
    if DistinctNames(f.fields) {
      FoldAllKeepsModel(c, ops, app, s1[key]);
      assert s1[key := Created(f, app)] == s[key := Created(f, app)];
      LastingWith(s, key, Created(f, app), s2[key]);
    }
  }

  /** Creating a model and then running operations on it, or creating it with all
      of them folded in, as one reduction after the other does: the folded creation is refused exactly when two of its
      fields share a name or a foreign key constraint is malformed; otherwise the
      state is the same up to one-off defaults. */
  lemma FoldedCreation(c: Operation, ops: seq<Operation>, app: string, s: State, s2: State)
    requires c.CreateModel? && forall i :: 0 <= i < |ops| ==> Foldable(ops[i]) && OnModel(ops[i], c.name)
    requires ForwardsAll([c] + ops, app, s) == Ok(s2)
    ensures ReduceAll(c, ops, app).Some?
    ensures var f := ReduceAll(c, ops, app).value;
      && (Forwards(f, app, s).Ok? <==> DistinctNames(f.fields) && WellShaped(f.options.constraints))
      && (Forwards(f, app, s).Ok? ==> Lasting(Forwards(f, app, s).value) == Lasting(s2))
  {
    ReducesToFold(c, ops, app);
    FoldedState(c, ops, app, s, s2);
    hide FoldAll, ReduceAll, Forwards, ForwardsAll, Lasting, DistinctNames, WellShaped;
  }

  lemma LastingWith(s: State, key: ModelKey, m: ModelState, n: ModelState)
    requires LastingModel(m) == LastingModel(n)
    ensures Lasting(s[key := m]) == Lasting(s[key := n])
  {}

  /** A model created and deleted is nothing, exactly when there was no model of
      that name before. */
  lemma CreateThenDelete(c: Operation, d: Operation, app: string, s: State, s1: State, s2: State)
    requires c.CreateModel? && d.DeleteModel? && Forwards(c, app, s) == Ok(s1) && Forwards(d, app, s1) == Ok(s2)
    requires Lower(d.name) == Lower(c.name)
    ensures ReduceCreate(c, d, app) == Replace([])
    ensures s2 == s <==> KeyOf(app, c.name) !in s
  {
    var key := KeyOf(app, c.name);
    assert key !in s2;
    if key !in s {
      assert s2 == s;
    }
  }
}
