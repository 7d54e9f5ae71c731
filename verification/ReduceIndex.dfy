/** Reducing the operations on a model's indexes, constraints and options. */
module ReduceIndex {
  import opened Wrappers
  import opened Names
  import opened ModelStates
  import opened Operations
  import opened States
  import opened Reductions

  function ReduceAddIndex(op: Operation, other: Operation): Reduction
    requires op.AddIndex?
  {
    if other.RemoveIndex? && op.index.name == other.name then Replace([])
    else if other.RenameIndex? && op.index.name == other.oldName then
      Replace([AddIndex(op.modelName, op.index.(name := other.newName))])
    else BaseReduce(op, other)
  }

  function ReduceAddConstraint(op: Operation, other: Operation): Reduction
    requires op.AddConstraint?
  {
    if other.RemoveConstraint? && EqualFold(op.modelName, other.modelName) &&
      op.constraint.name == other.name then Replace([])
    else if other.AlterConstraint? && EqualFold(op.modelName, other.modelName) && op.constraint.name == other.name then
      Replace([AddConstraint(op.modelName, other.constraint)])
    else BaseReduce(op, other)
  }

  /** The model an operation on options, or a deletion, names. */
  function ModelOpName(op: Operation): string {
    match op
    case DeleteModel(name) => name
    case AlterModelTable(name, _) => name
    case AlterModelTableComment(name, _) => name
    case AlterUniqueTogether(name, _) => name
    case AlterModelOptions(name, _) => name
    case _ => ""
  }

  predicate SameKind(a: Operation, b: Operation) {
    || (a.AlterModelTable? && b.AlterModelTable?)
    || (a.AlterModelTableComment? && b.AlterModelTableComment?)
    || (a.AlterUniqueTogether? && b.AlterUniqueTogether?)
    || (a.AlterModelOptions? && b.AlterModelOptions?)
  }

  /** A later operation of the same kind, or a deletion, supersedes it. */
  function ReduceOption(op: Operation, other: Operation, app: string): Reduction
    requires SameKind(op, op)
  {
    if (SameKind(op, other) || other.DeleteModel?) && EqualFold(op.name, ModelOpName(other)) then Replace([other])
    else ModelOpReduce(op, op.name, other, app)
  }

  /** An option set twice, or on a model that is then deleted, need not be set the
      first time. */
  lemma OptionSuperseded(o: Operation, x: Operation, app: string, s: State, s1: State, s2: State)
    requires SameKind(o, o) && (SameKind(o, x) || x.DeleteModel?) && EqualFold(o.name, ModelOpName(x))
    requires Forwards(o, app, s) == Ok(s1) && Forwards(x, app, s1) == Ok(s2)
    ensures ReduceOption(o, x, app) == Replace([x]) && Forwards(x, app, s) == Ok(s2)
  {
    var key := KeyOf(app, o.name);
    if x.DeleteModel? {
      assert s1 - {key} == s - {key};
    } else {
      assert s1[key := s2[key]] == s[key := s2[key]];
    }
  }

  /** Two renames of an index in a row are one; the names are compared without case. */
  function ReduceRenameIndex(op: Operation, other: Operation): Reduction
    requires op.RenameIndex?
  {
    if other.RenameIndex? && EqualFold(op.modelName, other.modelName) && other.oldName != "" &&
      EqualFold(op.newName, other.oldName) then
      Replace([RenameIndex(op.modelName, other.newName, op.oldName)])
    else BaseReduce(op, other)
  }

  // --- Adding and removing by name ---

  predicate HasConstraint(cs: seq<Constraint>, name: string) {
    exists i :: 0 <= i < |cs| && cs[i].name == name
  }

  lemma {:induction false} WithoutAbsent(ixs: seq<Index>, name: string)
    requires !HasIndex(ixs, name)
    ensures WithoutIndex(ixs, name) == ixs
  {
    if ixs != [] {
      var front, last := ixs[..|ixs| - 1], ixs[|ixs| - 1];
      assert ixs == front + [last];
      assert forall i :: 0 <= i < |front| ==> front[i] == ixs[i];
      WithoutAbsent(front, name);
    }
  }

  lemma {:induction false} WithoutNone(ixs: seq<Index>, name: string)
    ensures !HasIndex(WithoutIndex(ixs, name), name)
  {
    if ixs != [] {
      WithoutNone(ixs[..|ixs| - 1], name);
    }
  }

  lemma {:induction false} WithoutAbsentConstraint(cs: seq<Constraint>, name: string)
    requires !HasConstraint(cs, name)
    ensures WithoutConstraint(cs, name) == cs
  {
    if cs != [] {
      assert forall i :: 0 <= i < |cs| - 1 ==> cs[..|cs| - 1][i] == cs[i];
      WithoutAbsentConstraint(cs[..|cs| - 1], name);
    }
  }

  lemma {:induction false} WithoutNoConstraint(cs: seq<Constraint>, name: string)
    ensures !HasConstraint(WithoutConstraint(cs, name), name)
  {
    if cs != [] {
      WithoutNoConstraint(cs[..|cs| - 1], name);
    }
  }

  /** Adding one and removing its name gives back a list exactly when the name was not
      in it. */
  lemma WithoutAdded(ixs: seq<Index>, ix: Index)
    ensures WithoutIndex(ixs + [ix], ix.name) == ixs <==> !HasIndex(ixs, ix.name)
  {
    assert (ixs + [ix])[..|ixs|] == ixs;
    WithoutNone(ixs + [ix], ix.name);
    if !HasIndex(ixs, ix.name) {
      WithoutAbsent(ixs, ix.name);
    }
  }

  lemma WithoutAddedConstraint(cs: seq<Constraint>, c: Constraint)
    ensures WithoutConstraint(cs + [c], c.name) == cs <==> !HasConstraint(cs, c.name)
  {
    assert (cs + [c])[..|cs|] == cs;
    WithoutNoConstraint(cs + [c], c.name);
    if !HasConstraint(cs, c.name) {
      WithoutAbsentConstraint(cs, c.name);
    }
  }

  function SetIndexes(s: State, key: ModelKey, ixs: seq<Index>): (r: State)
    requires key in s
    ensures key in r && r[key].options.indexes == ixs && forall k :: k in s && k != key ==> k in r && r[k] == s[k]
  {
    s[key := s[key].(options := s[key].options.(indexes := ixs))]
  }

  function SetConstraints(s: State, key: ModelKey, cs: seq<Constraint>): (r: State)
    requires key in s
    ensures key in r && r[key].options.constraints == cs
  {
    s[key := s[key].(options := s[key].options.(constraints := cs))]
  }

  lemma SetIndexesBack(s: State, key: ModelKey, ixs: seq<Index>, cs: seq<Constraint>)
    requires key in s
    ensures SetIndexes(SetIndexes(s, key, ixs), key, s[key].options.indexes) == s
    ensures SetConstraints(SetConstraints(s, key, cs), key, s[key].options.constraints) == s
  {}

  lemma SetIndexesTwice(s: State, key: ModelKey, a: seq<Index>, b: seq<Index>)
    requires key in s
    ensures SetIndexes(SetIndexes(s, key, a), key, b) == SetIndexes(s, key, b)
  {}

  lemma AddIndexForwards(op: Operation, app: string, s: State)
    requires op.AddIndex?
    ensures var key := KeyOf(app, op.modelName);
      && (Forwards(op, app, s).Ok? <==> op.index.name != "" && key in s)
      && (Forwards(op, app, s).Ok? ==> Forwards(op, app, s).value == SetIndexes(s, key, s[key].options.indexes + [op.index]))
  {}

  lemma RemoveIndexForwards(op: Operation, app: string, s: State)
    requires op.RemoveIndex? && Forwards(op, app, s).Ok?
    ensures var key := KeyOf(app, op.modelName);
      key in s && Forwards(op, app, s).value == SetIndexes(s, key, WithoutIndex(s[key].options.indexes, op.name))
  {}

  /** Adding an index and removing one of that name is folded into nothing. That
      keeps the state exactly when both are on the same model and the model had no
      index of that name; the reduction checks neither. */
  lemma AddThenRemoveIndex(o: Operation, x: Operation, app: string, s: State, s1: State, s2: State)
    requires o.AddIndex? && x.RemoveIndex? && o.index.name == x.name
    requires Forwards(o, app, s) == Ok(s1) && Forwards(x, app, s1) == Ok(s2) && KeyOf(app, o.modelName) in s
    ensures ReduceAddIndex(o, x) == Replace([])
    ensures s2 == s <==>
      EqualFold(o.modelName, x.modelName) && !HasIndex(s[KeyOf(app, o.modelName)].options.indexes, x.name)
  {
    AddIndexForwards(o, app, s);
    RemoveIndexForwards(x, app, s1);
    FoldedIndex(s, KeyOf(app, o.modelName), KeyOf(app, x.modelName), o.index);
  }

  lemma FoldedIndex(s: State, k1: ModelKey, k2: ModelKey, ix: Index)
    requires k1 in s && k2 in s
    ensures var s1 := SetIndexes(s, k1, s[k1].options.indexes + [ix]);
      k2 in s1 && (SetIndexes(s1, k2, WithoutIndex(s1[k2].options.indexes, ix.name)) == s <==>
        k1 == k2 && !HasIndex(s[k1].options.indexes, ix.name))
  {
    var ixs := s[k1].options.indexes;
    WithoutAdded(ixs, ix);
    SetIndexesBack(s, k1, ixs + [ix], []);
    assert |ixs + [ix]| != |ixs|;
    hide HasIndex, WithoutIndex;
  }

  /** The index of the model before is lost, which the fold keeps. */
  lemma RemovesBoth(app: string, m: ModelState, ix: Index)
    requires m.options.indexes == [ix] && ix.name != ""
    ensures var s, o, x := map[KeyOf(app, "M") := m], AddIndex("M", ix), RemoveIndex("M", ix.name);
      && ReduceAddIndex(o, x) == Replace([])
      && Forwards(o, app, s).Ok? && Forwards(x, app, Forwards(o, app, s).value).Ok?
      && Forwards(x, app, Forwards(o, app, s).value) != Ok(s)
  {
    var s, o, x := map[KeyOf(app, "M") := m], AddIndex("M", ix), RemoveIndex("M", ix.name);
    AddIndexForwards(o, app, s);
    var s1 := Forwards(o, app, s).value;
    assert s1[KeyOf(app, "M")].options.indexes[0].name == ix.name;
    assert HasIndex(m.options.indexes, ix.name);
    hide HasIndex, WithoutIndex;
    AddThenRemoveIndex(o, x, app, s, s1, Forwards(x, app, s1).value);
  }

  lemma RenamedIs(ixs: seq<Index>, ix: Index, newName: string)
    ensures var ixs' := RenamedIndexes(ixs, ix.name, newName);
      && RenamedIndexes(ixs + [ix], ix.name, newName) == ixs' + [ix.(name := newName)]
      && (ixs' == ixs <==> newName == ix.name || !HasIndex(ixs, ix.name))
  {
    var ixs' := RenamedIndexes(ixs, ix.name, newName);
    if newName != ix.name && HasIndex(ixs, ix.name) {
      var i :| 0 <= i < |ixs| && ixs[i].name == ix.name;
      assert ixs'[i] != ixs[i];
    } else {
      assert forall i :: 0 <= i < |ixs| ==> ixs'[i] == ixs[i];
    }
  }

  lemma FoldedRename(s: State, k1: ModelKey, k2: ModelKey, ix: Index, newName: string)
    requires k1 in s && k2 in s && newName != ix.name
    ensures var ixs := s[k1].options.indexes;
      var s1 := SetIndexes(s, k1, ixs + [ix]);
      var folded := SetIndexes(s, k1, ixs + [ix.(name := newName)]);
      k2 in s1 && (SetIndexes(s1, k2, RenamedIndexes(s1[k2].options.indexes, ix.name, newName)) == folded <==>
        k1 == k2 && !HasIndex(ixs, ix.name))
  {
    var ixs := s[k1].options.indexes;
    var ixs', ix' := RenamedIndexes(ixs, ix.name, newName), ix.(name := newName);
    RenamedIs(ixs, ix, newName);
    SetIndexesTwice(s, k1, ixs + [ix], ixs' + [ix']);
    assert (ixs + [ix])[|ixs|] != (ixs + [ix'])[|ixs|];
    assert |ixs'| == |ixs|;
    SameFront(ixs', ixs, ix');
    hide HasIndex, RenamedIndexes;
  }

  lemma SameFront<T>(a: seq<T>, b: seq<T>, x: T)
    requires |a| == |b|
    ensures a + [x] == b + [x] <==> a == b
  {
    if a + [x] == b + [x] {
      assert a == (a + [x])[..|a|] && b == (b + [x])[..|b|];
    }
  }

  /** A rename to the same name changes nothing. */
  lemma RenamedToItself(s: State, k: ModelKey, name: string)
    requires k in s
    ensures SetIndexes(s, k, RenamedIndexes(s[k].options.indexes, name, name)) == s
  {
    var ixs := s[k].options.indexes;
    var r := RenamedIndexes(ixs, name, name);
    assert forall i :: 0 <= i < |ixs| ==> r[i] == ixs[i];
    assert r == ixs;
  }

  /** Adding an index and renaming one of that name is folded into adding it under the
      new name, which does the same exactly when the name does not change, or is not
      empty, and both are on the same model and the model had no index of that name. */
  lemma AddThenRenameIndex(o: Operation, x: Operation, app: string, s: State, s1: State, s2: State)
    requires o.AddIndex? && x.RenameIndex? && o.index.name == x.oldName
    requires Forwards(o, app, s) == Ok(s1) && Forwards(x, app, s1) == Ok(s2) && KeyOf(app, o.modelName) in s
    ensures ReduceAddIndex(o, x) == Replace([AddIndex(o.modelName, o.index.(name := x.newName))])
    ensures Forwards(AddIndex(o.modelName, o.index.(name := x.newName)), app, s) == Ok(s2) <==>
      || x.newName == x.oldName
      || (x.newName != "" && EqualFold(o.modelName, x.modelName) &&
        !HasIndex(s[KeyOf(app, o.modelName)].options.indexes, x.oldName))
  {
    AddIndexForwards(o, app, s);
    RenameIndexRuns(x, app, s1);
    AddIndexForwards(AddIndex(o.modelName, o.index.(name := x.newName)), app, s);
    hide HasIndex, SetIndexes, RenamedIndexes, Forwards;
    if x.newName == x.oldName {
      RenamedToItself(s1, KeyOf(app, x.modelName), x.newName);
    } else {
      FoldedRename(s, KeyOf(app, o.modelName), KeyOf(app, x.modelName), o.index, x.newName);
    }
  }

  // --- Two renames ---

  /** Renaming twice leaves every index with the name it gets when renaming once. */
  predicate RenamesAgree(ixs: seq<Index>, first: string, then_: string, second: string, last: string) {
    && (HasIndex(ixs, first) ==> then_ == second || then_ == last)
    && (second != first && HasIndex(ixs, second) ==> second == last)
  }

  lemma RenamesAgreeAt(ixs: seq<Index>, first: string, then_: string, second: string, last: string)
    ensures RenamedIndexes(RenamedIndexes(ixs, first, then_), second, last) == RenamedIndexes(ixs, first, last) <==>
      RenamesAgree(ixs, first, then_, second, last)
  {
    var twice := RenamedIndexes(RenamedIndexes(ixs, first, then_), second, last);
    var once := RenamedIndexes(ixs, first, last);
    assert |twice| == |once| == |ixs|;
    if twice == once {
      forall i | 0 <= i < |ixs|
        ensures ixs[i].name == first ==> then_ == second || then_ == last
        ensures ixs[i].name == second && second != first ==> second == last
      {
        assert twice[i] == once[i];
      }
    } else {
      var i :| 0 <= i < |ixs| && twice[i] != once[i];
      assert ixs[i].name == first || ixs[i].name == second;
    }
  }

  /** Two renames that meet without regard to case are folded into one. That does the
      same exactly when they meet, or the first one already gives the last name, as
      far as there is an index to rename; and no other index has the name that the
      second one renames, unless that keeps its name. */
  lemma RenameThenRenameIndex(o: Operation, x: Operation, app: string, s: State, s1: State, s2: State)
    requires o.RenameIndex? && x.RenameIndex? && EqualFold(o.modelName, x.modelName) && EqualFold(o.newName, x.oldName)
    requires Forwards(o, app, s) == Ok(s1) && Forwards(x, app, s1) == Ok(s2)
    ensures ReduceRenameIndex(o, x) == Replace([RenameIndex(o.modelName, x.newName, o.oldName)]) &&
      KeyOf(app, o.modelName) in s
    ensures Forwards(RenameIndex(o.modelName, x.newName, o.oldName), app, s) == Ok(s2) <==>
      RenamesAgree(s[KeyOf(app, o.modelName)].options.indexes, o.oldName, o.newName, x.oldName, x.newName)
  {
    var key, folded := KeyOf(app, o.modelName), RenameIndex(o.modelName, x.newName, o.oldName);
    RenameIndexRuns(o, app, s);
    RenameIndexRuns(x, app, s1);
    RenameIndexRuns(folded, app, s);
    hide HasIndex, RenamedIndexes, Forwards, RenamesAgree, SetIndexes;
    FoldedRenames(s, key, o.oldName, o.newName, x.oldName, x.newName);
  }

  lemma RenameIndexRuns(op: Operation, app: string, s: State)
    requires op.RenameIndex?
    ensures var key := KeyOf(app, op.modelName);
      && (Forwards(op, app, s).Ok? <==> op.oldName != "" && key in s)
      && (Forwards(op, app, s).Ok? ==>
        Forwards(op, app, s).value == SetIndexes(s, key, RenamedIndexes(s[key].options.indexes, op.oldName,
          op.newName)))
  {}

  lemma FoldedRenames(s: State, key: ModelKey, first: string, then_: string, second: string, last: string)
    requires key in s
    ensures var ixs := s[key].options.indexes;
      var s1 := SetIndexes(s, key, RenamedIndexes(ixs, first, then_));
      var twice := SetIndexes(s1, key, RenamedIndexes(s1[key].options.indexes, second, last));
      twice == SetIndexes(s, key, RenamedIndexes(ixs, first, last)) <==> RenamesAgree(ixs, first, then_, second, last)
  {
    var ixs := s[key].options.indexes;
    var mid := RenamedIndexes(ixs, first, then_);
    RenamesAgreeAt(ixs, first, then_, second, last);
    hide HasIndex, RenamedIndexes, RenamesAgree;
    SetIndexesTwice(s, key, mid, RenamedIndexes(mid, second, last));
  }

  /** The second rename changes nothing, but the fold gives its name. */
  lemma RenamesInVain(app: string, m: ModelState, ix: Index)
    requires m.options.indexes == [ix] && ix.name == "a"
    ensures var s, o, x := map[KeyOf(app, "M") := m], RenameIndex("M", "Foo", "a"), RenameIndex("M", "b", "foo");
      && ReduceRenameIndex(o, x) == Replace([RenameIndex("M", "b", "a")])
      && Forwards(o, app, s).Ok? && Forwards(x, app, Forwards(o, app, s).value).Ok?
      && Forwards(RenameIndex("M", "b", "a"), app, s) != Forwards(x, app, Forwards(o, app, s).value)
  {
    var s, o, x := map[KeyOf(app, "M") := m], RenameIndex("M", "Foo", "a"), RenameIndex("M", "b", "foo");
    assert Lower("Foo") == Lower("foo");
    assert HasIndex(m.options.indexes, "a") by {
      assert m.options.indexes[0].name == "a";
    }
    hide HasIndex, RenamedIndexes;
    var s1 := Forwards(o, app, s).value;
    RenameThenRenameIndex(o, x, app, s, s1, Forwards(x, app, s1).value);
  }

  // --- Constraints ---

  lemma ConstraintForwards(op: Operation, app: string, s: State)
    requires (op.AddConstraint? || op.RemoveConstraint? || op.AlterConstraint?) && Forwards(op, app, s).Ok?
    ensures var key := KeyOf(app, op.modelName);
      && key in s
      && var cs := s[key].options.constraints;
      && (op.AddConstraint? ==> Forwards(op, app, s).value == SetConstraints(s, key,
        cs + [QualifyConstraint(op.constraint, app)]))
      && (op.RemoveConstraint? ==> Forwards(op, app, s).value == SetConstraints(s, key, WithoutConstraint(cs, op.name)))
      && (op.AlterConstraint? ==> Forwards(op, app, s).value == SetConstraints(s, key,
        AlteredConstraints(cs, op.name, QualifyConstraint(op.constraint, app))))
  {}

  /** A constraint added and removed again is folded into nothing, which keeps the
      state exactly when the model had no constraint of that name. */
  lemma AddThenRemoveConstraint(o: Operation, x: Operation, app: string, s: State, s1: State, s2: State)
    requires o.AddConstraint? && x.RemoveConstraint? && EqualFold(o.modelName, x.modelName) &&
      o.constraint.name == x.name
    requires Forwards(o, app, s) == Ok(s1) && Forwards(x, app, s1) == Ok(s2) && KeyOf(app, o.modelName) in s
    ensures ReduceAddConstraint(o, x) == Replace([])
    ensures s2 == s <==> !HasConstraint(s[KeyOf(app, o.modelName)].options.constraints, x.name)
  {
    ConstraintForwards(o, app, s);
    ConstraintForwards(x, app, s1);
    FoldedConstraint(s, KeyOf(app, o.modelName), QualifyConstraint(o.constraint, app));
  }

  lemma FoldedConstraint(s: State, key: ModelKey, c: Constraint)
    requires key in s
    ensures var s1 := SetConstraints(s, key, s[key].options.constraints + [c]);
      SetConstraints(s1, key, WithoutConstraint(s1[key].options.constraints, c.name)) == s <==>
        !HasConstraint(s[key].options.constraints, c.name)
  {
    var cs := s[key].options.constraints;
    WithoutAddedConstraint(cs, c);
    SetIndexesBack(s, key, [], cs + [c]);
    hide HasConstraint, WithoutConstraint;
  }

  lemma AlteredIs(cs: seq<Constraint>, c: Constraint, d: Constraint)
    ensures var cs' := AlteredConstraints(cs, c.name, d);
      && AlteredConstraints(cs + [c], c.name, d) == cs' + [d] && |cs'| == |cs|
      && (cs' == cs <==> forall i :: 0 <= i < |cs| && cs[i].name == c.name ==> cs[i] == d)
  {
    var cs' := AlteredConstraints(cs, c.name, d);
    if cs' == cs {
      forall i | 0 <= i < |cs| && cs[i].name == c.name
        ensures cs[i] == d
      {
        assert cs'[i] == d;
      }
    }
  }

  /** A constraint added and altered is folded into adding the altered one, which does
      the same exactly when every other constraint of that name is that one already. */
  lemma AddThenAlterConstraint(o: Operation, x: Operation, app: string, s: State, s1: State, s2: State)
    requires o.AddConstraint? && x.AlterConstraint? && EqualFold(o.modelName, x.modelName) &&
      o.constraint.name == x.name
    requires Forwards(o, app, s) == Ok(s1) && Forwards(x, app, s1) == Ok(s2) && KeyOf(app, o.modelName) in s
    ensures ReduceAddConstraint(o, x) == Replace([AddConstraint(o.modelName, x.constraint)])
    ensures var cs := s[KeyOf(app, o.modelName)].options.constraints;
      Forwards(AddConstraint(o.modelName, x.constraint), app, s) == Ok(s2) <==>
        forall i :: 0 <= i < |cs| && cs[i].name == x.name ==> cs[i] == QualifyConstraint(x.constraint, app)
  {
    var key, d := KeyOf(app, o.modelName), QualifyConstraint(x.constraint, app);
    var cs, c := s[key].options.constraints, QualifyConstraint(o.constraint, app);
    var folded := AddConstraint(o.modelName, x.constraint);
    ConstraintForwards(o, app, s);
    ConstraintForwards(x, app, s1);
    AlteredIs(cs, c, d);
    var cs' := AlteredConstraints(cs, c.name, d);
    AddConstraintRuns(folded, app, s);
    QualifiedName(o.constraint, app);
    hide AlteredConstraints, Forwards, QualifyConstraint, SetConstraints;
    SetConstraintsTwice(s, key, cs + [c], cs' + [d]);
    SameFront(cs', cs, d);
  }

  lemma AddConstraintRuns(op: Operation, app: string, s: State)
    requires op.AddConstraint? && KeyOf(app, op.modelName) in s
    ensures var key := KeyOf(app, op.modelName);
      Forwards(op, app, s) == Ok(SetConstraints(s, key,
        s[key].options.constraints + [QualifyConstraint(op.constraint, app)]))
  {}

  lemma QualifiedName(c: Constraint, app: string)
    ensures QualifyConstraint(c, app).name == c.name
  {}

  lemma SetConstraintsTwice(s: State, key: ModelKey, a: seq<Constraint>, b: seq<Constraint>)
    requires key in s
    ensures SetConstraints(SetConstraints(s, key, a), key, b) == SetConstraints(s, key, b)
  {}

  // --- When a pair is replaced ---

  /** The addition of an index and an operation after it are replaced exactly when that
      removes or renames an index of its name, or is elidable; never moved across. */
  lemma IndexReplacedExactly(o: Operation, x: Operation)
    requires o.AddIndex?
    ensures ReduceAddIndex(o, x).Replace? <==>
      || Elidable(x) || (x.RemoveIndex? && x.name == o.index.name) || (x.RenameIndex? && x.oldName == o.index.name)
    ensures !ReduceAddIndex(o, x).Through?
  {}

  lemma RenameReplacedExactly(o: Operation, x: Operation)
    requires o.RenameIndex?
    ensures ReduceRenameIndex(o, x).Replace? <==>
      || Elidable(x)
      || (x.RenameIndex? && EqualFold(o.modelName, x.modelName) && x.oldName != "" && EqualFold(o.newName, x.oldName))
    ensures !ReduceRenameIndex(o, x).Through?
  {}

  lemma ConstraintReplacedExactly(o: Operation, x: Operation)
    requires o.AddConstraint?
    ensures ReduceAddConstraint(o, x).Replace? <==>
      || Elidable(x)
      || ((x.RemoveConstraint? || x.AlterConstraint?) && EqualFold(o.modelName, x.modelName) &&
            x.name == o.constraint.name)
    ensures !ReduceAddConstraint(o, x).Through?
  {}

  lemma OptionReplacedExactly(o: Operation, x: Operation, app: string)
    requires SameKind(o, o)
    ensures ReduceOption(o, x, app).Replace? <==>
      Elidable(x) || ((SameKind(o, x) || x.DeleteModel?) && EqualFold(o.name, ModelOpName(x)))
    ensures ReduceOption(o, x, app).Through? ==> !ReferencesModel(x, o.name, app)
  {
    hide ReferencesModel, EqualFold;
  }
}
