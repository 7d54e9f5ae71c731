/** A field operation and the creation or rename of another model can run in either
    order. */
module ReduceAcross {
  import opened Wrappers
  import opened Names
  import opened ModelStates
  import opened Operations
  import opened States
  import opened Reductions
  import opened FieldReductions
  import opened ReduceField
  import Renames

  // --- A creation ---

  function ModelMade(op: Operation, app: string): ModelState
    requires op.CreateModel?
  {
    Qualified(NewModel(op, app))
  }

  lemma CreateForwards(op: Operation, app: string, s: State)
    requires op.CreateModel?
    ensures (Forwards(op, app, s).Ok? <==> ValidModel(NewModel(op, app)))
    ensures Forwards(op, app, s).Ok? ==> Forwards(op, app, s).value == s[KeyOf(app, op.name) := ModelMade(op, app)]
  {}

  lemma ChangeThroughCreate(o: Operation, x: Operation, app: string, s: State, s1: State, s2: State)
    requires FieldChange(o) && x.CreateModel? && BothRun(o, x, app, s, s1, s2)
    requires ModelKeyOf(o, app) != KeyOf(app, x.name)
    ensures ForwardsAll([x, o], app, s) == Ok(s2)
  {
    var k1, k2, m := ModelKeyOf(o, app), KeyOf(app, x.name), ModelMade(x, app);
    FieldForwards(o, app, s);
    CreateForwards(x, app, s1);
    CreateForwards(x, app, s);
    hide BothRun, Forwards, ModelMade, ValidModel, ChangeFields;
    var t := s[k2 := m];
    FieldForwards(o, app, t);
    assert t[k1] == s[k1];
    var fs := ChangeFields(o, app, s[k1].fields).value;
    assert SetFields(t, k1, fs) == SetFields(s, k1, fs)[k2 := m];
    RunTwo(x, o, app, s);
  }

  /** A rename of a column to its own name changes no other model. */
  lemma RenameNothing(m: ModelState, k: ModelKey, key: ModelKey, name: string)
    requires k != key
    ensures RenamedIn(m, k, key, name, name) == m
  {
    var cs, fs := m.options.constraints, m.fields;
    forall i | 0 <= i < |cs|
      ensures RenameTargetColumn(cs[i], k.app, key, name, name) == cs[i]
    {
      if cs[i].ForeignKeyConstraint? {
        assert RenameIn(cs[i].toFields, name, name) == cs[i].toFields;
      }
    }
    assert RenamedConstraints(cs, k.app, key, false, name, name) == cs;
    assert RenamedColumns(fs, k.app, key, false, name, name) == fs;
  }

  /** The new model does not mention the column under its old name. */
  lemma MadeUnmentioned(o: Operation, x: Operation, app: string, s: State, s1: State, s2: State)
    requires o.RenameField? && x.CreateModel? && BothRun(o, x, app, s, s1, s2)
    requires KeyOf(app, o.modelName) != KeyOf(app, x.name)
    ensures var k1, k2 := KeyOf(app, o.modelName), KeyOf(app, x.name);
      RenamedIn(ModelMade(x, app), k2, k1, o.oldName, o.newName) == ModelMade(x, app)
  {
    var k1, k2, m := KeyOf(app, o.modelName), KeyOf(app, x.name), ModelMade(x, app);
    RenameForwards(o, app, s);
    CreateForwards(x, app, s1);
    if o.oldName == o.newName {
      RenameNothing(m, k2, k1, o.oldName);
    } else {
      WellFormedAt(s, k1);
      WellFormedAt(s2, k1);
      NewNameWasFree(s[k1].fields, k1.app, k1, o.oldName, o.newName);
      Renames.OldNameGone(s[k1].fields, k1.app, k1, o.oldName, o.newName);
      assert s2[k2] == m && s2[k1] == s1[k1];
      assert s1[k1].fields == RenamedColumns(s[k1].fields, k1.app, k1, true, o.oldName, o.newName);
      hide Forwards, ModelMade, WellFormed, RenamedColumns, PointsAt, OptionsMention, FieldIndex;
      assert Unmentioned(s2, k1, o.oldName);
      RenameUnmentioned(m, k2, k1, o.oldName, o.newName);
    }
  }

  lemma RenameThroughCreate(o: Operation, x: Operation, app: string, s: State, s1: State, s2: State)
    requires o.RenameField? && x.CreateModel? && BothRun(o, x, app, s, s1, s2)
    requires KeyOf(app, o.modelName) != KeyOf(app, x.name)
    ensures ForwardsAll([x, o], app, s) == Ok(s2)
  {
    var k1, k2, m := KeyOf(app, o.modelName), KeyOf(app, x.name), ModelMade(x, app);
    MadeUnmentioned(o, x, app, s, s1, s2);
    RenameForwards(o, app, s);
    CreateForwards(x, app, s1);
    CreateForwards(x, app, s);
    hide BothRun, Forwards, ModelMade, ValidModel, RenamedIn;
    var t := s[k2 := m];
    RenameForwards(o, app, t);
    assert t[k1] == s[k1];
    assert RenameFieldIn(t, k1, o.oldName, o.newName) == RenameFieldIn(s, k1, o.oldName, o.newName)[k2 := m];
    RunTwo(x, o, app, s);
  }

  // --- A rename of a model ---

  lemma RenameModelForwards(op: Operation, app: string, s: State)
    requires op.RenameModel?
    ensures (Forwards(op, app, s).Ok? <==> KeyOf(app, op.oldName) in s)
    ensures Forwards(op, app, s).Ok? ==> Forwards(op, app, s).value == RenameModelIn(s, app, op.oldName, op.newName)
  {}

  lemma SameNamesIndex(fs: Fields, gs: Fields, name: string)
    requires |fs| == |gs| && forall i :: 0 <= i < |fs| ==> fs[i].name == gs[i].name
    ensures FieldIndex(fs, name) == FieldIndex(gs, name)
  {
    var i, j := FieldIndex(fs, name), FieldIndex(gs, name);
    assert i >= 0 ==> gs[i].name == name;
    assert j >= 0 ==> fs[j].name == name;
  }

  /** A plain change to the fields of another model can be made before or after
      references are repointed. */
  lemma ChangeAndRepoint(op: Operation, app: string, fs: Fields, where_: string, key: ModelKey, ref: string)
    requires FieldChange(op) && NotRelational(op)
    ensures var r := ChangeFields(op, app, RepointedFields(fs, where_, key, ref));
      && (r.Some? <==> ChangeFields(op, app, fs).Some?)
      && (r.Some? ==> r.value == RepointedFields(ChangeFields(op, app, fs).value, where_, key, ref))
  {
    var q, i := RepointedFields(fs, where_, key, ref), FieldIndex(fs, op.name);
    SameNamesIndex(fs, q, op.name);
    hide FieldIndex;
    match op
    case AddField(_, name, field, preserve) =>
      var f := NamedField(name, Entering(field, app, Preserve(preserve)));
      assert RepointedFields(fs + [f], where_, key, ref) == q + [f];
    case RemoveField(_, _) =>
      if i >= 0 {
        RepointedRemove(fs, i, where_, key, ref);
      }
    case AlterField(_, name, field, preserve) =>
      if i >= 0 {
        var f := NamedField(name, Entering(field, app, Preserve(preserve)));
        assert RepointedFields(fs[i := f], where_, key, ref) == q[i := f];
      }
  }

  lemma RepointedRemove(fs: Fields, i: nat, where_: string, key: ModelKey, ref: string)
    requires i < |fs|
    ensures RepointedFields(RemoveAt(fs, i), where_, key, ref) == RemoveAt(RepointedFields(fs, where_, key, ref), i)
  {
    var rest, r := RemoveAt(fs, i), RepointedFields(fs, where_, key, ref);
    assert forall j :: 0 <= j < |rest| ==> rest[j] == fs[if j < i then j else j + 1];
    assert forall j :: 0 <= j < |rest| ==> RemoveAt(r, i)[j] == r[if j < i then j else j + 1];
  }

  lemma SetFieldsAndRenameModel(s: State, app: string, oldName: string, newName: string, k1: ModelKey, fs: Fields)
    requires KeyOf(app, oldName) in s && k1 in s && k1 != KeyOf(app, oldName) && k1 != KeyOf(app, newName)
    ensures var t := RenameModelIn(s, app, oldName, newName);
      var oldKey, ref := KeyOf(app, oldName), app + "." + newName;
      && k1 in t && t[k1].fields == RepointedFields(s[k1].fields, k1.app, oldKey, ref)
      && RenameModelIn(SetFields(s, k1, fs), app, oldName, newName)
        == SetFields(t, k1, RepointedFields(fs, k1.app, oldKey, ref))
  {
    hide RepointedFields, RepointedConstraints;
  }

  lemma ChangeThroughRenameModel(o: Operation, x: Operation, app: string, s: State, s1: State, s2: State)
    requires FieldChange(o) && NotRelational(o) && x.RenameModel? && BothRun(o, x, app, s, s1, s2)
    requires ModelKeyOf(o, app) != KeyOf(app, x.oldName) && ModelKeyOf(o, app) != KeyOf(app, x.newName)
    ensures ForwardsAll([x, o], app, s) == Ok(s2)
  {
    var k1 := ModelKeyOf(o, app);
    FieldForwards(o, app, s);
    RenameModelForwards(x, app, s1);
    RenameModelForwards(x, app, s);
    hide BothRun, Forwards, ChangeFields;
    var fs := ChangeFields(o, app, s[k1].fields).value;
    SetFieldsAndRenameModel(s, app, x.oldName, x.newName, k1, fs);
    ChangeAndRepoint(o, app, s[k1].fields, k1.app, KeyOf(app, x.oldName), app + "." + x.newName);
    hide RenameModelIn, SetFields, RepointedFields;
    FieldForwards(o, app, RenameModelIn(s, app, x.oldName, x.newName));
    RunTwo(x, o, app, s);
  }

  // --- The rename of a model and that of a column of another ---

  lemma RepointAndRenameField(f: Field, where_: string, oldKey: ModelKey, ref: string, key: ModelKey, a: string,
      b: string)
    requires oldKey != key && ResolveRelation(ref, where_) != key
    ensures RenameTargetField(RepointField(f, where_, oldKey, ref), where_, key, a, b)
         == RepointField(RenameTargetField(f, where_, key, a, b), where_, oldKey, ref)
  {}

  lemma RepointAndRenameConstraint(
      c: Constraint, where_: string, oldKey: ModelKey, ref: string, key: ModelKey, here: bool, a: string, b: string)
    requires oldKey != key && ResolveRelation(ref, where_) != key
    ensures var d := RepointConstraint(c, where_, oldKey, ref);
      RenameTargetColumn(if here then RenameColumn(d, a, b) else d, where_, key, a, b)
        == RepointConstraint(RenameTargetColumn(if here then RenameColumn(c, a, b) else c, where_, key, a, b), where_,
          oldKey, ref)
  {}

  /** The model at k, which is at k' after the rename of a model. */
  lemma RepointAndRename(m: ModelState, k: ModelKey, k': ModelKey, oldKey: ModelKey, ref: string, key: ModelKey,
      a: string,
      b: string)
    requires k.app == k'.app && (k == key <==> k' == key) && oldKey != key && ResolveRelation(ref, k.app) != key
    ensures RenamedIn(Repointed(m, k', oldKey, ref), k', key, a, b)
      == Repointed(RenamedIn(m, k, key, a, b), k', oldKey, ref)
  {
    var fs, cs, here := m.fields, m.options.constraints, k == key;
    var gs := RepointedFields(fs, k.app, oldKey, ref);
    SameNamesIndex(fs, gs, a);
    forall i | 0 <= i < |fs|
      ensures RenamedColumns(gs, k.app, key, here, a, b)[i]
        == RepointedFields(RenamedColumns(fs, k.app, key, here, a, b), k.app, oldKey, ref)[i]
    {
      RepointAndRenameField(fs[i].field, k.app, oldKey, ref, key, a, b);
    }
    hide FieldIndex, RepointField, RenameTargetField, RepointConstraint, RenameTargetColumn, RenameColumn;
    assert RenamedColumns(gs, k.app, key, here, a, b)
      == RepointedFields(RenamedColumns(fs, k.app, key, here, a, b), k.app, oldKey, ref);
    RepointAndRenameConstraints(cs, k.app, oldKey, ref, key, here, a, b);
    hide RenamedColumns, RepointedFields, RenamedConstraints, RepointedConstraints;
  }

  lemma RepointAndRenameConstraints(
      cs: seq<Constraint>, where_: string, oldKey: ModelKey, ref: string, key: ModelKey, here: bool, a: string,
        b: string)
    requires oldKey != key && ResolveRelation(ref, where_) != key
    ensures RenamedConstraints(RepointedConstraints(cs, where_, oldKey, ref), where_, key, here, a, b)
         == RepointedConstraints(RenamedConstraints(cs, where_, key, here, a, b), where_, oldKey, ref)
  {
    var l := RenamedConstraints(RepointedConstraints(cs, where_, oldKey, ref), where_, key, here, a, b);
    var r := RepointedConstraints(RenamedConstraints(cs, where_, key, here, a, b), where_, oldKey, ref);
    forall i | 0 <= i < |cs|
      ensures l[i] == r[i]
    {
      RepointAndRenameConstraint(cs[i], where_, oldKey, ref, key, here, a, b);
    }
    assert l == r;
  }

  /** A reference to a model of an app is never one to another model of it, even where
      the app's label has a dot. */
  lemma RefApart(app: string, name: string, where_: string, key: ModelKey)
    requires key.app == app && key != KeyOf(app, name)
    ensures ResolveRelation(app + "." + name, where_) != key
  {
    if HasDot(app) {
      var ref := app + "." + name;
      var i :| 0 <= i < |app| && app[i] == '.';
      assert ref[i] == '.';
      assert DotFrom(ref, 0) <= i && |ref[..DotFrom(ref, 0)]| < |app|;
    } else {
      ResolveQualified(app, name, where_);
    }
  }

  lemma RenamesOfModelAndColumn(s: State, app: string, oldName: string, newName: string, key: ModelKey, a: string,
      b: string)
    requires KeyOf(app, oldName) in s && key in s && key != KeyOf(app, oldName) && key != KeyOf(app, newName) &&
      key.app == app
    ensures var t := RenameModelIn(s, app, oldName, newName);
      && key in t && (HasField(t[key].fields, a) <==> HasField(s[key].fields, a))
      && RenameFieldIn(t, key, a, b) == RenameModelIn(RenameFieldIn(s, key, a, b), app, oldName, newName)
  {
    var oldKey, newKey, ref := KeyOf(app, oldName), KeyOf(app, newName), app + "." + newName;
    var t, u := RenameModelIn(s, app, oldName, newName), RenameFieldIn(s, key, a, b);
    SameNamesIndex(s[key].fields, t[key].fields, a);
    hide Repointed, RenamedIn, FieldIndex, ResolveRelation;
    forall k | k in t
      ensures RenameFieldIn(t, key, a, b)[k] == RenameModelIn(u, app, oldName, newName)[k]
    {
      RefApart(app, newName, k.app, key);
      if k == newKey {
        RepointAndRename(s[oldKey].(name := newName), oldKey, newKey, oldKey, ref, key, a, b);
        RenamedNameKept(s[oldKey], oldKey, key, a, b, newName);
      } else {
        RepointAndRename(s[k], k, k, oldKey, ref, key, a, b);
      }
    }
  }

  lemma RenamedNameKept(m: ModelState, k: ModelKey, key: ModelKey, a: string, b: string, name: string)
    ensures RenamedIn(m.(name := name), k, key, a, b) == RenamedIn(m, k, key, a, b).(name := name)
  {}

  lemma RenameThroughRenameModel(o: Operation, x: Operation, app: string, s: State, s1: State, s2: State)
    requires o.RenameField? && x.RenameModel? && BothRun(o, x, app, s, s1, s2)
    requires var key := KeyOf(app, o.modelName); key != KeyOf(app, x.oldName) && key != KeyOf(app, x.newName)
    ensures ForwardsAll([x, o], app, s) == Ok(s2)
  {
    var key := KeyOf(app, o.modelName);
    RenameForwards(o, app, s);
    RenameModelForwards(x, app, s1);
    RenameModelForwards(x, app, s);
    hide BothRun, Forwards, FieldIndex;
    RenamesOfModelAndColumn(s, app, x.oldName, x.newName, key, o.oldName, o.newName);
    hide RenameModelIn, RenameFieldIn;
    RenameForwards(o, app, RenameModelIn(s, app, x.oldName, x.newName));
    RunTwo(x, o, app, s);
  }
}
