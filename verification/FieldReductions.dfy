/** Reducing field operations preserves what they do to the state. */
module FieldReductions {
  import opened Wrappers
  import opened Names
  import opened ModelStates
  import opened Operations
  import opened States
  import opened Reductions

  // --- States that make sense ---

  /** The options of a model mention the column. */
  ghost predicate OptionsMention(o: Options, column: string) {
    || (exists i :: 0 <= i < |o.uniqueTogether| && column in o.uniqueTogether[i])
    || (exists i :: 0 <= i < |o.indexes| && IndexMentions(o.indexes[i], column))
    || (exists i :: 0 <= i < |o.constraints| && ConstraintMentions(o.constraints[i], column))
  }

  ghost predicate IndexMentions(ix: Index, column: string) {
    column in ix.include_ || exists i :: 0 <= i < |ix.fields| && ix.fields[i].column == column
  }

  ghost predicate ConstraintMentions(c: Constraint, column: string) {
    match c
    case CheckConstraint(_, _, _) => false
    case UniqueConstraint(_, fields, _, _, include_, _, _) => column in fields || column in include_
    case ForeignKeyConstraint(_, fields, _, _, _, _) => column in fields
  }

  /** Some foreign key of the model at k, on a field or over the table, points at
      the column of key. */
  ghost predicate PointsAt(m: ModelState, k: ModelKey, key: ModelKey, column: string) {
    || (exists i :: 0 <= i < |m.fields| && FieldPointsAt(m.fields[i].field, k.app, key, column))
    || (exists i :: 0 <= i < |m.options.constraints| && ConstraintPointsAt(m.options.constraints[i], k.app, key, column))
  }

  ghost predicate FieldPointsAt(f: Field, app: string, key: ModelKey, column: string) {
    f.foreignKey.Some? && ResolveRelation(f.foreignKey.value.to, app) == key && f.foreignKey.value.toField == column
  }

  ghost predicate ConstraintPointsAt(c: Constraint, app: string, key: ModelKey, column: string) {
    c.ForeignKeyConstraint? && ResolveRelation(c.to, app) == key && column in c.toFields
  }

  /** Nothing but a field of the model itself has the name. */
  ghost predicate Unmentioned(s: State, key: ModelKey, column: string) {
    && (key in s ==> !OptionsMention(s[key].options, column))
    && forall k :: k in s ==> !PointsAt(s[k], k, key, column)
  }

  ghost predicate DistinctIgnoringCase(fs: Fields) {
    forall i, j :: 0 <= i < j < |fs| ==> !EqualFold(fs[i].name, fs[j].name)
  }

  /** Field names differ even without case, and every column mentioned exists. */
  ghost predicate WellFormed(s: State) {
    forall key :: key in s ==> DistinctIgnoringCase(s[key].fields) && MentionsOnlyFields(s, key)
  }

  ghost predicate MentionsOnlyFields(s: State, key: ModelKey)
    requires key in s
  {
    forall column :: !HasField(s[key].fields, column) ==> Unmentioned(s, key, column)
  }

  // --- Sameness ---

  function NoDefault(f: Field): Field {
    f.(default := None)
  }

  function NoDefaults(fs: Fields): (r: Fields)
    ensures |r| == |fs|
  {
    seq(|fs|, i requires 0 <= i < |fs| => NamedField(fs[i].name, NoDefault(fs[i].field)))
  }

  /** The state without the one-off defaults. */
  function Lasting(s: State): State {
    map k | k in s :: s[k].(fields := NoDefaults(s[k].fields))
  }

  /** The same fields by name, in whatever order. */
  ghost predicate SameFields(a: Fields, b: Fields) {
    |a| == |b| && forall i :: 0 <= i < |a| ==>
      HasField(b, a[i].name) && FieldEqual(a[i].field, b[FieldIndex(b, a[i].name)].field)
  }

  ghost predicate SameModel(a: ModelState, b: ModelState) {
    a.(fields := []) == b.(fields := []) && SameFields(a.fields, b.fields)
  }

  /** The comparison of project states: fields are compared by name, not by place. */
  ghost predicate SameState(a: State, b: State) {
    a.Keys == b.Keys && forall k :: k in a ==> SameModel(a[k], b[k])
  }

  // --- Places in a field list ---

  lemma FieldIndexIs(fs: Fields, name: string, i: nat)
    requires i < |fs| && fs[i].name == name && forall j :: 0 <= j < i ==> fs[j].name != name
    ensures FieldIndex(fs, name) == i
  {}

  lemma IndexAfterAdd(fs: Fields, f: NamedField, name: string)
    ensures FieldIndex(fs + [f], name)
         == if HasField(fs, name) then FieldIndex(fs, name) else if f.name == name then |fs| else -1
  {
    assert (fs + [f])[..|fs|] == fs;
  }

  lemma IndexAfterRemove(fs: Fields, i: nat, name: string)
    requires i < |fs| && fs[i].name != name
    ensures FieldIndex(RemoveAt(fs, i), name) == FieldIndex(fs, name) - if FieldIndex(fs, name) > i then 1 else 0
  {
    var k, rest := FieldIndex(fs, name), RemoveAt(fs, i);
    assert forall j :: 0 <= j < |rest| ==> rest[j] == fs[if j < i then j else j + 1];
    if k >= 0 {
      FieldIndexIs(rest, name, if k > i then k - 1 else k);
    }
  }

  lemma IndexAfterAlter(fs: Fields, i: nat, f: NamedField, name: string)
    requires i < |fs| && fs[i].name == f.name
    ensures FieldIndex(fs[i := f], name) == FieldIndex(fs, name)
  {
    var k, alt := FieldIndex(fs, name), fs[i := f];
    assert forall j :: 0 <= j < |alt| ==> alt[j].name == fs[j].name;
    if k >= 0 {
      FieldIndexIs(alt, name, k);
    }
  }

  /** The first fields with distinct names keep their places when one is renamed. */
  lemma IndexAfterRename(fs: Fields, app: string, key: ModelKey, oldName: string, newName: string, name: string)
    requires name != oldName && name != newName
    ensures FieldIndex(RenamedColumns(fs, app, key, true, oldName, newName), name) == FieldIndex(fs, name)
  {
    var r, k := RenamedColumns(fs, app, key, true, oldName, newName), FieldIndex(fs, name);
    if k >= 0 {
      FieldIndexIs(r, name, k);
    }
  }

  lemma IndexElsewhere(fs: Fields, app: string, key: ModelKey, oldName: string, newName: string, name: string)
    ensures FieldIndex(RenamedColumns(fs, app, key, false, oldName, newName), name) == FieldIndex(fs, name)
  {
    var r, k := RenamedColumns(fs, app, key, false, oldName, newName), FieldIndex(fs, name);
    if k >= 0 {
      FieldIndexIs(r, name, k);
    }
  }

  lemma SameNameSamePlace(fs: Fields, i: nat, j: nat)
    requires DistinctIgnoringCase(fs) && i < |fs| && j < |fs| && EqualFold(fs[i].name, fs[j].name)
    ensures i == j
  {}

  // --- Changes to one model commute ---

  /** Adding, removing or altering a column. */
  predicate FieldChange(op: Operation) {
    op.AddField? || op.RemoveField? || op.AlterField?
  }

  /** The column does not become a foreign key. */
  predicate NotRelational(op: Operation) {
    op.AddField? || op.AlterField? ==> op.field.foreignKey.None?
  }

  function ColumnOf(op: Operation): string
    requires FieldChange(op)
  {
    op.name
  }

  /** What the change makes of a field list. */
  function ChangeFields(op: Operation, app: string, fs: Fields): Option<Fields>
    requires FieldChange(op)
  {
    match op
    case AddField(_, name, field, preserve) => Some(fs + [NamedField(name, Entering(field, app, Preserve(preserve)))])
    case RemoveField(_, name) => if HasField(fs, name) then Some(RemoveAt(fs, FieldIndex(fs, name))) else None
    case AlterField(_, name, field, preserve) =>
      if HasField(fs, name) then Some(fs[FieldIndex(fs, name) := NamedField(name,
        Entering(field, app, Preserve(preserve)))])
      else None
  }

  function ModelKeyOf(op: Operation, app: string): ModelKey
    requires FieldChange(op)
  {
    KeyOf(app, op.modelName)
  }

  /** The state with other fields for the model at key. */
  function SetFields(s: State, key: ModelKey, fs: Fields): State
    requires key in s
  {
    s[key := s[key].(fields := fs)]
  }

  lemma FieldForwards(op: Operation, app: string, s: State)
    requires FieldChange(op)
    ensures var key := ModelKeyOf(op, app);
      && (Forwards(op, app, s).Ok? <==> key in s && ChangeFields(op, app, s[key].fields).Some?)
      && (Forwards(op, app, s).Ok? ==>
            Forwards(op, app, s).value == SetFields(s, key, ChangeFields(op, app, s[key].fields).value))
  {}

  lemma IndexAfterChange(op: Operation, app: string, fs: Fields, name: string)
    requires FieldChange(op) && ChangeFields(op, app, fs).Some? && name != ColumnOf(op)
    ensures HasField(ChangeFields(op, app, fs).value, name) <==> HasField(fs, name)
  {
    match op
    case AddField(_, own, field, preserve) =>
      IndexAfterAdd(fs, NamedField(own, Entering(field, app, Preserve(preserve))), name);
    case RemoveField(_, own) => IndexAfterRemove(fs, FieldIndex(fs, own), name);
    case AlterField(_, own, field, preserve) =>
      IndexAfterAlter(fs, FieldIndex(fs, own), NamedField(own, Entering(field, app, Preserve(preserve))), name);
  }

  lemma RemovesCommute(fs: Fields, i: nat, j: nat)
    requires i < j < |fs|
    ensures RemoveAt(RemoveAt(fs, j), i) == RemoveAt(RemoveAt(fs, i), j - 1)
  {}

  lemma AltersCommute(fs: Fields, i: nat, j: nat, f: NamedField)
    requires i < |fs| && j < |fs| && i != j
    ensures RemoveAt(fs[j := f], i) == RemoveAt(fs, i)[(if j > i then j - 1 else j) := f]
  {}

  /** Changes to different columns of a model, one of them not an addition, can be
      made in either order. */
  lemma ChangesCommute(a: Operation, b: Operation, app: string, fs: Fields)
    requires FieldChange(a) && FieldChange(b) && ColumnOf(a) != ColumnOf(b) && !(a.AddField? && b.AddField?)
    requires ChangeFields(a, app, fs).Some? && ChangeFields(b, app, ChangeFields(a, app, fs).value).Some?
    ensures ChangeFields(b, app, fs).Some?
    ensures ChangeFields(a, app, ChangeFields(b, app, fs).value) == ChangeFields(b, app, ChangeFields(a, app, fs).value)
  {
    IndexAfterChange(a, app, fs, ColumnOf(b));
    assert ChangeFields(b, app, fs).Some?;
    IndexAfterChange(b, app, fs, ColumnOf(a));
    hide RemoveAt, Entering;
    if a.AddField? {
      AddCommutes(a, b, app, fs);
    } else if b.AddField? {
      AddCommutes(b, a, app, fs);
    } else if a.RemoveField? && b.RemoveField? {
      RemoveRemoveCommute(a, b, app, fs);
    } else if a.RemoveField? {
      RemoveAlterCommute(a, b, app, fs);
    } else if b.RemoveField? {
      RemoveAlterCommute(b, a, app, fs);
    } else {
      AlterAlterCommute(a, b, app, fs);
    }
  }

  lemma AddCommutes(a: Operation, b: Operation, app: string, fs: Fields)
    requires FieldChange(a) && FieldChange(b) && ColumnOf(a) != ColumnOf(b) && a.AddField? && !b.AddField?
    requires ChangeFields(b, app, fs).Some?
    ensures ChangeFields(b, app, ChangeFields(a, app, fs).value).Some?
    ensures ChangeFields(a, app, ChangeFields(b, app, fs).value) == ChangeFields(b, app, ChangeFields(a, app, fs).value)
  {
    var f := NamedField(a.name, Entering(a.field, app, Preserve(a.preserveDefault)));
    IndexAfterAdd(fs, f, b.name);
    var i := FieldIndex(fs, b.name);
    if b.RemoveField? {
      assert RemoveAt(fs + [f], i) == RemoveAt(fs, i) + [f];
    } else {
      var g := NamedField(b.name, Entering(b.field, app, Preserve(b.preserveDefault)));
      assert (fs + [f])[i := g] == fs[i := g] + [f];
    }
  }

  lemma RemoveRemoveCommute(a: Operation, b: Operation, app: string, fs: Fields)
    requires a.RemoveField? && b.RemoveField? && a.name != b.name && HasField(fs, a.name) && HasField(fs, b.name)
    ensures HasField(RemoveAt(fs, FieldIndex(fs, a.name)), b.name) &&
      HasField(RemoveAt(fs, FieldIndex(fs, b.name)), a.name)
    ensures ChangeFields(a, app, ChangeFields(b, app, fs).value) == ChangeFields(b, app, ChangeFields(a, app, fs).value)
    decreases FieldIndex(fs, a.name) + 1
  {
    var i, j := FieldIndex(fs, a.name), FieldIndex(fs, b.name);
    if i > j {
      RemoveRemoveCommute(b, a, app, fs);
    } else {
      IndexAfterRemove(fs, i, b.name);
      IndexAfterRemove(fs, j, a.name);
      RemovesCommute(fs, i, j);
    }
  }

  lemma RemoveAlterCommute(a: Operation, b: Operation, app: string, fs: Fields)
    requires a.RemoveField? && b.AlterField? && a.name != b.name
    requires HasField(fs, a.name) && HasField(fs, b.name)
    ensures ChangeFields(b, app, ChangeFields(a, app, fs).value).Some? &&
      ChangeFields(a, app, ChangeFields(b, app, fs).value).Some?
    ensures ChangeFields(a, app, ChangeFields(b, app, fs).value) == ChangeFields(b, app, ChangeFields(a, app, fs).value)
  {
    var i, j := FieldIndex(fs, a.name), FieldIndex(fs, b.name);
    var g := NamedField(b.name, Entering(b.field, app, Preserve(b.preserveDefault)));
    IndexAfterRemove(fs, i, b.name);
    IndexAfterAlter(fs, j, g, a.name);
    AltersCommute(fs, i, j, g);
  }

  lemma AlterAlterCommute(a: Operation, b: Operation, app: string, fs: Fields)
    requires FieldChange(a) && FieldChange(b) && a.AlterField? && b.AlterField? && a.name != b.name
    requires HasField(fs, a.name) && HasField(fs, b.name)
    ensures ChangeFields(b, app, ChangeFields(a, app, fs).value).Some? &&
      ChangeFields(a, app, ChangeFields(b, app, fs).value).Some?
    ensures ChangeFields(a, app, ChangeFields(b, app, fs).value) == ChangeFields(b, app, ChangeFields(a, app, fs).value)
  {
    var i, j := FieldIndex(fs, a.name), FieldIndex(fs, b.name);
    var f := NamedField(a.name, Entering(a.field, app, Preserve(a.preserveDefault)));
    var g := NamedField(b.name, Entering(b.field, app, Preserve(b.preserveDefault)));
    IndexAfterAlter(fs, i, f, b.name);
    IndexAfterAlter(fs, j, g, a.name);
    assert fs[i := f][j := g] == fs[j := g][i := f];
  }

  /** Two additions in either order give the same fields. */
  lemma AddsCommute(fs: Fields, f: NamedField, g: NamedField)
    requires DistinctIgnoringCase(fs + [f] + [g])
    ensures SameFields(fs + [g] + [f], fs + [f] + [g])
  {
    var a, b := fs + [g] + [f], fs + [f] + [g];
    forall i | 0 <= i < |a|
      ensures HasField(b, a[i].name) && FieldEqual(a[i].field, b[FieldIndex(b, a[i].name)].field)
    {
      var j := if i < |fs| then i else if i == |fs| then |fs| + 1 else |fs|;
      assert b[j] == a[i];
      forall k | 0 <= k < j
        ensures b[k].name != b[j].name
      {
        assert !EqualFold(b[k].name, b[j].name);
      }
      FieldIndexIs(b, a[i].name, j);
    }
  }

  // --- Renaming a column ---

  lemma RenameInUnmentioned(xs: seq<string>, oldName: string, newName: string)
    requires oldName !in xs
    ensures RenameIn(xs, oldName, newName) == xs
  {}

  lemma RenameOptionsUnmentioned(o: Options, oldName: string, newName: string)
    requires !OptionsMention(o, oldName)
    ensures RenameInAll(o.uniqueTogether, oldName, newName) == o.uniqueTogether
    ensures RenameInIndexes(o.indexes, oldName, newName) == o.indexes
    ensures forall i :: 0 <= i < |o.constraints| ==>
      RenameColumn(o.constraints[i], oldName, newName) == o.constraints[i]
  {
    forall i | 0 <= i < |o.uniqueTogether|
      ensures RenameIn(o.uniqueTogether[i], oldName, newName) == o.uniqueTogether[i]
    {
      RenameInUnmentioned(o.uniqueTogether[i], oldName, newName);
    }
    forall i | 0 <= i < |o.indexes|
      ensures RenameInIndex(o.indexes[i], oldName, newName) == o.indexes[i]
    {
      assert !IndexMentions(o.indexes[i], oldName);
      assert RenameIndexFields(o.indexes[i].fields, oldName, newName) == o.indexes[i].fields;
    }
    forall i | 0 <= i < |o.constraints|
      ensures RenameColumn(o.constraints[i], oldName, newName) == o.constraints[i]
    {
      assert !ConstraintMentions(o.constraints[i], oldName);
    }
  }

  lemma RenameTargetsUnmentioned(m: ModelState, k: ModelKey, key: ModelKey, oldName: string, newName: string)
    requires !PointsAt(m, k, key, oldName)
    ensures forall i :: 0 <= i < |m.fields| ==>
      RenameTargetField(m.fields[i].field, k.app, key, oldName, newName) == m.fields[i].field
    ensures forall i :: 0 <= i < |m.options.constraints| ==>
        RenameTargetColumn(m.options.constraints[i], k.app, key, oldName, newName) == m.options.constraints[i]
  {
    forall i | 0 <= i < |m.fields|
      ensures RenameTargetField(m.fields[i].field, k.app, key, oldName, newName) == m.fields[i].field
    {
      assert !FieldPointsAt(m.fields[i].field, k.app, key, oldName);
    }
    forall i | 0 <= i < |m.options.constraints|
      ensures RenameTargetColumn(m.options.constraints[i], k.app, key, oldName, newName) == m.options.constraints[i]
    {
      assert !ConstraintPointsAt(m.options.constraints[i], k.app, key, oldName);
    }
  }

  function RenameOne(fs: Fields, i: nat, newName: string): Fields
    requires i < |fs|
  {
    fs[i := NamedField(newName, fs[i].field)]
  }

  /** Renaming a column that nothing else mentions only renames the field. */
  lemma RenameUnmentioned(m: ModelState, k: ModelKey, key: ModelKey, oldName: string, newName: string)
    requires !PointsAt(m, k, key, oldName) && (k == key ==> !OptionsMention(m.options, oldName))
    ensures k != key ==> RenamedIn(m, k, key, oldName, newName) == m
    ensures k == key && HasField(m.fields, oldName) ==>
        RenamedIn(m, k, key, oldName, newName) == m.(fields := RenameOne(m.fields, FieldIndex(m.fields, oldName),
          newName))
  {
    RenameTargetsUnmentioned(m, k, key, oldName, newName);
    if k == key {
      RenameOptionsUnmentioned(m.options, oldName, newName);
      assert RenamedConstraints(m.options.constraints, k.app, key, true, oldName, newName) == m.options.constraints;
    } else {
      assert RenamedConstraints(m.options.constraints, k.app, key, false, oldName, newName) == m.options.constraints;
      assert RenamedColumns(m.fields, k.app, key, false, oldName, newName) == m.fields;
    }
  }

  lemma RenamedAdd(fs: Fields, f: NamedField, app: string, key: ModelKey, here: bool, oldName: string, newName: string)
    requires f.field.foreignKey.None? && (here ==> HasField(fs, oldName))
    ensures RenamedColumns(fs + [f], app, key, here, oldName, newName)
      == RenamedColumns(fs, app, key, here, oldName, newName) + [f]
  {
    IndexAfterAdd(fs, f, oldName);
    hide FieldIndex;
  }

  lemma RenamedRemove(fs: Fields, i: nat, app: string, key: ModelKey, here: bool, oldName: string, newName: string)
    requires i < |fs| && (here ==> fs[i].name != oldName)
    ensures RenamedColumns(RemoveAt(fs, i), app, key, here, oldName, newName)
         == RemoveAt(RenamedColumns(fs, app, key, here, oldName, newName), i)
  {
    if here {
      IndexAfterRemove(fs, i, oldName);
    }
    hide FieldIndex;
    var rest, r := RemoveAt(fs, i), RenamedColumns(fs, app, key, here, oldName, newName);
    assert forall j :: 0 <= j < |rest| ==> rest[j] == fs[if j < i then j else j + 1];
    assert forall j :: 0 <= j < |rest| ==> RemoveAt(r, i)[j] == r[if j < i then j else j + 1];
  }

  lemma RenamedAlter(fs: Fields, i: nat, f: NamedField, app: string, key: ModelKey, here: bool, oldName: string,
      newName: string)
    requires i < |fs| && (here ==> fs[i].name != oldName) && fs[i].name == f.name && f.field.foreignKey.None?
    ensures RenamedColumns(fs[i := f], app, key, here, oldName, newName)
         == RenamedColumns(fs, app, key, here, oldName, newName)[i := f]
  {
    IndexAfterAlter(fs, i, f, oldName);
    hide FieldIndex;
  }

  /** A plain change to a column the rename does not touch can be made before or
      after it. */
  lemma ChangeAndRename(op: Operation, app: string, fs: Fields, where_: string, key: ModelKey, here: bool,
      oldName: string, newName: string)
    requires FieldChange(op) && NotRelational(op) &&
      (here ==> ColumnOf(op) != oldName && ColumnOf(op) != newName && HasField(fs, oldName))
    ensures ChangeFields(op, app, RenamedColumns(fs, where_, key, here, oldName, newName)).Some? <==>
      ChangeFields(op, app, fs).Some?
    ensures ChangeFields(op, app, fs).Some? ==>
        ChangeFields(op, app, RenamedColumns(fs, where_, key, here, oldName, newName)).value
        == RenamedColumns(ChangeFields(op, app, fs).value, where_, key, here, oldName, newName)
  {
    var name, i := op.name, FieldIndex(fs, op.name);
    if here {
      IndexAfterRename(fs, where_, key, oldName, newName, name);
    } else {
      IndexElsewhere(fs, where_, key, oldName, newName, name);
    }
    hide RenamedColumns, RemoveAt, FieldIndex;
    match op
    case AddField(_, _, field, preserve) =>
      RenamedAdd(fs, NamedField(name, Entering(field, app, Preserve(preserve))), where_, key, here, oldName, newName);
    case RemoveField(_, _) =>
      if i >= 0 {
        RenamedRemove(fs, i, where_, key, here, oldName, newName);
      }
    case AlterField(_, _, field, preserve) =>
      if i >= 0 {
        RenamedAlter(fs, i, NamedField(name, Entering(field, app, Preserve(preserve))), where_, key, here, oldName,
          newName);
      }
  }
}
