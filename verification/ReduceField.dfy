/** The reductions of field operations keep the state they lead to. */
module ReduceField {
  import opened Wrappers
  import opened Names
  import opened ModelStates
  import opened Operations
  import opened States
  import opened Reductions
  import opened FieldReductions

  /** Run both operations of a pair. */
  ghost predicate BothRun(o: Operation, x: Operation, app: string, s: State, s1: State, s2: State) {
    && Forwards(o, app, s) == Ok(s1) && Forwards(x, app, s1) == Ok(s2)
    && WellFormed(s) && WellFormed(s1) && WellFormed(s2)
  }

  lemma RunOne(op: Operation, app: string, s: State)
    ensures ForwardsAll([op], app, s) == Forwards(op, app, s)
  {
    assert [op][1..] == [];
    if Forwards(op, app, s).Ok? {
      assert ForwardsAll([op][1..], app, Forwards(op, app, s).value) == Forwards(op, app, s);
    }
  }

  lemma RunTwo(a: Operation, b: Operation, app: string, s: State)
    requires Forwards(a, app, s).Ok?
    ensures ForwardsAll([a, b], app, s) == Forwards(b, app, Forwards(a, app, s).value)
  {
    assert [a, b][1..] == [b];
    RunOne(b, app, Forwards(a, app, s).value);
  }

  /** The field of a pair on the same field is found at the same place. */
  lemma SameColumn(fs: Fields, i: nat, name: string)
    requires DistinctIgnoringCase(fs) && i < |fs| && HasField(fs, name) && EqualFold(fs[i].name, name)
    ensures FieldIndex(fs, name) == i && name == fs[i].name
  {
    SameNameSamePlace(fs, i, FieldIndex(fs, name));
  }

  function EnteringOf(op: Operation, app: string): NamedField
    requires op.AddField? || op.AlterField?
  {
    NamedField(op.name, Entering(op.field, app, Preserve(op.preserveDefault)))
  }

  /** Both changes to the same column of the same model. */
  lemma SamePlace(o: Operation, x: Operation, app: string, s: State, s1: State, s2: State)
    requires FieldChange(o) && FieldChange(x) && SameField(o, x) && BothRun(o, x, app, s, s1, s2)
    ensures var key := ModelKeyOf(o, app);
      && key == ModelKeyOf(x, app) && key in s && DistinctIgnoringCase(s[key].fields)
      && ChangeFields(o, app, s[key].fields).Some?
      && var fs := ChangeFields(o, app, s[key].fields).value;
      && s1 == SetFields(s, key, fs) && DistinctIgnoringCase(fs)
      && ChangeFields(x, app, fs).Some? && s2 == SetFields(s, key, ChangeFields(x, app, fs).value)
  {
    FieldForwards(o, app, s);
    FieldForwards(x, app, s1);
    var key := ModelKeyOf(o, app);
    assert s1[key].(fields := ChangeFields(x, app, s1[key].fields).value)
      == s[key].(fields := ChangeFields(x, app, s1[key].fields).value);
    hide Forwards, ChangeFields;
  }

  // --- On a field list ---

  lemma AddedThenChanged(o: Operation, x: Operation, app: string, fs: Fields)
    requires o.AddField? && FieldChange(x) && !x.AddField? && SameField(o, x) &&
      DistinctIgnoringCase(fs + [EnteringOf(o, app)])
    requires ChangeFields(x, app, fs + [EnteringOf(o, app)]).Some?
    ensures x.AlterField? ==> ChangeFields(x, app, fs + [EnteringOf(o, app)]) == Some(fs + [EnteringOf(x, app)])
    ensures x.RemoveField? ==> ChangeFields(x, app, fs + [EnteringOf(o, app)]) == Some(fs)
  {
    var all := fs + [EnteringOf(o, app)];
    SameColumn(all, |fs|, x.name);
    hide DistinctIgnoringCase, FieldIndex, Entering;
    assert RemoveAt(all, |fs|) == fs;
    if x.AlterField? {
      assert all[|fs| := EnteringOf(x, app)] == fs + [EnteringOf(x, app)];
    }
  }

  lemma AlteredThenChanged(o: Operation, x: Operation, app: string, fs: Fields)
    requires o.AlterField? && FieldChange(x) && !x.AddField? && SameField(o, x) && DistinctIgnoringCase(fs)
    requires ChangeFields(o, app, fs).Some? && ChangeFields(x, app, ChangeFields(o, app, fs).value).Some?
    ensures ChangeFields(x, app, fs) == ChangeFields(x, app, ChangeFields(o, app, fs).value)
  {
    var i, f := FieldIndex(fs, o.name), EnteringOf(o, app);
    IndexAfterAlter(fs, i, f, x.name);
    SameColumn(fs, i, x.name);
    hide DistinctIgnoringCase, FieldIndex, Entering;
    if x.AlterField? {
      assert fs[i := f][i := EnteringOf(x, app)] == fs[i := EnteringOf(x, app)];
    } else {
      assert RemoveAt(fs[i := f], i) == RemoveAt(fs, i);
    }
  }

  /** Whether the one-off default is kept is all that can differ. */
  lemma EnteringDiffers(fs: Fields, name: string, f: Field, app: string, p: bool, q: bool)
    ensures var a, b := fs + [NamedField(name, Entering(f, app, p))], fs + [NamedField(name, Entering(f, app, q))];
      NoDefaults(a) == NoDefaults(b) && (a == b <==> p == q || f.default.None?)
  {
    var a, b := fs + [NamedField(name, Entering(f, app, p))], fs + [NamedField(name, Entering(f, app, q))];
    assert a[|fs|].field == Entering(f, app, p) && b[|fs|].field == Entering(f, app, q);
    assert NoDefaults(a) == NoDefaults(b);
  }

  lemma LastingFields(s: State, key: ModelKey, a: Fields, b: Fields)
    requires key in s && NoDefaults(a) == NoDefaults(b)
    ensures Lasting(SetFields(s, key, a)) == Lasting(SetFields(s, key, b))
    ensures SetFields(s, key, a) == SetFields(s, key, b) <==> a == b
  {
    assert SetFields(s, key, a)[key].fields == a && SetFields(s, key, b)[key].fields == b;
  }

  // --- On a state ---

  /** Adding a field and altering it is adding the altered field. The one-off
      default may differ, exactly when one operation keeps it and the other not. */
  lemma AddThenAlter(o: Operation, x: Operation, app: string, s: State, s1: State, s2: State) returns (s3: State)
    requires o.AddField? && x.AlterField? && SameField(o, x) && BothRun(o, x, app, s, s1, s2)
    ensures Forwards(AddField(o.modelName, x.name, x.field, o.preserveDefault), app, s) == Ok(s3)
    ensures Lasting(s3) == Lasting(s2)
    ensures s3 == s2 <==> Preserve(o.preserveDefault) == Preserve(x.preserveDefault) || x.field.default.None?
  {
    SamePlace(o, x, app, s, s1, s2);
    var r := AddField(o.modelName, x.name, x.field, o.preserveDefault);
    FieldForwards(r, app, s);
    hide Forwards, WellFormed;
    var key := ModelKeyOf(o, app);
    var fs := s[key].fields;
    AddedThenChanged(o, x, app, fs);
    hide DistinctIgnoringCase, Lasting, SetFields, NoDefaults, Entering, SameField;
    EnteringDiffers(fs, x.name, x.field, app, Preserve(o.preserveDefault), Preserve(x.preserveDefault));
    LastingFields(s, key, fs + [EnteringOf(r, app)], fs + [EnteringOf(x, app)]);
    s3 := SetFields(s, key, fs + [EnteringOf(r, app)]);
  }

  /** Adding a field and removing it is nothing. */
  lemma AddThenRemove(o: Operation, x: Operation, app: string, s: State, s1: State, s2: State)
    requires o.AddField? && x.RemoveField? && SameField(o, x) && BothRun(o, x, app, s, s1, s2)
    ensures s2 == s
  {
    SamePlace(o, x, app, s, s1, s2);
    hide BothRun, SameField, FieldIndex;
    AddedThenChanged(o, x, app, s[ModelKeyOf(o, app)].fields);
    SetBack(s, ModelKeyOf(o, app));
  }

  lemma SetBack(s: State, key: ModelKey)
    requires key in s
    ensures SetFields(s, key, s[key].fields) == s
  {}

  /** A field that was altered before it is altered again or removed might as well
      not have been. */
  lemma AlterThenOther(o: Operation, x: Operation, app: string, s: State, s1: State, s2: State)
    requires o.AlterField? && (x.AlterField? || x.RemoveField?) && SameField(o, x) && BothRun(o, x, app, s, s1, s2)
    ensures Forwards(x, app, s) == Ok(s2)
  {
    SamePlace(o, x, app, s, s1, s2);
    FieldForwards(x, app, s);
    hide Forwards, WellFormed;
    AlteredThenChanged(o, x, app, s[ModelKeyOf(o, app)].fields);
  }

  lemma RemoveThenDelete(o: Operation, x: Operation, app: string, s: State, s1: State, s2: State)
    requires o.RemoveField? && x.DeleteModel? && EqualFold(x.name, o.modelName) && BothRun(o, x, app, s, s1, s2)
    ensures Forwards(x, app, s) == Ok(s2)
  {
    FieldForwards(o, app, s);
    hide WellFormed, ChangeFields;
    assert s1 - {KeyOf(app, x.name)} == s - {KeyOf(app, x.name)};
  }

  // --- With a rename ---

  lemma RenameForwards(op: Operation, app: string, s: State)
    requires op.RenameField?
    ensures var key := KeyOf(app, op.modelName);
      && (Forwards(op, app, s).Ok? <==> key in s && HasField(s[key].fields, op.oldName))
      && (Forwards(op, app, s).Ok? ==> Forwards(op, app, s).value == RenameFieldIn(s, key, op.oldName, op.newName))
  {}

  /** A rename only moves the name of the field when nothing else mentions it. */
  lemma RenameOnlyName(s: State, key: ModelKey, oldName: string, newName: string)
    requires key in s && Unmentioned(s, key, oldName) && HasField(s[key].fields, oldName)
    ensures RenameFieldIn(s, key, oldName, newName)
         == SetFields(s, key, RenameOne(s[key].fields, FieldIndex(s[key].fields, oldName), newName))
  {
    forall k | k in s
      ensures k != key ==> RenamedIn(s[k], k, key, oldName, newName) == s[k]
    {
      RenameUnmentioned(s[k], k, key, oldName, newName);
    }
    RenameUnmentioned(s[key], key, key, oldName, newName);
    hide RenamedIn, Unmentioned;
  }

  lemma StillUnmentioned(s: State, key: ModelKey, f: NamedField, column: string)
    requires key in s && Unmentioned(s, key, column) && f.field.foreignKey.None?
    ensures Unmentioned(SetFields(s, key, s[key].fields + [f]), key, column)
  {
    var s1 := SetFields(s, key, s[key].fields + [f]);
    assert s1[key].options == s[key].options;
    forall k | k in s1
      ensures !PointsAt(s1[k], k, key, column)
    {
      assert !PointsAt(s[k], k, key, column);
      if k == key {
        forall i | 0 <= i < |s1[k].fields|
          ensures !FieldPointsAt(s1[k].fields[i].field, k.app, key, column)
        {
          assert i < |s[k].fields| ==> s1[k].fields[i] == s[k].fields[i];
        }
      }
    }
  }

  /** The name of a field being added is mentioned nowhere. */
  lemma AddedUnmentioned(fs: Fields, f: NamedField, s: State, key: ModelKey)
    requires key in s && s[key].fields == fs && DistinctIgnoringCase(fs + [f]) && MentionsOnlyFields(s, key)
    requires f.field.foreignKey.None?
    ensures FieldIndex(fs + [f], f.name) == |fs| && Unmentioned(SetFields(s, key, fs + [f]), key, f.name)
  {
    FieldIndexIs(fs + [f], f.name, |fs|) by {
      assert forall j :: 0 <= j < |fs| ==> (fs + [f])[j].name != (fs + [f])[|fs|].name;
    }
    IndexAfterAdd(fs, f, f.name);
    StillUnmentioned(s, key, f, f.name);
  }

  lemma AddedRenamed(fs: Fields, f: NamedField, s: State, key: ModelKey, newName: string)
    requires key in s && s[key].fields == fs && DistinctIgnoringCase(fs + [f]) && MentionsOnlyFields(s, key)
    requires f.field.foreignKey.None?
    ensures RenameFieldIn(SetFields(s, key, fs + [f]), key, f.name, newName)
         == SetFields(s, key, fs + [NamedField(newName, f.field)])
  {
    AddedUnmentioned(fs, f, s, key);
    var s1 := SetFields(s, key, fs + [f]);
    assert s1[key].fields == fs + [f];
    SetTwice(s, key, fs + [f], fs + [NamedField(newName, f.field)]);
    hide Unmentioned, RenameFieldIn, DistinctIgnoringCase, FieldIndex, SetFields, MentionsOnlyFields;
    RenameOnlyName(s1, key, f.name, newName);
    assert RenameOne(fs + [f], |fs|, newName) == fs + [NamedField(newName, f.field)];
  }

  lemma AddRan(o: Operation, x: Operation, app: string, s: State, s1: State, s2: State)
    requires o.AddField? && BothRun(o, x, app, s, s1, s2)
    ensures var key := ModelKeyOf(o, app);
      && key in s && s1 == SetFields(s, key, s[key].fields + [EnteringOf(o, app)])
      && DistinctIgnoringCase(s[key].fields + [EnteringOf(o, app)]) && MentionsOnlyFields(s, key)
  {
    FieldForwards(o, app, s);
    WellFormedAt(s, ModelKeyOf(o, app));
    WellFormedAt(s1, ModelKeyOf(o, app));
  }

  lemma ThenRenamed(o: Operation, x: Operation, app: string, s: State, s1: State, s2: State)
    requires x.RenameField? && BothRun(o, x, app, s, s1, s2)
    ensures var key := KeyOf(app, x.modelName);
      && key in s1 && HasField(s1[key].fields, x.oldName) && s2 == RenameFieldIn(s1, key, x.oldName, x.newName)
      && DistinctIgnoringCase(s2[key].fields)
  {
    RenameForwards(x, app, s1);
    WellFormedAt(s2, KeyOf(app, x.modelName));
  }

  lemma AddRenameRun(o: Operation, x: Operation, app: string, s: State, s1: State, s2: State)
    requires o.AddField? && x.RenameField? && SameField(o, x) && BothRun(o, x, app, s, s1, s2)
    ensures var key, f := ModelKeyOf(o, app), EnteringOf(o, app);
      && key in s && s1 == SetFields(s, key, s[key].fields + [f]) && DistinctIgnoringCase(s[key].fields + [f])
      && MentionsOnlyFields(s, key) && x.oldName == o.name && s2 == RenameFieldIn(s1, key, x.oldName, x.newName)
  {
    hide BothRun, RenameFieldIn, MentionsOnlyFields;
    AddRan(o, x, app, s, s1, s2);
    ThenRenamed(o, x, app, s, s1, s2);
    var fs, f := s[ModelKeyOf(o, app)].fields, EnteringOf(o, app);
    SameColumn(fs + [f], |fs|, x.oldName);
  }

  lemma WellFormedAt(s: State, key: ModelKey)
    requires WellFormed(s) && key in s
    ensures DistinctIgnoringCase(s[key].fields) && MentionsOnlyFields(s, key)
  {}

  /** Adding a field and renaming it is adding it under the new name. */
  lemma AddThenRename(o: Operation, x: Operation, app: string, s: State, s1: State, s2: State)
    requires o.AddField? && NotRelational(o) && x.RenameField? && SameField(o, x) && BothRun(o, x, app, s, s1, s2)
    ensures Forwards(AddField(o.modelName, x.newName, o.field, o.preserveDefault), app, s) == Ok(s2)
  {
    var key, f := ModelKeyOf(o, app), EnteringOf(o, app);
    AddRenameRun(o, x, app, s, s1, s2);
    assert f.field.foreignKey.None?;
    hide BothRun, MentionsOnlyFields, RenameFieldIn, DistinctIgnoringCase;
    AddedRenamed(s[key].fields, f, s, key, x.newName);
    FieldForwards(AddField(o.modelName, x.newName, o.field, o.preserveDefault), app, s);
  }

  lemma SetTwice(s: State, key: ModelKey, a: Fields, b: Fields)
    requires key in s
    ensures SetFields(SetFields(s, key, a), key, b) == SetFields(s, key, b)
  {}

  /** A rename of a column of key2, once the model at key has other fields. */
  lemma RenameAfterSet(s: State, key: ModelKey, fs: Fields, key2: ModelKey, oldName: string, newName: string)
    requires key in s
    ensures RenameFieldIn(SetFields(s, key, fs), key2, oldName, newName)
         == SetFields(RenameFieldIn(s, key2, oldName, newName), key,
           RenamedColumns(fs, key.app, key2, key == key2, oldName, newName))
  {
    hide RenamedColumns, RenamedConstraints, RenameInAll, RenameInIndexes;
  }

  lemma RenamedName(fs: Fields, app: string, key: ModelKey, oldName: string, newName: string)
    requires HasField(fs, oldName) && DistinctIgnoringCase(RenamedColumns(fs, app, key, true, oldName, newName))
    ensures FieldIndex(RenamedColumns(fs, app, key, true, oldName, newName), newName) == FieldIndex(fs, oldName)
  {
    var r, i := RenamedColumns(fs, app, key, true, oldName, newName), FieldIndex(fs, oldName);
    assert forall j :: 0 <= j < i ==> r[j].name != r[i].name;
    FieldIndexIs(r, newName, i);
  }

  lemma SameNamesDistinct(a: Fields, b: Fields)
    requires |a| == |b| && (forall i :: 0 <= i < |a| ==> a[i].name == b[i].name) && DistinctIgnoringCase(a)
    ensures DistinctIgnoringCase(b)
  {}

  lemma AlteredRenamed(fs: Fields, i: nat, f: NamedField, app: string, key: ModelKey, oldName: string, newName: string)
    requires FieldIndex(fs, oldName) == i && f.name == oldName && f.field.foreignKey.None?
    requires DistinctIgnoringCase(RenamedColumns(fs[i := f], app, key, true, oldName, newName))
    ensures var r := RenamedColumns(fs, app, key, true, oldName, newName);
      && FieldIndex(r, newName) == i
      && RenamedColumns(fs[i := f], app, key, true, oldName, newName) == r[i := NamedField(newName, f.field)]
  {
    var r, r1 := RenamedColumns(fs, app, key, true, oldName, newName),
      RenamedColumns(fs[i := f], app, key, true, oldName, newName);
    IndexAfterAlter(fs, i, f, oldName);
    SameNamesDistinct(r1, r);
    RenamedName(fs, app, key, oldName, newName);
    hide FieldIndex, DistinctIgnoringCase;
    assert r1 == r[i := NamedField(newName, f.field)];
  }

  lemma AlterRenameRun(o: Operation, x: Operation, app: string, s: State, s1: State, s2: State)
    requires o.AlterField? && x.RenameField? && SameField(o, x) && BothRun(o, x, app, s, s1, s2)
    ensures var key, f := ModelKeyOf(o, app), EnteringOf(o, app);
      && key in s && HasField(s[key].fields, o.name)
      && var i := FieldIndex(s[key].fields, o.name);
      && s1 == SetFields(s, key, s[key].fields[i := f]) && x.oldName == o.name
      && s2 == RenameFieldIn(s1, key, o.name, x.newName) && DistinctIgnoringCase(s2[key].fields)
  {
    var key, f := ModelKeyOf(o, app), EnteringOf(o, app);
    FieldForwards(o, app, s);
    RenameForwards(x, app, s1);
    var fs := s[key].fields;
    var i := FieldIndex(fs, o.name);
    assert s1[key].fields == fs[i := f];
    WellFormedAt(s, key);
    WellFormedAt(s2, key);
    IndexAfterAlter(fs, i, f, x.oldName);
    SameColumn(fs, i, x.oldName);
  }

  /** Altering a field and renaming it is renaming it and altering it. */
  lemma AlterThenRename(o: Operation, x: Operation, app: string, s: State, s1: State, s2: State)
    requires o.AlterField? && NotRelational(o) && x.RenameField? && SameField(o, x) && BothRun(o, x, app, s, s1, s2)
    ensures ForwardsAll([x, AlterField(o.modelName, x.newName, o.field, o.preserveDefault)], app, s) == Ok(s2)
  {
    AlterRenameRun(o, x, app, s, s1, s2);
    hide BothRun, DistinctIgnoringCase;
    var key, f := ModelKeyOf(o, app), EnteringOf(o, app);
    var fs := s[key].fields;
    var i := FieldIndex(fs, o.name);
    RenameAfterSet(s, key, fs[i := f], key, o.name, x.newName);
    AlteredRenamed(fs, i, f, key.app, key, o.name, x.newName);
    var r := AlterField(o.modelName, x.newName, o.field, o.preserveDefault);
    RenameForwards(x, app, s);
    var t := RenameFieldIn(s, key, o.name, x.newName);
    assert t[key].fields == RenamedColumns(fs, key.app, key, true, o.name, x.newName);
    hide RenameFieldIn, RenamedColumns;
    FieldForwards(r, app, t);
    RunTwo(x, r, app, s);
  }

  // --- Two renames of the same column ---

  lemma RenameInTwice(xs: seq<string>, a: string, b: string, c: string)
    requires b !in xs || a == b
    ensures RenameIn(RenameIn(xs, a, b), b, c) == RenameIn(xs, a, c)
  {}

  lemma RenameOptionsTwice(o: Options, a: string, b: string, c: string)
    requires !OptionsMention(o, b) || a == b
    ensures RenameInAll(RenameInAll(o.uniqueTogether, a, b), b, c) == RenameInAll(o.uniqueTogether, a, c)
    ensures RenameInIndexes(RenameInIndexes(o.indexes, a, b), b, c) == RenameInIndexes(o.indexes, a, c)
    ensures forall i :: 0 <= i < |o.constraints| ==>
        RenameColumn(RenameColumn(o.constraints[i], a, b), b, c) == RenameColumn(o.constraints[i], a, c)
  {
    forall i | 0 <= i < |o.uniqueTogether|
      ensures RenameIn(RenameIn(o.uniqueTogether[i], a, b), b, c) == RenameIn(o.uniqueTogether[i], a, c)
    {
      RenameInTwice(o.uniqueTogether[i], a, b, c);
    }
    forall i | 0 <= i < |o.indexes|
      ensures RenameInIndex(RenameInIndex(o.indexes[i], a, b), b, c) == RenameInIndex(o.indexes[i], a, c)
    {
      RenameIndexTwice(o.indexes[i], a, b, c);
    }
    forall i | 0 <= i < |o.constraints|
      ensures RenameColumn(RenameColumn(o.constraints[i], a, b), b, c) == RenameColumn(o.constraints[i], a, c)
    {
      RenameConstraintTwice(o.constraints[i], a, b, c);
    }
  }

  lemma RenameIndexTwice(ix: Index, a: string, b: string, c: string)
    requires !IndexMentions(ix, b) || a == b
    ensures RenameInIndex(RenameInIndex(ix, a, b), b, c) == RenameInIndex(ix, a, c)
  {
    RenameInTwice(ix.include_, a, b, c);
    assert RenameIndexFields(RenameIndexFields(ix.fields, a, b), b, c) == RenameIndexFields(ix.fields, a, c);
  }

  lemma RenameConstraintTwice(con: Constraint, a: string, b: string, c: string)
    requires !ConstraintMentions(con, b) || a == b
    ensures RenameColumn(RenameColumn(con, a, b), b, c) == RenameColumn(con, a, c)
  {
    match con
    case CheckConstraint(_, _, _) =>
    case UniqueConstraint(_, fields, _, _, include_, _, _) =>
      RenameInTwice(fields, a, b, c);
      RenameInTwice(include_, a, b, c);
    case ForeignKeyConstraint(_, fields, _, _, _, _) =>
      RenameInTwice(fields, a, b, c);
  }

  lemma RenameTargetTwice(con: Constraint, app: string, key: ModelKey, a: string, b: string, c: string)
    requires !ConstraintPointsAt(con, app, key, b) || a == b
    ensures RenameTargetColumn(RenameTargetColumn(con, app, key, a, b), app, key, b, c)
      == RenameTargetColumn(con, app, key, a, c)
  {
    if con.ForeignKeyConstraint? && ResolveRelation(con.to, app) == key {
      RenameInTwice(con.toFields, a, b, c);
    }
  }

  lemma RenameColumnsTwice(fs: Fields, app: string, key: ModelKey, here: bool, a: string, b: string, c: string)
    requires here ==> HasField(fs, a) && (!HasField(fs, b) || a == b)
    requires (forall i :: 0 <= i < |fs| ==> !FieldPointsAt(fs[i].field, app, key, b)) || a == b
    ensures RenamedColumns(RenamedColumns(fs, app, key, here, a, b), app, key, here, b, c)
      == RenamedColumns(fs, app, key, here, a, c)
  {
    var r := RenamedColumns(fs, app, key, here, a, b);
    if here {
      FieldIndexIs(r, b, FieldIndex(fs, a));
    }
    hide FieldIndex;
    forall i | 0 <= i < |fs|
      ensures RenameTargetField(RenameTargetField(fs[i].field, app, key, a, b), app, key, b, c)
        == RenameTargetField(fs[i].field, app, key, a, c)
    {}
  }

  /** A column renamed twice is renamed once, when nothing had the name between. */
  lemma RenamedTwice(m: ModelState, k: ModelKey, key: ModelKey, a: string, b: string, c: string)
    requires a == b || (!PointsAt(m, k, key, b) &&
      (k == key ==> !OptionsMention(m.options, b) && !HasField(m.fields, b)))
    requires k == key ==> HasField(m.fields, a)
    ensures RenamedIn(RenamedIn(m, k, key, a, b), k, key, b, c) == RenamedIn(m, k, key, a, c)
  {
    RenameColumnsTwice(m.fields, k.app, key, k == key, a, b, c);
    var here, cs := k == key, m.options.constraints;
    if here {
      RenameOptionsTwice(m.options, a, b, c);
    }
    hide RenamedColumns, OptionsMention, FieldIndex, RenameInAll, RenameInIndexes;
    forall i | 0 <= i < |cs|
      ensures RenamedConstraints(RenamedConstraints(cs, k.app, key, here, a, b), k.app, key, here, b, c)[i]
           == RenamedConstraints(cs, k.app, key, here, a, c)[i]
    {
      BothRenamesTwice(cs[i], k.app, key, here, a, b, c);
    }
    assert RenamedConstraints(RenamedConstraints(cs, k.app, key, here, a, b), k.app, key, here, b, c)
        == RenamedConstraints(cs, k.app, key, here, a, c);
  }

  function RenamedConstraint(con: Constraint, app: string, key: ModelKey, here: bool, a: string,
      b: string): Constraint {
    RenameTargetColumn(if here then RenameColumn(con, a, b) else con, app, key, a, b)
  }

  /** The columns of a constraint and the columns it points at are renamed apart. */
  lemma RenamesApart(con: Constraint, app: string, key: ModelKey, a: string, b: string, c: string, d: string)
    ensures RenameColumn(RenameTargetColumn(con, app, key, a, b), c, d)
      == RenameTargetColumn(RenameColumn(con, c, d), app, key, a, b)
  {}

  lemma BothRenamesTwice(con: Constraint, app: string, key: ModelKey, here: bool, a: string, b: string, c: string)
    requires !ConstraintPointsAt(con, app, key, b) || a == b
    requires here ==> RenameColumn(RenameColumn(con, a, b), b, c) == RenameColumn(con, a, c)
    ensures RenamedConstraint(RenamedConstraint(con, app, key, here, a, b), app, key, here, b, c)
      == RenamedConstraint(con, app, key, here, a, c)
  {
    if here {
      RenamesApart(RenameColumn(con, a, b), app, key, a, b, b, c);
      RenameTargetTwice(RenameColumn(con, a, c), app, key, a, b, c);
    } else {
      RenameTargetTwice(con, app, key, a, b, c);
    }
  }

  lemma RenameFieldTwice(s: State, key: ModelKey, a: string, b: string, c: string)
    requires key in s && HasField(s[key].fields, a)
    requires a == b || (Unmentioned(s, key, b) && !HasField(s[key].fields, b))
    ensures RenameFieldIn(RenameFieldIn(s, key, a, b), key, b, c) == RenameFieldIn(s, key, a, c)
  {
    forall k | k in s
      ensures RenamedIn(RenamedIn(s[k], k, key, a, b), k, key, b, c) == RenamedIn(s[k], k, key, a, c)
    {
      RenamedTwice(s[k], k, key, a, b, c);
    }
  }

  /** After a rename to a name that is distinct, no other field had it. */
  lemma NewNameWasFree(fs: Fields, app: string, key: ModelKey, oldName: string, newName: string)
    requires HasField(fs, oldName) && oldName != newName
    requires DistinctIgnoringCase(RenamedColumns(fs, app, key, true, oldName, newName))
    ensures !HasField(fs, newName)
  {
    var r, i := RenamedColumns(fs, app, key, true, oldName, newName), FieldIndex(fs, oldName);
    assert r[i].name == newName;
    forall j | 0 <= j < |fs|
      ensures fs[j].name != newName
    {
      if j != i {
        assert r[j].name == fs[j].name && !EqualFold(r[if i < j then i else j].name, r[if i < j then j else i].name);
      }
    }
  }

  lemma RenameRenameRun(o: Operation, x: Operation, app: string, s: State, s1: State, s2: State)
    requires o.RenameField? && x.RenameField? && EqualFold(o.modelName, x.modelName) && EqualFold(o.newName, x.oldName)
    requires BothRun(o, x, app, s, s1, s2)
    ensures var key := KeyOf(app, o.modelName);
      && key in s && HasField(s[key].fields, o.oldName) && x.oldName == o.newName
      && s1 == RenameFieldIn(s, key, o.oldName, o.newName) && s2 == RenameFieldIn(s1, key, o.newName, x.newName)
      && (o.oldName == o.newName || (Unmentioned(s, key, o.newName) && !HasField(s[key].fields, o.newName)))
  {
    var key := KeyOf(app, o.modelName);
    RenameForwards(o, app, s);
    RenameForwards(x, app, s1);
    WellFormedAt(s, key);
    WellFormedAt(s1, key);
    var fs := s[key].fields;
    var r := RenamedColumns(fs, key.app, key, true, o.oldName, o.newName);
    assert s1[key].fields == r;
    RenamedName(fs, key.app, key, o.oldName, o.newName);
    SameColumn(r, FieldIndex(fs, o.oldName), x.oldName);
    if o.oldName != o.newName {
      NewNameWasFree(fs, key.app, key, o.oldName, o.newName);
    }
  }

  /** Renaming a field twice is renaming it once. */
  lemma RenameThenRename(o: Operation, x: Operation, app: string, s: State, s1: State, s2: State)
    requires o.RenameField? && x.RenameField? && EqualFold(o.modelName, x.modelName) && EqualFold(o.newName, x.oldName)
    requires BothRun(o, x, app, s, s1, s2)
    ensures Forwards(RenameField(o.modelName, o.oldName, x.newName), app, s) == Ok(s2)
  {
    RenameRenameRun(o, x, app, s, s1, s2);
    hide BothRun, Unmentioned;
    RenameFieldTwice(s, KeyOf(app, o.modelName), o.oldName, o.newName, x.newName);
    RenameForwards(RenameField(o.modelName, o.oldName, x.newName), app, s);
  }

  // --- Every replacement ---

  /** The pair of operations for which the one-off default may come out
      differently. */
  predicate DefaultDiffers(o: Operation, x: Operation) {
    o.AddField? && x.AlterField? && Preserve(o.preserveDefault) != Preserve(x.preserveDefault) && x.field.default.Some?
  }

  /** A pair of field operations that reduces to others can be replaced by them:
      they lead to the same state, or to one that differs in a one-off default. */
  lemma ReplaceKeepsState(o: Operation, x: Operation, app: string, s: State, s1: State, s2: State) returns (s3: State)
    requires FieldOf(o).Some? && (FieldOf(x).Some? || x.DeleteModel?) && NotRelational(o)
    requires BothRun(o, x, app, s, s1, s2) && ReduceFieldOp(o, x, app).Replace?
    ensures ForwardsAll(ReduceFieldOp(o, x, app).ops, app, s) == Ok(s3) && Lasting(s3) == Lasting(s2)
    ensures SameField(o, x) && DefaultDiffers(o, x) <==> s3 != s2
  {
    s3 := s2;
    hide BothRun;
    match o
    case AddField(model, _, _, preserve) =>
      if x.AlterField? {
        s3 := AddThenAlter(o, x, app, s, s1, s2);
        RunOne(AddField(model, x.name, x.field, preserve), app, s);
      } else if x.RemoveField? {
        AddThenRemove(o, x, app, s, s1, s2);
      } else {
        AddThenRename(o, x, app, s, s1, s2);
        RunOne(AddField(model, x.newName, o.field, preserve), app, s);
      }
    case RemoveField(_, _) =>
      RemoveThenDelete(o, x, app, s, s1, s2);
      RunOne(x, app, s);
    case AlterField(_, _, _, _) =>
      if x.RenameField? {
        AlterThenRename(o, x, app, s, s1, s2);
      } else {
        AlterThenOther(o, x, app, s, s1, s2);
        RunOne(x, app, s);
      }
    case RenameField(model, oldName, _) =>
      RenameThenRename(o, x, app, s, s1, s2);
      RunOne(RenameField(model, oldName, x.newName), app, s);
  }

  // --- When a pair is replaced ---

  /** The names meet without regard to case. */
  predicate Meets(model: string, name: string, model': string, name': string) {
    EqualFold(model, model') && EqualFold(name, name')
  }

  /** A field operation and the one after it are replaced exactly when the second is
      elidable, deletes the model of a removed field, or is about the very field the
      first leaves behind: by its new name, if that is a rename. */
  lemma ReplacedExactly(op: Operation, other: Operation, app: string)
    requires FieldOf(op).Some?
    ensures ReduceFieldOp(op, other, app).Replace? <==>
      || Elidable(other)
      || (op.RemoveField? && other.DeleteModel? && EqualFold(other.name, op.modelName))
      || ((op.AddField? || op.AlterField?) && (other.AlterField? || other.RemoveField?) &&
            Meets(op.modelName, op.name, other.modelName, other.name))
      || ((op.AddField? || op.AlterField?) && other.RenameField? &&
            Meets(op.modelName, op.name, other.modelName, other.oldName))
      || (op.RenameField? && other.RenameField? && Meets(op.modelName, op.newName, other.modelName, other.oldName))
    ensures ReduceFieldOp(op, other, app).Through? <==>
      && !ReduceFieldOp(op, other, app).Replace?
      && !ReferencesField(other, op.modelName, FieldOf(op).value.1, app)
      && (op.RenameField? ==> !ReferencesField(other, op.modelName, op.newName, app))
  {
    hide ReferencesField, EqualFold;
  }
}
