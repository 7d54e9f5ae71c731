/** A field operation and one it reduces through can run in either order. */
module ReduceThrough {
  import opened Wrappers
  import opened Names
  import opened ModelStates
  import opened Operations
  import opened States
  import opened Reductions
  import opened FieldReductions
  import opened ReduceField
  import opened ReduceAcross

  lemma SameFieldsRefl(fs: Fields)
    requires DistinctIgnoringCase(fs)
    ensures SameFields(fs, fs)
  {
    forall i | 0 <= i < |fs|
      ensures FieldIndex(fs, fs[i].name) == i
    {
      assert forall j :: 0 <= j < i ==> !EqualFold(fs[j].name, fs[i].name);
      FieldIndexIs(fs, fs[i].name, i);
    }
  }

  lemma SameStateRefl(s: State)
    requires WellFormed(s)
    ensures SameState(s, s)
  {
    forall k | k in s
      ensures SameModel(s[k], s[k])
    {
      WellFormedAt(s, k);
      SameFieldsRefl(s[k].fields);
    }
  }

  lemma SetFieldsSame(s: State, key: ModelKey, a: Fields, b: Fields)
    requires key in s && SameFields(a, b) && WellFormed(SetFields(s, key, b))
    ensures SameState(SetFields(s, key, a), SetFields(s, key, b))
  {
    var s2 := SetFields(s, key, b);
    SameStateRefl(s2);
    forall k | k in s2
      ensures SameModel(SetFields(s, key, a)[k], s2[k])
    {
      assert k != key ==> SetFields(s, key, a)[k] == s2[k] && SameModel(s2[k], s2[k]);
    }
  }

  lemma SetFieldsApart(s: State, k1: ModelKey, a: Fields, k2: ModelKey, b: Fields)
    requires k1 in s && k2 in s && k1 != k2
    ensures SetFields(SetFields(s, k1, a), k2, b) == SetFields(SetFields(s, k2, b), k1, a)
  {}

  // --- Two field changes ---

  lemma ChangesOnFields(o: Operation, x: Operation, app: string, fs: Fields) returns (r: Fields)
    requires FieldChange(o) && FieldChange(x) && ColumnOf(o) != ColumnOf(x)
    requires ChangeFields(o, app, fs).Some? && ChangeFields(x, app, ChangeFields(o, app, fs).value).Some?
    requires DistinctIgnoringCase(ChangeFields(x, app, ChangeFields(o, app, fs).value).value)
    ensures ChangeFields(x, app, fs).Some? && ChangeFields(o, app, ChangeFields(x, app, fs).value) == Some(r)
    ensures SameFields(r, ChangeFields(x, app, ChangeFields(o, app, fs).value).value)
  {
    if o.AddField? && x.AddField? {
      AddsCommute(fs, EnteringOf(o, app), EnteringOf(x, app));
      r := fs + [EnteringOf(x, app)] + [EnteringOf(o, app)];
    } else {
      ChangesCommute(o, x, app, fs);
      r := ChangeFields(x, app, ChangeFields(o, app, fs).value).value;
      SameFieldsRefl(r);
    }
  }

  /** Two field changes, run one after the other on the state. */
  lemma ChangesRun(o: Operation, x: Operation, app: string, s: State, s1: State, s2: State)
    requires FieldChange(o) && FieldChange(x) && BothRun(o, x, app, s, s1, s2)
    ensures var k1, k2 := ModelKeyOf(o, app), ModelKeyOf(x, app);
      && k1 in s && k2 in s && ChangeFields(o, app, s[k1].fields).Some?
      && s1 == SetFields(s, k1, ChangeFields(o, app, s[k1].fields).value)
      && ChangeFields(x, app, s1[k2].fields).Some? && s2 == SetFields(s1, k2, ChangeFields(x, app, s1[k2].fields).value)
  {
    FieldForwards(o, app, s);
    FieldForwards(x, app, s1);
  }

  lemma ChangeThroughChange(o: Operation, x: Operation, app: string, s: State, s1: State, s2: State) returns (s3: State)
    requires FieldChange(o) && FieldChange(x) && BothRun(o, x, app, s, s1, s2)
    requires ModelKeyOf(o, app) == ModelKeyOf(x, app) ==> ColumnOf(o) != ColumnOf(x)
    ensures ForwardsAll([x, o], app, s) == Ok(s3) && SameState(s3, s2)
  {
    var k1, k2 := ModelKeyOf(o, app), ModelKeyOf(x, app);
    ChangesRun(o, x, app, s, s1, s2);
    var f1 := ChangeFields(o, app, s[k1].fields).value;
    var f2 := ChangeFields(x, app, s1[k2].fields).value;
    var t := s;
    if k1 != k2 {
      t, s3 := SetFields(s, k2, f2), s2;
      SetFieldsApart(s, k1, f1, k2, f2);
      SameStateRefl(s2);
    } else {
      SetTwice(s, k1, f1, f2);
      WellFormedAt(s2, k1);
      var r := ChangesOnFields(o, x, app, s[k1].fields);
      t, s3 := SetFields(s, k1, ChangeFields(x, app, s[k1].fields).value), SetFields(s, k1, r);
      SetTwice(s, k1, ChangeFields(x, app, s[k1].fields).value, r);
      SetFieldsSame(s, k1, r, f2);
    }
    hide BothRun, SameState;
    FieldForwards(x, app, s);
    FieldForwards(o, app, t);
    RunTwo(x, o, app, s);
  }

  // --- A field change and a rename ---

  /** Neither name of the rename is the column changed. */
  ghost predicate Apart(op: Operation, rename: Operation, app: string)
    requires FieldChange(op) && rename.RenameField?
  {
    ModelKeyOf(op, app) == KeyOf(app, rename.modelName) ==>
      ColumnOf(op) != rename.oldName && ColumnOf(op) != rename.newName
  }

  /** The change and the rename, in either order, from a state both can run on. */
  lemma RenameApart(op: Operation, rename: Operation, app: string, s: State)
    requires FieldChange(op) && NotRelational(op) && rename.RenameField? && Apart(op, rename, app)
    requires var k1, k2 := ModelKeyOf(op, app), KeyOf(app, rename.modelName);
      k1 in s && k2 in s && HasField(s[k2].fields, rename.oldName)
    ensures var k1, k2 := ModelKeyOf(op, app), KeyOf(app, rename.modelName);
      var t := RenameFieldIn(s, k2, rename.oldName, rename.newName);
      && (ChangeFields(op, app, s[k1].fields).Some? <==> ChangeFields(op, app, t[k1].fields).Some?)
      && (ChangeFields(op, app, s[k1].fields).Some? ==>
            SetFields(t, k1, ChangeFields(op, app, t[k1].fields).value)
            == RenameFieldIn(SetFields(s, k1, ChangeFields(op, app, s[k1].fields).value), k2, rename.oldName,
              rename.newName))
  {
    var k1, k2, a, b := ModelKeyOf(op, app), KeyOf(app, rename.modelName), rename.oldName, rename.newName;
    var fs := s[k1].fields;
    ChangeAndRename(op, app, fs, k1.app, k2, k1 == k2, a, b);
    assert RenameFieldIn(s, k2, a, b)[k1].fields == RenamedColumns(fs, k1.app, k2, k1 == k2, a, b);
    hide RenameFieldIn, RenamedColumns, FieldIndex;
    if ChangeFields(op, app, fs).Some? {
      RenameAfterSet(s, k1, ChangeFields(op, app, fs).value, k2, a, b);
    }
  }

  lemma ChangeThroughRename(o: Operation, x: Operation, app: string, s: State, s1: State, s2: State)
    requires FieldChange(o) && NotRelational(o) && x.RenameField? && Apart(o, x, app) && BothRun(o, x, app, s, s1, s2)
    ensures ForwardsAll([x, o], app, s) == Ok(s2)
  {
    var k1, k2 := ModelKeyOf(o, app), KeyOf(app, x.modelName);
    FieldForwards(o, app, s);
    RenameForwards(x, app, s1);
    RenameForwards(x, app, s);
    if k1 == k2 {
      IndexAfterChange(o, app, s[k1].fields, x.oldName);
    }
    hide BothRun;
    assert HasField(s[k2].fields, x.oldName);
    RenameApart(o, x, app, s);
    var t := RenameFieldIn(s, k2, x.oldName, x.newName);
    FieldForwards(o, app, t);
    RunTwo(x, o, app, s);
  }

  lemma RenameThroughChange(o: Operation, x: Operation, app: string, s: State, s1: State, s2: State)
    requires FieldChange(x) && NotRelational(x) && o.RenameField? && Apart(x, o, app) && BothRun(o, x, app, s, s1, s2)
    ensures ForwardsAll([x, o], app, s) == Ok(s2)
  {
    var k1, k2 := ModelKeyOf(x, app), KeyOf(app, o.modelName);
    RenameForwards(o, app, s);
    FieldForwards(x, app, s1);
    FieldForwards(x, app, s);
    RenameApart(x, o, app, s);
    var t := SetFields(s, k1, ChangeFields(x, app, s[k1].fields).value);
    if k1 == k2 {
      IndexAfterChange(x, app, s[k1].fields, o.oldName);
    }
    hide BothRun;
    RenameForwards(o, app, t);
    RunTwo(x, o, app, s);
  }

  // --- Two renames ---

  /** Neither rename touches a name of the other. */
  predicate NamesApart(a: string, b: string, c: string, d: string) {
    a != c && a != d && b != c && b != d
  }

  lemma RenameInApart(xs: seq<string>, a: string, b: string, c: string, d: string)
    requires NamesApart(a, b, c, d)
    ensures RenameIn(RenameIn(xs, a, b), c, d) == RenameIn(RenameIn(xs, c, d), a, b)
  {}

  lemma RenameIndexApart(ix: Index, a: string, b: string, c: string, d: string)
    requires NamesApart(a, b, c, d)
    ensures RenameInIndex(RenameInIndex(ix, a, b), c, d) == RenameInIndex(RenameInIndex(ix, c, d), a, b)
  {
    RenameInApart(ix.include_, a, b, c, d);
    assert RenameIndexFields(RenameIndexFields(ix.fields, a, b), c, d)
      == RenameIndexFields(RenameIndexFields(ix.fields, c, d), a, b);
  }

  lemma RenameColumnApart(con: Constraint, a: string, b: string, c: string, d: string)
    requires NamesApart(a, b, c, d)
    ensures RenameColumn(RenameColumn(con, a, b), c, d) == RenameColumn(RenameColumn(con, c, d), a, b)
  {
    match con
    case CheckConstraint(_, _, _) =>
    case UniqueConstraint(_, fields, _, _, include_, _, _) =>
      RenameInApart(fields, a, b, c, d);
      RenameInApart(include_, a, b, c, d);
    case ForeignKeyConstraint(_, fields, _, _, _, _) =>
      RenameInApart(fields, a, b, c, d);
  }

  lemma RenameTargetApart(con: Constraint, app: string, k1: ModelKey, k2: ModelKey, a: string, b: string, c: string,
      d: string)
    requires k1 == k2 ==> NamesApart(a, b, c, d)
    ensures RenameTargetColumn(RenameTargetColumn(con, app, k1, a, b), app, k2, c, d)
         == RenameTargetColumn(RenameTargetColumn(con, app, k2, c, d), app, k1, a, b)
  {
    if con.ForeignKeyConstraint? && k1 == k2 {
      RenameInApart(con.toFields, a, b, c, d);
    }
  }

  lemma RenameConstraintApart(con: Constraint, app: string, k1: ModelKey, h1: bool, a: string, b: string, k2: ModelKey,
      h2: bool, c: string, d: string)
    requires (k1 == k2 ==> NamesApart(a, b, c, d)) && (h1 && h2 ==> k1 == k2)
    ensures RenamedConstraint(RenamedConstraint(con, app, k1, h1, a, b), app, k2, h2, c, d)
         == RenamedConstraint(RenamedConstraint(con, app, k2, h2, c, d), app, k1, h1, a, b)
  {
    var con1 := if h1 then RenameColumn(con, a, b) else con;
    var con2 := if h2 then RenameColumn(con, c, d) else con;
    var both := if h2 then RenameColumn(con1, c, d) else con1;
    assert both == if h1 then RenameColumn(con2, a, b) else con2 by {
      if h1 && h2 {
        RenameColumnApart(con, a, b, c, d);
      }
    }
    RenamesApart(con1, app, k1, a, b, c, d);
    RenamesApart(con2, app, k2, c, d, a, b);
    RenameTargetApart(both, app, k1, k2, a, b, c, d);
  }

  lemma RenameColumnsApart(fs: Fields, app: string, k1: ModelKey, h1: bool, a: string, b: string, k2: ModelKey,
      h2: bool, c: string, d: string)
    requires (k1 == k2 ==> NamesApart(a, b, c, d)) && (h1 && h2 ==> k1 == k2)
    ensures RenamedColumns(RenamedColumns(fs, app, k1, h1, a, b), app, k2, h2, c, d)
         == RenamedColumns(RenamedColumns(fs, app, k2, h2, c, d), app, k1, h1, a, b)
  {
    var r1, r2 := RenamedColumns(fs, app, k1, h1, a, b), RenamedColumns(fs, app, k2, h2, c, d);
    if h1 {
      IndexAfterRename2(fs, app, k2, h2, c, d, a);
    }
    if h2 {
      IndexAfterRename2(fs, app, k1, h1, a, b, c);
    }
    hide FieldIndex;
    forall i | 0 <= i < |fs|
      ensures RenameTargetField(RenameTargetField(fs[i].field, app, k1, a, b), app, k2, c, d)
           == RenameTargetField(RenameTargetField(fs[i].field, app, k2, c, d), app, k1, a, b)
    {}
    assert h1 && h2 ==> FieldIndex(fs, a) != FieldIndex(fs, c) || FieldIndex(fs, a) < 0 by {
      PlacesApart(fs, a, c);
    }
  }

  lemma PlacesApart(fs: Fields, a: string, c: string)
    ensures a != c && FieldIndex(fs, a) >= 0 ==> FieldIndex(fs, a) != FieldIndex(fs, c)
  {}

  lemma IndexAfterRename2(fs: Fields, app: string, key: ModelKey, here: bool, c: string, d: string, name: string)
    requires here ==> name != c && name != d
    ensures FieldIndex(RenamedColumns(fs, app, key, here, c, d), name) == FieldIndex(fs, name)
  {
    if here {
      IndexAfterRename(fs, app, key, c, d, name);
    } else {
      IndexElsewhere(fs, app, key, c, d, name);
    }
  }

  lemma RenameInAllApart(xss: seq<seq<string>>, a: string, b: string, c: string, d: string)
    requires NamesApart(a, b, c, d)
    ensures RenameInAll(RenameInAll(xss, a, b), c, d) == RenameInAll(RenameInAll(xss, c, d), a, b)
  {
    forall i | 0 <= i < |xss|
      ensures RenameIn(RenameIn(xss[i], a, b), c, d) == RenameIn(RenameIn(xss[i], c, d), a, b)
    {
      RenameInApart(xss[i], a, b, c, d);
    }
  }

  lemma RenameIndexesApart(ixs: seq<Index>, a: string, b: string, c: string, d: string)
    requires NamesApart(a, b, c, d)
    ensures RenameInIndexes(RenameInIndexes(ixs, a, b), c, d) == RenameInIndexes(RenameInIndexes(ixs, c, d), a, b)
  {
    forall i | 0 <= i < |ixs|
      ensures RenameInIndex(RenameInIndex(ixs[i], a, b), c, d) == RenameInIndex(RenameInIndex(ixs[i], c, d), a, b)
    {
      RenameIndexApart(ixs[i], a, b, c, d);
    }
  }

  lemma RenameConstraintsApart(cs: seq<Constraint>, app: string, k1: ModelKey, h1: bool, a: string, b: string,
      k2: ModelKey, h2: bool, c: string, d: string)
    requires (k1 == k2 ==> NamesApart(a, b, c, d)) && (h1 && h2 ==> k1 == k2)
    ensures RenamedConstraints(RenamedConstraints(cs, app, k1, h1, a, b), app, k2, h2, c, d)
         == RenamedConstraints(RenamedConstraints(cs, app, k2, h2, c, d), app, k1, h1, a, b)
  {
    var l, r := RenamedConstraints(RenamedConstraints(cs, app, k1, h1, a, b), app, k2, h2, c, d),
      RenamedConstraints(RenamedConstraints(cs, app, k2, h2, c, d), app, k1, h1, a, b);
    forall i | 0 <= i < |cs|
      ensures l[i] == r[i]
    {
      RenameConstraintApart(cs[i], app, k1, h1, a, b, k2, h2, c, d);
    }
  }

  lemma RenamedApart(m: ModelState, k: ModelKey, k1: ModelKey, a: string, b: string, k2: ModelKey, c: string, d: string)
    requires k1 == k2 ==> NamesApart(a, b, c, d)
    ensures RenamedIn(RenamedIn(m, k, k1, a, b), k, k2, c, d) == RenamedIn(RenamedIn(m, k, k2, c, d), k, k1, a, b)
  {
    RenameColumnsApart(m.fields, k.app, k1, k == k1, a, b, k2, k == k2, c, d);
    RenameConstraintsApart(m.options.constraints, k.app, k1, k == k1, a, b, k2, k == k2, c, d);
    if k1 == k2 {
      RenameInAllApart(m.options.uniqueTogether, a, b, c, d);
      RenameIndexesApart(m.options.indexes, a, b, c, d);
    }
    hide RenamedColumns, RenamedConstraints, RenameInAll, RenameInIndexes;
  }

  lemma RenamesCommute(s: State, k1: ModelKey, a: string, b: string, k2: ModelKey, c: string, d: string)
    requires k1 == k2 ==> NamesApart(a, b, c, d)
    ensures RenameFieldIn(RenameFieldIn(s, k1, a, b), k2, c, d) == RenameFieldIn(RenameFieldIn(s, k2, c, d), k1, a, b)
  {
    forall k | k in s
      ensures RenamedIn(RenamedIn(s[k], k, k1, a, b), k, k2, c, d)
        == RenamedIn(RenamedIn(s[k], k, k2, c, d), k, k1, a, b)
    {
      RenamedApart(s[k], k, k1, a, b, k2, c, d);
    }
  }

  lemma RenameThroughRename(o: Operation, x: Operation, app: string, s: State, s1: State, s2: State)
    requires o.RenameField? && x.RenameField? && BothRun(o, x, app, s, s1, s2)
    requires EqualFold(o.modelName, x.modelName) ==> NamesApart(o.oldName, o.newName, x.oldName, x.newName)
    ensures ForwardsAll([x, o], app, s) == Ok(s2)
  {
    var k1, k2 := KeyOf(app, o.modelName), KeyOf(app, x.modelName);
    RenameForwards(o, app, s);
    RenameForwards(x, app, s1);
    hide BothRun, WellFormed;
    RenameForwards(x, app, s);
    var t := RenameFieldIn(s, k2, x.oldName, x.newName);
    assert s1[k2].fields == RenamedColumns(s[k2].fields, k2.app, k1, k2 == k1, o.oldName, o.newName);
    assert t[k1].fields == RenamedColumns(s[k1].fields, k1.app, k2, k1 == k2, x.oldName, x.newName);
    IndexAfterRename2(s[k2].fields, k2.app, k1, k2 == k1, o.oldName, o.newName, x.oldName);
    IndexAfterRename2(s[k1].fields, k1.app, k2, k1 == k2, x.oldName, x.newName, o.oldName);
    hide RenameFieldIn, RenamedColumns, FieldIndex;
    RenamesCommute(s, k1, o.oldName, o.newName, k2, x.oldName, x.newName);
    RenameForwards(o, app, t);
    RunTwo(x, o, app, s);
  }

  // --- An option of a model ---

  /** The operations that change a model's table, comment, unique_together or
      managed flag. */
  predicate OptionChange(op: Operation) {
    op.AlterModelTable? || op.AlterModelTableComment? || op.AlterUniqueTogether? || op.AlterModelOptions?
  }

  /** What the operation makes of a model: its fields stay. */
  function WithOption(op: Operation, m: ModelState): (r: ModelState)
    requires OptionChange(op)
    ensures r.fields == m.fields && r.options.constraints == m.options.constraints &&
      r.options.indexes == m.options.indexes
  {
    match op
    case AlterModelTable(_, table) => m.(table := table)
    case AlterModelTableComment(_, comment) => m.(options := m.options.(tableComment := comment))
    case AlterUniqueTogether(_, together) => m.(options := m.options.(uniqueTogether := together))
    case AlterModelOptions(_, managed) => m.(options := m.options.(managed := managed))
  }

  function SetModel(s: State, key: ModelKey, m: ModelState): State {
    s[key := m]
  }

  lemma OptionForwards(op: Operation, app: string, s: State)
    requires OptionChange(op)
    ensures var key := KeyOf(app, op.name);
      && (Forwards(op, app, s).Ok? <==> key in s)
      && (Forwards(op, app, s).Ok? ==> Forwards(op, app, s).value == SetModel(s, key, WithOption(op, s[key])))
  {}

  lemma OptionAndFields(op: Operation, m: ModelState, fs: Fields)
    requires OptionChange(op)
    ensures WithOption(op, m.(fields := fs)) == WithOption(op, m).(fields := fs)
  {}

  lemma OptionAfterFields(op: Operation, s: State, k1: ModelKey, fs: Fields, k2: ModelKey)
    requires OptionChange(op) && k1 in s && k2 in s
    ensures var t := SetModel(s, k2, WithOption(op, s[k2]));
      && t[k1].fields == s[k1].fields
      && SetFields(t, k1, fs) == SetModel(SetFields(s, k1, fs), k2, WithOption(op, SetFields(s, k1, fs)[k2]))
  {
    if k1 == k2 {
      OptionAndFields(op, s[k1], fs);
    }
    hide WithOption;
  }

  lemma ChangeThroughOption(o: Operation, x: Operation, app: string, s: State, s1: State, s2: State)
    requires FieldChange(o) && OptionChange(x) && BothRun(o, x, app, s, s1, s2)
    ensures ForwardsAll([x, o], app, s) == Ok(s2)
  {
    var k1, k2 := ModelKeyOf(o, app), KeyOf(app, x.name);
    FieldForwards(o, app, s);
    OptionForwards(x, app, s1);
    hide WellFormed;
    OptionForwards(x, app, s);
    OptionAfterFields(x, s, k1, ChangeFields(o, app, s[k1].fields).value, k2);
    var t := SetModel(s, k2, WithOption(x, s[k2]));
    hide SetModel, SetFields, WithOption, ChangeFields;
    FieldForwards(o, app, t);
    RunTwo(x, o, app, s);
  }

  /** Renaming a column an option does not mention, before or after setting it. */
  lemma OptionAndRename(op: Operation, m: ModelState, k: ModelKey, key: ModelKey, a: string, b: string)
    requires OptionChange(op) && (k == key && op.AlterUniqueTogether? ==> !MentionsColumn(op.uniqueTogether, a))
    ensures WithOption(op, RenamedIn(m, k, key, a, b)) == RenamedIn(WithOption(op, m), k, key, a, b)
  {
    if op.AlterUniqueTogether? {
      forall i | 0 <= i < |op.uniqueTogether| && k == key
        ensures RenameIn(op.uniqueTogether[i], a, b) == op.uniqueTogether[i]
      {
        RenameInUnmentioned(op.uniqueTogether[i], a, b);
      }
      assert k == key ==> RenameInAll(op.uniqueTogether, a, b) == op.uniqueTogether;
    }
  }

  lemma OptionAfterRename(op: Operation, s: State, k1: ModelKey, a: string, b: string, k2: ModelKey)
    requires OptionChange(op) && k1 in s && k2 in s
    requires k2 == k1 && op.AlterUniqueTogether? ==> !MentionsColumn(op.uniqueTogether, a)
    ensures var t, s1 := SetModel(s, k2, WithOption(op, s[k2])), RenameFieldIn(s, k1, a, b);
      && t[k1].fields == s[k1].fields && RenameFieldIn(t, k1, a, b) == SetModel(s1, k2, WithOption(op, s1[k2]))
  {
    OptionAndRename(op, s[k2], k2, k1, a, b);
    var t, s1 := SetModel(s, k2, WithOption(op, s[k2])), RenameFieldIn(s, k1, a, b);
    assert t[k1].fields == s[k1].fields;
    hide WithOption, RenamedIn;
    forall k | k in s
      ensures RenameFieldIn(t, k1, a, b)[k] == SetModel(s1, k2, WithOption(op, s1[k2]))[k]
    {
      assert t[k] == if k == k2 then WithOption(op, s[k2]) else s[k];
    }
  }

  lemma RenameThroughOption(o: Operation, x: Operation, app: string, s: State, s1: State, s2: State)
    requires o.RenameField? && OptionChange(x) && BothRun(o, x, app, s, s1, s2)
    requires EqualFold(x.name, o.modelName) && x.AlterUniqueTogether? ==> !MentionsColumn(x.uniqueTogether, o.oldName)
    ensures ForwardsAll([x, o], app, s) == Ok(s2)
  {
    var k1, k2 := KeyOf(app, o.modelName), KeyOf(app, x.name);
    RenameForwards(o, app, s);
    OptionForwards(x, app, s1);
    hide WellFormed;
    OptionForwards(x, app, s);
    OptionAfterRename(x, s, k1, o.oldName, o.newName, k2);
    var t := SetModel(s, k2, WithOption(x, s[k2]));
    hide SetModel, WithOption, RenameFieldIn;
    RenameForwards(o, app, t);
    RunTwo(x, o, app, s);
  }

  // --- Every operation reduced through ---

  lemma ReferencesApart(o: Operation, x: Operation, app: string)
    requires FieldOf(o).Some? && FieldOf(x).Some? && ReduceFieldOp(o, x, app) == Through
    ensures FieldChange(o) && FieldChange(x) && ModelKeyOf(o, app) == ModelKeyOf(x, app) ==> ColumnOf(o) != ColumnOf(x)
    ensures FieldChange(o) && x.RenameField? ==> Apart(o, x, app)
    ensures o.RenameField? && FieldChange(x) ==> Apart(x, o, app)
    ensures o.RenameField? && x.RenameField? && EqualFold(o.modelName, x.modelName) ==>
        NamesApart(o.oldName, o.newName, x.oldName, x.newName)
  {}

  /** What a field operation can reduce through. */
  lemma ThroughKinds(o: Operation, x: Operation, app: string)
    requires FieldOf(o).Some? && ReduceFieldOp(o, x, app) == Through
    ensures FieldOf(x).Some? || OptionChange(x) || x.CreateModel? || x.RenameModel?
    ensures var key := KeyOf(app, FieldOf(o).value.0);
      && (x.CreateModel? ==> key != KeyOf(app, x.name))
      && (x.RenameModel? ==> key != KeyOf(app, x.oldName) && key != KeyOf(app, x.newName))
  {}

  lemma ThroughField(o: Operation, x: Operation, app: string, s: State, s1: State, s2: State) returns (s3: State)
    requires FieldOf(o).Some? && FieldOf(x).Some? && NotRelational(o) && NotRelational(x)
    requires BothRun(o, x, app, s, s1, s2) && ReduceFieldOp(o, x, app) == Through && SameState(s2, s2)
    ensures ForwardsAll([x, o], app, s) == Ok(s3) && SameState(s3, s2)
  {
    ReferencesApart(o, x, app);
    hide ReduceFieldOp, BothRun, SameState;
    s3 := s2;
    if o.RenameField? && x.RenameField? {
      RenameThroughRename(o, x, app, s, s1, s2);
    } else if o.RenameField? {
      RenameThroughChange(o, x, app, s, s1, s2);
    } else if x.RenameField? {
      ChangeThroughRename(o, x, app, s, s1, s2);
    } else {
      s3 := ChangeThroughChange(o, x, app, s, s1, s2);
    }
  }

  lemma ThroughOption(o: Operation, x: Operation, app: string, s: State, s1: State, s2: State)
    requires FieldOf(o).Some? && OptionChange(x) && BothRun(o, x, app, s, s1, s2) && ReduceFieldOp(o, x, app) == Through
    ensures ForwardsAll([x, o], app, s) == Ok(s2)
  {
    if o.RenameField? {
      RenameThroughOption(o, x, app, s, s1, s2);
    } else {
      ChangeThroughOption(o, x, app, s, s1, s2);
    }
  }

  /** Two operations of which the first, on a field, reduces through the second can run
      in the other order: the states compare equal, whatever the place of a field. */
  lemma ThroughCommutes(o: Operation, x: Operation, app: string, s: State, s1: State, s2: State) returns (s3: State)
    requires FieldOf(o).Some? && NotRelational(o) && NotRelational(x)
    requires BothRun(o, x, app, s, s1, s2) && ReduceFieldOp(o, x, app) == Through
    ensures ForwardsAll([x, o], app, s) == Ok(s3) && SameState(s3, s2)
  {
    SameStateRefl(s2);
    ThroughKinds(o, x, app);
    hide ReduceFieldOp, SameState, Forwards, ForwardsAll, WellFormed, BothRun;
    s3 := s2;
    if OptionChange(x) {
      ThroughOption(o, x, app, s, s1, s2);
    } else if FieldOf(x).Some? {
      s3 := ThroughField(o, x, app, s, s1, s2);
    } else if x.CreateModel? {
      if o.RenameField? {
        RenameThroughCreate(o, x, app, s, s1, s2);
      } else {
        ChangeThroughCreate(o, x, app, s, s1, s2);
      }
    } else if o.RenameField? {
      RenameThroughRenameModel(o, x, app, s, s1, s2);
    } else {
      ChangeThroughRenameModel(o, x, app, s, s1, s2);
    }
  }
}
