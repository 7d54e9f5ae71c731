/** Renaming a model or a column keeps every reference pointing at something. */
module Renames {
  import opened Wrappers
  import opened Names
  import opened ModelStates
  import opened Operations
  import opened States
  import opened FieldReductions
  import opened ReduceField

  // --- Referential integrity ---

  /** A reference to columns of the model at target, where it exists. */
  ghost predicate Resolves(s: State, target: ModelKey, column: string) {
    target in s && (column == "" || HasField(s[target].fields, column))
  }

  ghost predicate FieldResolves(s: State, app: string, f: Field) {
    f.foreignKey.Some? ==> Resolves(s, ResolveRelation(f.foreignKey.value.to, app), f.foreignKey.value.toField)
  }

  ghost predicate ConstraintResolves(s: State, app: string, c: Constraint) {
    c.ForeignKeyConstraint? ==>
      var target := ResolveRelation(c.to, app);
      target in s && forall i :: 0 <= i < |c.toFields| ==> HasField(s[target].fields, c.toFields[i])
  }

  /** The model is under its own key, its options mention its own columns, and its
      foreign keys name existing models and columns. */
  ghost predicate ModelIntact(s: State, k: ModelKey)
    requires k in s
  {
    var m := s[k];
    && m.app == k.app && Lower(m.name) == k.model && DistinctNames(m.fields)
    && (forall column :: OptionsMention(m.options, column) ==> HasField(m.fields, column))
    && (forall i :: 0 <= i < |m.fields| ==> FieldResolves(s, k.app, m.fields[i].field))
    && (forall i :: 0 <= i < |m.options.constraints| ==> ConstraintResolves(s, k.app, m.options.constraints[i]))
  }

  ghost predicate Intact(s: State) {
    forall k :: k in s ==> ModelIntact(s, k)
  }

  // --- Renaming a column ---

  lemma RenamedHas(fs: Fields, app: string, key: ModelKey, oldName: string, newName: string, column: string)
    requires HasField(fs, oldName) && !HasField(fs, newName) && HasField(fs, column)
    ensures HasField(RenamedColumns(fs, app, key, true, oldName, newName), if column == oldName then newName
      else column)
  {
    var r := RenamedColumns(fs, app, key, true, oldName, newName);
    if column == oldName {
      assert r[FieldIndex(fs, oldName)].name == newName;
    } else {
      IndexAfterRename(fs, app, key, oldName, newName, column);
    }
  }

  lemma OldNameGone(fs: Fields, app: string, key: ModelKey, oldName: string, newName: string)
    requires HasField(fs, oldName) && !HasField(fs, newName) && DistinctNames(fs)
    ensures DistinctNames(RenamedColumns(fs, app, key, true, oldName, newName))
    ensures !HasField(RenamedColumns(fs, app, key, true, oldName, newName), oldName)
  {
    var r, i := RenamedColumns(fs, app, key, true, oldName, newName), FieldIndex(fs, oldName);
    forall j, k | 0 <= j < k < |r|
      ensures r[j].name != r[k].name
    {
      assert fs[j].name != newName && fs[k].name != newName && fs[j].name != fs[k].name;
    }
    forall j | 0 <= j < |r|
      ensures r[j].name != oldName
    {
      assert j != i ==> fs[j].name != fs[i].name;
    }
  }

  /** What the columns mentioned become. */
  function Moved(column: string, oldName: string, newName: string): string {
    if column == oldName then newName else column
  }

  lemma RenameInMoves(xs: seq<string>, oldName: string, newName: string, column: string)
    requires column in RenameIn(xs, oldName, newName)
    ensures exists c :: c in xs && column == Moved(c, oldName, newName)
  {
    var i :| 0 <= i < |xs| && RenameIn(xs, oldName, newName)[i] == column;
    assert xs[i] in xs;
  }

  ghost predicate WasMentioned(o: Options, oldName: string, newName: string, column: string) {
    exists c :: OptionsMention(o, c) && column == Moved(c, oldName, newName)
  }

  lemma TogetherMoves(o: Options, oldName: string, newName: string, column: string, i: nat)
    requires i < |o.uniqueTogether| && column in RenameInAll(o.uniqueTogether, oldName, newName)[i]
    ensures WasMentioned(o, oldName, newName, column)
  {
    RenameInMoves(o.uniqueTogether[i], oldName, newName, column);
    var c :| c in o.uniqueTogether[i] && column == Moved(c, oldName, newName);
    assert OptionsMention(o, c);
  }

  lemma IndexMoves(o: Options, oldName: string, newName: string, column: string, i: nat)
    requires i < |o.indexes| && IndexMentions(RenameInIndexes(o.indexes, oldName, newName)[i], column)
    ensures WasMentioned(o, oldName, newName, column)
  {
    var ix := o.indexes[i];
    var r := RenameInIndex(ix, oldName, newName);
    if column in r.include_ {
      RenameInMoves(ix.include_, oldName, newName, column);
      var c :| c in ix.include_ && column == Moved(c, oldName, newName);
      assert IndexMentions(ix, c) && OptionsMention(o, c);
    } else {
      var j :| 0 <= j < |r.fields| && r.fields[j].column == column;
      assert IndexMentions(ix, ix.fields[j].column) && OptionsMention(o, ix.fields[j].column);
    }
  }

  lemma ConstraintMoves(o: Options, con: Constraint, oldName: string, newName: string, column: string, i: nat)
    requires i < |o.constraints| && con == o.constraints[i] &&
      ConstraintMentions(RenameColumn(con, oldName, newName), column)
    ensures WasMentioned(o, oldName, newName, column)
  {
    var xs := if con.UniqueConstraint? && column !in RenameIn(con.fields, oldName, newName) then con.include_
      else con.fields;
    RenameInMoves(xs, oldName, newName, column);
    var c :| c in xs && column == Moved(c, oldName, newName);
    assert ConstraintMentions(con, c) && OptionsMention(o, c);
  }

  /** What the renamed model mentions are the renamed columns it mentioned. */
  lemma MentionsMove(m: ModelState, key: ModelKey, oldName: string, newName: string, column: string)
    requires OptionsMention(RenamedIn(m, key, key, oldName, newName).options, column)
    ensures WasMentioned(m.options, oldName, newName, column)
  {
    var o, r := m.options, RenamedIn(m, key, key, oldName, newName).options;
    if i :| 0 <= i < |r.uniqueTogether| && column in r.uniqueTogether[i] {
      TogetherMoves(o, oldName, newName, column, i);
    } else if i :| 0 <= i < |r.indexes| && IndexMentions(r.indexes[i], column) {
      IndexMoves(o, oldName, newName, column, i);
    } else {
      var i :| 0 <= i < |r.constraints| && ConstraintMentions(r.constraints[i], column);
      ConstraintMoves(o, o.constraints[i], oldName, newName, column, i);
    }
  }

  lemma ElsewhereSameOptions(m: ModelState, k: ModelKey, key: ModelKey, oldName: string, newName: string,
      column: string)
    requires k != key && OptionsMention(RenamedIn(m, k, key, oldName, newName).options, column)
    ensures OptionsMention(m.options, column)
  {
    var o, r := m.options, RenamedIn(m, k, key, oldName, newName).options;
    if i :| 0 <= i < |r.constraints| && ConstraintMentions(r.constraints[i], column) {
      assert ConstraintMentions(o.constraints[i], column);
    }
  }

  lemma ResolvesRenamed(s: State, key: ModelKey, oldName: string, newName: string, target: ModelKey, column: string)
    requires Intact(s) && key in s && HasField(s[key].fields, oldName) && !HasField(s[key].fields, newName)
    requires target in s && HasField(s[target].fields, column)
    ensures HasField(RenameFieldIn(s, key, oldName, newName)[target].fields,
      if target == key then Moved(column, oldName, newName) else column)
  {
    var fs := s[target].fields;
    if target == key {
      RenamedHas(fs, key.app, key, oldName, newName, column);
    } else {
      IndexElsewhere(fs, target.app, key, oldName, newName, column);
    }
  }

  lemma FieldStillResolves(s: State, key: ModelKey, oldName: string, newName: string, app: string, f: Field)
    requires Intact(s) && key in s && HasField(s[key].fields, oldName) && !HasField(s[key].fields, newName)
    requires FieldResolves(s, app, f)
    ensures FieldResolves(RenameFieldIn(s, key, oldName, newName), app,
      RenameTargetField(f, app, key, oldName, newName))
  {
    if f.foreignKey.Some? && f.foreignKey.value.toField != "" {
      ResolvesRenamed(s, key, oldName, newName, ResolveRelation(f.foreignKey.value.to, app),
        f.foreignKey.value.toField);
    } else if f.foreignKey.Some? && oldName == "" {
      ResolvesRenamed(s, key, oldName, newName, key, oldName);
    }
  }

  lemma ConstraintStillResolves(s: State, key: ModelKey, oldName: string, newName: string, app: string, c: Constraint)
    requires Intact(s) && key in s && HasField(s[key].fields, oldName) && !HasField(s[key].fields, newName)
    requires ConstraintResolves(s, app, c)
    ensures ConstraintResolves(RenameFieldIn(s, key, oldName, newName), app,
      RenameTargetColumn(c, app, key, oldName, newName))
  {
    if c.ForeignKeyConstraint? {
      forall i | 0 <= i < |c.toFields|
        ensures HasField(RenameFieldIn(s, key, oldName, newName)[ResolveRelation(c.to, app)].fields,
          RenameTargetColumn(c, app, key, oldName, newName).toFields[i])
      {
        ResolvesRenamed(s, key, oldName, newName, ResolveRelation(c.to, app), c.toFields[i]);
      }
    }
  }

  lemma RenamedConstraintResolves(s: State, key: ModelKey, oldName: string, newName: string, k: ModelKey, i: nat)
    requires Intact(s) && key in s && HasField(s[key].fields, oldName) && !HasField(s[key].fields, newName)
    requires k in s && i < |s[k].options.constraints|
    ensures ConstraintResolves(RenameFieldIn(s, key, oldName, newName), k.app,
        RenameFieldIn(s, key, oldName, newName)[k].options.constraints[i])
  {
    var c := s[k].options.constraints[i];
    assert ModelIntact(s, k) && ConstraintResolves(s, k.app, c);
    var own := if k == key then RenameColumn(c, oldName, newName) else c;
    assert ConstraintResolves(s, k.app, own);
    hide Intact, ModelIntact;
    ConstraintStillResolves(s, key, oldName, newName, k.app, own);
  }

  lemma RenamedMentions(s: State, key: ModelKey, oldName: string, newName: string, k: ModelKey, column: string)
    requires Intact(s) && key in s && HasField(s[key].fields, oldName) && !HasField(s[key].fields, newName)
    requires k in s && OptionsMention(RenameFieldIn(s, key, oldName, newName)[k].options, column)
    ensures HasField(RenameFieldIn(s, key, oldName, newName)[k].fields, column)
  {
    assert ModelIntact(s, k);
    if k == key {
      MentionsMove(s[k], key, oldName, newName, column);
      var c :| OptionsMention(s[k].options, c) && column == Moved(c, oldName, newName);
      RenamedHas(s[k].fields, key.app, key, oldName, newName, c);
    } else {
      ElsewhereSameOptions(s[k], k, key, oldName, newName, column);
      IndexElsewhere(s[k].fields, k.app, key, oldName, newName, column);
    }
  }

  lemma RenamedDistinct(s: State, key: ModelKey, oldName: string, newName: string, k: ModelKey)
    requires Intact(s) && key in s && HasField(s[key].fields, oldName) && !HasField(s[key].fields, newName) && k in s
    ensures DistinctNames(RenameFieldIn(s, key, oldName, newName)[k].fields)
  {
    assert ModelIntact(s, k);
    if k == key {
      OldNameGone(s[k].fields, key.app, key, oldName, newName);
    }
  }

  /** Renaming a column to a name its model does not have keeps every reference
      pointing at something, and leaves nothing of the old name. */
  lemma RenameFieldKeepsIntact(s: State, key: ModelKey, oldName: string, newName: string)
    requires Intact(s) && key in s && HasField(s[key].fields, oldName) && !HasField(s[key].fields, newName)
    ensures var r := RenameFieldIn(s, key, oldName, newName);
      && Intact(r) && HasField(r[key].fields, newName) && !HasField(r[key].fields, oldName)
      && !OptionsMention(r[key].options, oldName)
  {
    var r := RenameFieldIn(s, key, oldName, newName);
    forall k | k in r
      ensures ModelIntact(r, k)
    {
      assert ModelIntact(s, k);
      RenamedDistinct(s, key, oldName, newName, k);
      forall column | OptionsMention(r[k].options, column)
        ensures HasField(r[k].fields, column)
      {
        RenamedMentions(s, key, oldName, newName, k, column);
      }
      forall i | 0 <= i < |r[k].fields|
        ensures FieldResolves(r, k.app, r[k].fields[i].field)
      {
        FieldStillResolves(s, key, oldName, newName, k.app, s[k].fields[i].field);
      }
      forall i | 0 <= i < |r[k].options.constraints|
        ensures ConstraintResolves(r, k.app, r[k].options.constraints[i])
      {
        RenamedConstraintResolves(s, key, oldName, newName, k, i);
      }
    }
    assert ModelIntact(s, key) && ModelIntact(r, key);
    RenamedHas(s[key].fields, key.app, key, oldName, newName, oldName);
    OldNameGone(s[key].fields, key.app, key, oldName, newName);
  }

  /** In an intact state nothing points at a column that its model does not have. */
  lemma NothingPointsAtMissing(s: State, key: ModelKey, column: string)
    requires Intact(s) && key in s && !HasField(s[key].fields, column) && column != ""
    ensures Unmentioned(s, key, column)
  {
    assert ModelIntact(s, key);
    forall k | k in s
      ensures !PointsAt(s[k], k, key, column)
    {
      assert ModelIntact(s, k);
      forall i | 0 <= i < |s[k].fields|
        ensures !FieldPointsAt(s[k].fields[i].field, k.app, key, column)
      {
        assert FieldResolves(s, k.app, s[k].fields[i].field);
      }
      forall i | 0 <= i < |s[k].options.constraints|
        ensures !ConstraintPointsAt(s[k].options.constraints[i], k.app, key, column)
      {
        assert ConstraintResolves(s, k.app, s[k].options.constraints[i]);
      }
    }
  }

  lemma RenameToItself(s: State, key: ModelKey, name: string)
    ensures RenameFieldIn(s, key, name, name) == s
  {
    forall k | k in s
      ensures RenamedIn(s[k], k, key, name, name) == s[k]
    {
      var m := s[k];
      var o := m.options;
      assert RenamedColumns(m.fields, k.app, key, k == key, name, name) == m.fields;
      assert forall xs: seq<string> :: RenameIn(xs, name, name) == xs;
      assert RenameInAll(o.uniqueTogether, name, name) == o.uniqueTogether;
      forall i | 0 <= i < |o.indexes|
        ensures RenameInIndex(o.indexes[i], name, name) == o.indexes[i]
      {
        assert RenameIndexFields(o.indexes[i].fields, name, name) == o.indexes[i].fields;
      }
      assert RenameInIndexes(o.indexes, name, name) == o.indexes;
      assert RenamedConstraints(o.constraints, k.app, key, k == key, name, name) == o.constraints;
    }
  }

  /** Renaming a column to a name mentioned nowhere, and back, changes nothing. */
  lemma RenameFieldAndBack(s: State, key: ModelKey, oldName: string, newName: string)
    requires Intact(s) && key in s && HasField(s[key].fields, oldName) && !HasField(s[key].fields, newName) &&
      newName != ""
    ensures RenameFieldIn(RenameFieldIn(s, key, oldName, newName), key, newName, oldName) == s
  {
    NothingPointsAtMissing(s, key, newName);
    RenameFieldTwice(s, key, oldName, newName, oldName);
    RenameToItself(s, key, oldName);
  }

  // --- Renaming a model ---

  function MovedKey(k: ModelKey, oldKey: ModelKey, newKey: ModelKey): ModelKey {
    if k == oldKey then newKey else k
  }

  lemma RepointedMoves(f: Field, where_: string, oldKey: ModelKey, app: string, newName: string)
    requires !HasDot(app) && f.foreignKey.Some?
    ensures var g := RepointField(f, where_, oldKey, app + "." + newName);
      && g.foreignKey.Some? && g.foreignKey.value.toField == f.foreignKey.value.toField
      && ResolveRelation(g.foreignKey.value.to, where_)
         == MovedKey(ResolveRelation(f.foreignKey.value.to, where_), oldKey, KeyOf(app, newName))
  {
    ResolveQualified(app, newName, where_);
  }

  lemma RepointedConstraintMoves(c: Constraint, where_: string, oldKey: ModelKey, app: string, newName: string)
    requires !HasDot(app) && c.ForeignKeyConstraint?
    ensures var d := RepointConstraint(c, where_, oldKey, app + "." + newName);
      && d.ForeignKeyConstraint? && d.toFields == c.toFields && d.fields == c.fields
      && ResolveRelation(d.to, where_) == MovedKey(ResolveRelation(c.to, where_), oldKey, KeyOf(app, newName))
  {
    ResolveQualified(app, newName, where_);
  }

  /** The model that was at k, in the renamed state. */
  lemma RenamedModelAt(s: State, app: string, oldName: string, newName: string, k: ModelKey)
    requires KeyOf(app, oldName) in s && k in s && (k == KeyOf(app, newName) ==> k == KeyOf(app, oldName))
    ensures var oldKey, newKey, r := KeyOf(app, oldName), KeyOf(app, newName), RenameModelIn(s, app, oldName, newName);
      var k' := MovedKey(k, oldKey, newKey);
      && k' in r && k'.app == k.app
      && r[k'] == Repointed(if k == oldKey then s[k].(name := newName) else s[k], k', oldKey, app + "." + newName)
  {}

  lemma RenamedModelKeys(s: State, app: string, oldName: string, newName: string, k': ModelKey)
    requires KeyOf(app, oldName) in s && (KeyOf(app, newName) !in s || KeyOf(app, newName) == KeyOf(app, oldName))
    requires k' in RenameModelIn(s, app, oldName, newName)
    ensures exists k :: k in s && k' == MovedKey(k, KeyOf(app, oldName), KeyOf(app, newName))
  {
    var oldKey, newKey := KeyOf(app, oldName), KeyOf(app, newName);
    if k' == newKey {
      assert k' == MovedKey(oldKey, oldKey, newKey);
    } else {
      assert k' in s && k' == MovedKey(k', oldKey, newKey);
    }
  }

  lemma RepointedHas(fs: Fields, app: string, key: ModelKey, ref: string, column: string)
    ensures FieldIndex(RepointedFields(fs, app, key, ref), column) == FieldIndex(fs, column)
  {
    if FieldIndex(fs, column) >= 0 {
      FieldIndexIs(RepointedFields(fs, app, key, ref), column, FieldIndex(fs, column));
    }
  }

  lemma StillResolves(s: State, app: string, oldName: string, newName: string, target: ModelKey, column: string)
    requires KeyOf(app, oldName) in s && (KeyOf(app, newName) !in s || KeyOf(app, newName) == KeyOf(app, oldName))
    requires target in s
    ensures var t := MovedKey(target, KeyOf(app, oldName), KeyOf(app, newName));
      var r := RenameModelIn(s, app, oldName, newName);
      t in r && (HasField(r[t].fields, column) <==> HasField(s[target].fields, column))
  {
    var oldKey := KeyOf(app, oldName);
    RenamedModelAt(s, app, oldName, newName, target);
    RepointedHas(s[target].fields, MovedKey(target, oldKey, KeyOf(app, newName)).app, oldKey, app + "." + newName,
      column);
  }

  lemma RepointedMentions(m: ModelState, k: ModelKey, key: ModelKey, ref: string, column: string)
    requires OptionsMention(Repointed(m, k, key, ref).options, column)
    ensures OptionsMention(m.options, column)
  {
    var cs, r := m.options.constraints, Repointed(m, k, key, ref).options.constraints;
    if i :| 0 <= i < |r| && ConstraintMentions(r[i], column) {
      assert ConstraintMentions(cs[i], column);
    }
  }

  lemma RepointedFieldResolves(s: State, app: string, oldName: string, newName: string, where_: string, f: Field)
    requires KeyOf(app, oldName) in s && (KeyOf(app, newName) !in s || KeyOf(app, newName) == KeyOf(app, oldName))
    requires !HasDot(app) && FieldResolves(s, where_, f)
    ensures FieldResolves(RenameModelIn(s, app, oldName, newName), where_,
      RepointField(f, where_, KeyOf(app, oldName), app + "." + newName))
  {
    if f.foreignKey.Some? {
      RepointedMoves(f, where_, KeyOf(app, oldName), app, newName);
      StillResolves(s, app, oldName, newName, ResolveRelation(f.foreignKey.value.to, where_),
        f.foreignKey.value.toField);
    }
  }

  lemma RepointedConstraintResolves(s: State, app: string, oldName: string, newName: string, where_: string,
      c: Constraint)
    requires KeyOf(app, oldName) in s && (KeyOf(app, newName) !in s || KeyOf(app, newName) == KeyOf(app, oldName))
    requires !HasDot(app) && ConstraintResolves(s, where_, c)
    ensures ConstraintResolves(RenameModelIn(s, app, oldName, newName), where_,
      RepointConstraint(c, where_, KeyOf(app, oldName), app + "." + newName))
  {
    if c.ForeignKeyConstraint? {
      RepointedConstraintMoves(c, where_, KeyOf(app, oldName), app, newName);
      var target := ResolveRelation(c.to, where_);
      hide RenameModelIn, RepointConstraint;
      StillResolves(s, app, oldName, newName, target, "");
      forall i | 0 <= i < |c.toFields|
        ensures HasField(RenameModelIn(s, app, oldName,
          newName)[MovedKey(target, KeyOf(app, oldName), KeyOf(app, newName))].fields, c.toFields[i])
      {
        StillResolves(s, app, oldName, newName, target, c.toFields[i]);
      }
    }
  }

  lemma RenamedModelIntact(s: State, app: string, oldName: string, newName: string, k: ModelKey)
    requires Intact(s) && !HasDot(app) && k in s
    requires KeyOf(app, oldName) in s && (KeyOf(app, newName) !in s || KeyOf(app, newName) == KeyOf(app, oldName))
    ensures var r, k' := RenameModelIn(s, app, oldName, newName), MovedKey(k, KeyOf(app, oldName), KeyOf(app, newName));
      k' in r && ModelIntact(r, k')
  {
    var oldKey, r := KeyOf(app, oldName), RenameModelIn(s, app, oldName, newName);
    var k' := MovedKey(k, oldKey, KeyOf(app, newName));
    var ref := app + "." + newName;
    var m := if k == oldKey then s[k].(name := newName) else s[k];
    assert ModelIntact(s, k);
    RenamedModelAt(s, app, oldName, newName, k);
    assert r[k'] == Repointed(m, k', oldKey, ref);
    hide RenameModelIn;
    forall column | OptionsMention(r[k'].options, column)
      ensures HasField(r[k'].fields, column)
    {
      RepointedMentions(m, k', oldKey, ref, column);
      RepointedHas(m.fields, k'.app, oldKey, ref, column);
    }
    forall i | 0 <= i < |r[k'].fields|
      ensures FieldResolves(r, k'.app, r[k'].fields[i].field)
    {
      RepointedFieldResolves(s, app, oldName, newName, k'.app, m.fields[i].field);
    }
    forall i | 0 <= i < |r[k'].options.constraints|
      ensures ConstraintResolves(r, k'.app, r[k'].options.constraints[i])
    {
      RepointedConstraintResolves(s, app, oldName, newName, k'.app, m.options.constraints[i]);
    }
  }

  /** Renaming a model to a name its app does not have keeps every reference
      pointing at something; since the old model is gone, nothing points at it. */
  lemma RenameModelKeepsIntact(s: State, app: string, oldName: string, newName: string)
    requires Intact(s) && !HasDot(app)
    requires KeyOf(app, oldName) in s && (KeyOf(app, newName) !in s || KeyOf(app, newName) == KeyOf(app, oldName))
    ensures var r := RenameModelIn(s, app, oldName, newName);
      Intact(r) && KeyOf(app, newName) in r &&
        (KeyOf(app, newName) != KeyOf(app, oldName) ==> KeyOf(app, oldName) !in r)
  {
    var r := RenameModelIn(s, app, oldName, newName);
    forall k' | k' in r
      ensures ModelIntact(r, k')
    {
      RenamedModelKeys(s, app, oldName, newName, k');
      var k :| k in s && k' == MovedKey(k, KeyOf(app, oldName), KeyOf(app, newName));
      RenamedModelIntact(s, app, oldName, newName, k);
    }
  }

  /** Every reference to the renamed model, its own included, follows it; the
      others stay. */
  lemma ReferencesFollow(s: State, app: string, oldName: string, newName: string, k: ModelKey, i: nat)
    requires Intact(s) && !HasDot(app) && k in s && i < |s[k].fields| && s[k].fields[i].field.foreignKey.Some?
    requires KeyOf(app, oldName) in s && (KeyOf(app, newName) !in s || KeyOf(app, newName) == KeyOf(app, oldName))
    ensures var r, oldKey, newKey := RenameModelIn(s, app, oldName, newName), KeyOf(app, oldName), KeyOf(app, newName);
      var k' := MovedKey(k, oldKey, newKey);
      && k' in r && i < |r[k'].fields| && r[k'].fields[i].field.foreignKey.Some?
      && ResolveRelation(r[k'].fields[i].field.foreignKey.value.to, k'.app)
         == MovedKey(ResolveRelation(s[k].fields[i].field.foreignKey.value.to, k.app), oldKey, newKey)
  {
    RenamedModelAt(s, app, oldName, newName, k);
    hide RenameModelIn;
    RepointedMoves(s[k].fields[i].field, k.app, KeyOf(app, oldName), app, newName);
  }

  /** A relation from app before and after the model at key is renamed: its target is the
      new name if it was that model, and the rest of it is as before. */
  predicate Follows(before: Option<ForeignKey>, after: Option<ForeignKey>, app: string, key: ModelKey, ref: string) {
    && before.Some? == after.Some?
    && (before.Some? ==>
          && after.value.toField == before.value.toField && after.value.onDelete == before.value.onDelete
          && after.value.onUpdate == before.value.onUpdate && after.value.name == before.value.name
          && after.value.to == if ResolveRelation(before.value.to, app) == key then ref else before.value.to)
  }

  predicate FieldFollows(before: NamedField, after: NamedField, app: string, key: ModelKey, ref: string) {
    && after.name == before.name && after.field.column == before.field.column
    && after.field.primaryKey == before.field.primaryKey && after.field.unique == before.field.unique
    && after.field.nullable == before.field.nullable && after.field.default == before.field.default
    && Follows(before.field.foreignKey, after.field.foreignKey, app, key, ref)
  }

  predicate ConstraintFollows(before: Constraint, after: Constraint, app: string, key: ModelKey, ref: string) {
    if before.ForeignKeyConstraint? then
      && after.ForeignKeyConstraint? && after.name == before.name && after.fields == before.fields
      && after.toFields == before.toFields && after.onDelete == before.onDelete && after.onUpdate == before.onUpdate
      && after.to == if ResolveRelation(before.to, app) == key then ref else before.to
    else after == before
  }

  /** But for its name, if it is the renamed one, and for the targets of relations to
      that, a model is as before. */
  predicate ModelFollows(before: ModelState, after: ModelState, name: string, app: string, key: ModelKey, ref: string) {
    && after.app == before.app && after.name == name && after.table == before.table
    && after.options.(constraints := []) == before.options.(constraints := [])
    && |after.fields| == |before.fields| && |after.options.constraints| == |before.options.constraints|
    && (forall i :: 0 <= i < |before.fields| ==> FieldFollows(before.fields[i], after.fields[i], app, key, ref))
    && (forall i :: 0 <= i < |before.options.constraints| ==>
          ConstraintFollows(before.options.constraints[i], after.options.constraints[i], app, key, ref))
  }

  /** Renaming a model changes nothing but its name and the targets of relations to it. */
  lemma RenameModelKeepsTheRest(s: State, app: string, oldName: string, newName: string, k: ModelKey)
    requires KeyOf(app, oldName) in s && k in s && (k == KeyOf(app, newName) ==> k == KeyOf(app, oldName))
    ensures var r, oldKey := RenameModelIn(s, app, oldName, newName), KeyOf(app, oldName);
      var k' := if k == oldKey then KeyOf(app, newName) else k;
      && k' in r
      && ModelFollows(s[k], r[k'], if k == oldKey then newName else s[k].name, k.app, oldKey, app + "." + newName)
  {
    RenamedModelAt(s, app, oldName, newName, k);
    var oldKey := KeyOf(app, oldName);
    var m := if k == oldKey then s[k].(name := newName) else s[k];
    var k' := if k == oldKey then KeyOf(app, newName) else k;
    var r := RenameModelIn(s, app, oldName, newName);
    hide RenameModelIn, ResolveRelation;
    RepointedFollows(m, k', oldKey, app + "." + newName);
    hide Repointed;
  }

  lemma RepointedFollows(m: ModelState, k: ModelKey, key: ModelKey, ref: string)
    ensures ModelFollows(m, Repointed(m, k, key, ref), m.name, k.app, key, ref)
  {
    hide ResolveRelation;
  }
}
