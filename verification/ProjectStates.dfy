/** The mutable project state: its methods change the models in place, and are
    proved against what each operation makes of the state. */
module ProjectStates {
  import opened Wrappers
  import opened Names
  import opened ModelStates
  import opened Operations
  import opened States
  import opened Reductions
  import opened FieldReductions

  /** A field that references a model. */
  datatype FieldReference = FieldReference(model: ModelKey, name: string, field: Field)

  ghost predicate Listed(refs: seq<FieldReference>, k: ModelKey, name: string) {
    exists j :: 0 <= j < |refs| && refs[j].model == k && refs[j].name == name
  }

  /** refs lists the fields that reference the column of key, and no others. */
  ghost predicate ListsReferences(s: State, key: ModelKey, column: string, refs: seq<FieldReference>) {
    && (forall j :: 0 <= j < |refs| ==> refs[j].model in s && HasField(s[refs[j].model].fields, refs[j].name))
    && (forall k, i :: k in s && 0 <= i < |s[k].fields| ==>
          (Listed(refs, k, s[k].fields[i].name) <==> FieldReferences(k.app, s[k].fields[i].field, key, column)))
  }

  ghost predicate AllDistinct(s: State) {
    forall k :: k in s ==> DistinctNames(s[k].fields)
  }

  // --- The steps of a column rename ---

  /** The renamed model itself, before the foreign keys that point at it. */
  function OwnRenamed(m: ModelState, oldName: string, newName: string): ModelState
    requires HasField(m.fields, oldName)
  {
    m.(fields := RenameOne(m.fields, FieldIndex(m.fields, oldName), newName),
       options := m.options.(
         uniqueTogether := RenameInAll(m.options.uniqueTogether, oldName, newName),
         indexes := RenameInIndexes(m.options.indexes, oldName, newName),
         constraints := RenamedOwn(m.options.constraints, oldName, newName)))
  }

  function RenamedOwn(cs: seq<Constraint>, oldName: string, newName: string): (r: seq<Constraint>)
    ensures |r| == |cs|
  {
    seq(|cs|, i requires 0 <= i < |cs| => RenameColumn(cs[i], oldName, newName))
  }

  function RenamedTargets(cs: seq<Constraint>, app: string, key: ModelKey, oldName: string,
      newName: string): (r: seq<Constraint>)
    ensures |r| == |cs|
  {
    seq(|cs|, i requires 0 <= i < |cs| => RenameTargetColumn(cs[i], app, key, oldName, newName))
  }

  function WithTargets(m: ModelState, k: ModelKey, key: ModelKey, oldName: string, newName: string): ModelState {
    m.(options := m.options.(constraints := RenamedTargets(m.options.constraints, k.app, key, oldName, newName)))
  }

  /** The models with the listed fields changed. */
  ghost function RefsChanged(s: State, refs: seq<FieldReference>, fix: Field -> Field): (r: State)
    ensures r.Keys == s.Keys
  {
    map k | k in s :: s[k].(fields := RefFields(s[k].fields, k, refs, fix))
  }

  ghost function RefFields(fs: Fields, k: ModelKey, refs: seq<FieldReference>, fix: Field -> Field): (r: Fields)
    ensures |r| == |fs|
  {
    seq(|fs|, i requires 0 <= i < |fs| =>
      if Listed(refs, k, fs[i].name) then NamedField(fs[i].name, fix(fs[i].field)) else fs[i])
  }

  lemma NothingListed(s: State, fix: Field -> Field)
    ensures RefsChanged(s, [], fix) == s
  {
    forall k | k in s
      ensures RefFields(s[k].fields, k, [], fix) == s[k].fields
    {
      var fs := s[k].fields;
      assert forall i :: 0 <= i < |fs| ==> !Listed([], k, fs[i].name);
      assert forall i :: 0 <= i < |fs| ==> RefFields(fs, k, [], fix)[i] == fs[i];
    }
  }

  lemma RefFieldsNext(fs: Fields, k: ModelKey, refs: seq<FieldReference>, ref: FieldReference, fix: Field -> Field)
    requires k == ref.model ==> DistinctNames(fs) && HasField(fs, ref.name)
    ensures var r := RefFields(fs, k, refs, fix);
      RefFields(fs, k, refs + [ref], fix) ==
        if k == ref.model then
          var i := FieldIndex(fs, ref.name);
          r[i := NamedField(ref.name, fix(fs[i].field))]
        else r
  {
    var r, r' := RefFields(fs, k, refs, fix), RefFields(fs, k, refs + [ref], fix);
    forall i | 0 <= i < |fs|
      ensures Listed(refs + [ref], k, fs[i].name) <==>
        Listed(refs, k, fs[i].name) || (k == ref.model && fs[i].name == ref.name)
    {
      ListedNext(refs, ref, k, fs[i].name);
    }
    hide Listed;
    if k == ref.model {
      var i := FieldIndex(fs, ref.name);
      assert forall j :: 0 <= j < |fs| && j != i ==> fs[j].name != ref.name;
      assert r' == r[i := NamedField(ref.name, fix(fs[i].field))];
    } else {
      assert r' == r;
    }
  }

  ghost predicate Idempotent(fix: Field -> Field) {
    forall f :: fix(fix(f)) == fix(f)
  }

  lemma ChangedNext(s: State, refs: seq<FieldReference>, ref: FieldReference, fix: Field -> Field)
    requires ref.model in s && DistinctNames(s[ref.model].fields) && HasField(s[ref.model].fields, ref.name) &&
      Idempotent(fix)
    ensures var m := RefsChanged(s, refs, fix)[ref.model];
      var i := FieldIndex(m.fields, ref.name);
      i >= 0 && RefsChanged(s, refs + [ref], fix)
        == RefsChanged(s, refs, fix)[ref.model := m.(fields := m.fields[i := NamedField(ref.name,
          fix(m.fields[i].field))])]
  {
    var r, fs := RefsChanged(s, refs, fix), s[ref.model].fields;
    var i := FieldIndex(fs, ref.name);
    FieldIndexIs(r[ref.model].fields, ref.name, i);
    hide FieldIndex, Listed;
    forall k | k in s
      ensures RefsChanged(s, refs + [ref], fix)[k].fields
        == if k == ref.model then RefFields(fs, k, refs, fix)[i := NamedField(ref.name, fix(fs[i].field))]
          else r[k].fields
    {
      RefFieldsNext(s[k].fields, k, refs, ref, fix);
    }
    assert fix(r[ref.model].fields[i].field) == fix(fs[i].field);
  }

  lemma ListedNext(refs: seq<FieldReference>, ref: FieldReference, k: ModelKey, name: string)
    ensures Listed(refs + [ref], k, name) <==> Listed(refs, k, name) || (k == ref.model && name == ref.name)
  {
    assert (refs + [ref])[|refs|] == ref;
    if j :| 0 <= j < |refs| && refs[j].model == k && refs[j].name == name {
      assert (refs + [ref])[j] == refs[j];
    }
  }

  /** What a rename makes of a field that references the column. */
  function FixColumn(f: Field, oldName: string, newName: string): Field {
    if f.foreignKey.Some? && f.foreignKey.value.toField == oldName
    then f.(foreignKey := Some(f.foreignKey.value.(toField := newName)))
    else f
  }

  function FixTarget(f: Field, ref: string): Field {
    if f.foreignKey.Some? then f.(foreignKey := Some(f.foreignKey.value.(to := ref))) else f
  }

  lemma OnlyReferencesChange(f: Field, app: string, key: ModelKey, oldName: string, newName: string, ref: string)
    ensures RenameTargetField(f, app, key, oldName, newName)
         == if FieldReferences(app, f, key, oldName) then FixColumn(f, oldName, newName) else f
    ensures RepointField(f, app, key, ref) == if FieldReferences(app, f, key, "") then FixTarget(f, ref) else f
  {}

  /** The models once the renamed one and the foreign key constraints are done. */
  function ConstraintsRenamed(s: State, key: ModelKey, oldName: string, newName: string): (r: State)
    requires key in s && HasField(s[key].fields, oldName)
    ensures r.Keys == s.Keys
  {
    map k | k in s ::
      WithTargets(if k == key then OwnRenamed(s[k], oldName, newName) else s[k], k, key, oldName, newName)
  }

  lemma StepsRenameAt(s: State, key: ModelKey, refs: seq<FieldReference>, oldName: string, newName: string, k: ModelKey)
    requires key in s && HasField(s[key].fields, oldName) && k in s
    requires ListsReferences(ConstraintsRenamed(s, key, oldName, newName), key, oldName, refs)
    ensures RefsChanged(ConstraintsRenamed(s, key, oldName, newName), refs, f => FixColumn(f, oldName, newName))[k]
         == RenamedIn(s[k], k, key, oldName, newName)
  {
    var s2, fix := ConstraintsRenamed(s, key, oldName, newName), f => FixColumn(f, oldName, newName);
    var fs := s2[k].fields;
    forall i | 0 <= i < |fs|
      ensures RefFields(fs, k, refs, fix)[i] == RenamedColumns(s[k].fields, k.app, key, k == key, oldName, newName)[i]
    {
      assert Listed(refs, k, fs[i].name) <==> FieldReferences(k.app, fs[i].field, key, oldName);
      OnlyReferencesChange(fs[i].field, k.app, key, oldName, newName, "");
    }
    hide ListsReferences, Listed, FieldIndex;
    assert RefFields(fs, k, refs, fix) == RenamedColumns(s[k].fields, k.app, key, k == key, oldName, newName);
    assert s2[k].options.constraints == RenamedConstraints(s[k].options.constraints, k.app, key, k == key, oldName,
      newName);
  }

  /** The three steps together rename the column everywhere. */
  lemma StepsRename(s: State, key: ModelKey, refs: seq<FieldReference>, oldName: string, newName: string)
    requires key in s && HasField(s[key].fields, oldName)
    requires ListsReferences(ConstraintsRenamed(s, key, oldName, newName), key, oldName, refs)
    ensures RefsChanged(ConstraintsRenamed(s, key, oldName, newName), refs, f => FixColumn(f, oldName, newName))
         == RenameFieldIn(s, key, oldName, newName)
  {
    hide ListsReferences, ConstraintsRenamed, RenamedIn, RefFields;
    forall k | k in s
      ensures RefsChanged(ConstraintsRenamed(s, key, oldName, newName), refs, f => FixColumn(f, oldName, newName))[k]
           == RenamedIn(s[k], k, key, oldName, newName)
    {
      StepsRenameAt(s, key, refs, oldName, newName, k);
    }
  }

  /** The models once the constraints that point at key are repointed. */
  function ConstraintsRepointed(s: State, key: ModelKey, ref: string): (r: State)
    ensures r.Keys == s.Keys
  {
    map k | k in s :: s[k].(options := s[k].options.(constraints := RepointedConstraints(s[k].options.constraints,
      k.app, key, ref)))
  }

  lemma StepsRepoint(s: State, key: ModelKey, refs: seq<FieldReference>, ref: string)
    requires ListsReferences(ConstraintsRepointed(s, key, ref), key, "", refs)
    ensures RefsChanged(ConstraintsRepointed(s, key, ref), refs, f => FixTarget(f, ref)) == map k | k in s ::
      Repointed(s[k], k, key, ref)
  {
    var s2, fix := ConstraintsRepointed(s, key, ref), f => FixTarget(f, ref);
    forall k | k in s
      ensures RefsChanged(s2, refs, fix)[k] == Repointed(s[k], k, key, ref)
    {
      var fs := s2[k].fields;
      forall i | 0 <= i < |fs|
        ensures RefFields(fs, k, refs, fix)[i] == RepointedFields(s[k].fields, k.app, key, ref)[i]
      {
        assert Listed(refs, k, fs[i].name) <==> FieldReferences(k.app, fs[i].field, key, "");
        OnlyReferencesChange(fs[i].field, k.app, key, "", "", ref);
      }
      assert RefFields(fs, k, refs, fix) == RepointedFields(s[k].fields, k.app, key, ref);
    }
  }

  // --- Loops over lists of values ---

  method RenameStrings(xs: seq<string>, oldName: string, newName: string) returns (r: seq<string>)
    ensures r == RenameIn(xs, oldName, newName)
  {
    r := [];
    var i := 0;
    while i < |xs|
      invariant 0 <= i <= |xs| && |r| == i
      invariant forall j :: 0 <= j < i ==> r[j] == if xs[j] == oldName then newName else xs[j]
    {
      r := r + [if xs[i] == oldName then newName else xs[i]];
      i := i + 1;
    }
  }

  method RenameTogether(xss: seq<seq<string>>, oldName: string, newName: string) returns (r: seq<seq<string>>)
    ensures r == RenameInAll(xss, oldName, newName)
  {
    r := xss;
    var i := 0;
    while i < |xss|
      invariant 0 <= i <= |xss| && |r| == |xss|
      invariant forall j :: 0 <= j < |xss| ==> r[j] == if j < i then RenameIn(xss[j], oldName, newName) else xss[j]
    {
      var xs := RenameStrings(r[i], oldName, newName);
      r := r[i := xs];
      i := i + 1;
    }
  }

  method RenameIndexes(ixs: seq<Index>, oldName: string, newName: string) returns (r: seq<Index>)
    ensures r == RenameInIndexes(ixs, oldName, newName)
  {
    r := ixs;
    var i := 0;
    while i < |ixs|
      invariant 0 <= i <= |ixs| && |r| == |ixs|
      invariant forall j :: 0 <= j < |ixs| ==> r[j] == if j < i then RenameInIndex(ixs[j], oldName, newName) else ixs[j]
    {
      var fields, k := ixs[i].fields, 0;
      while k < |fields|
        invariant 0 <= k <= |fields| == |ixs[i].fields|
        invariant forall j :: 0 <= j < |fields| ==>
          fields[j] == if j < k then RenameIndexFields(ixs[i].fields, oldName, newName)[j] else ixs[i].fields[j]
      {
        if fields[k].column == oldName {
          fields := fields[k := fields[k].(column := newName)];
        }
        k := k + 1;
      }
      assert fields == RenameIndexFields(ixs[i].fields, oldName, newName);
      var include_ := RenameStrings(ixs[i].include_, oldName, newName);
      r := r[i := ixs[i].(fields := fields, include_ := include_)];
      i := i + 1;
    }
  }

  method RenameConstraints(cs: seq<Constraint>, oldName: string, newName: string) returns (r: seq<Constraint>)
    ensures r == RenamedOwn(cs, oldName, newName)
  {
    r := cs;
    var i := 0;
    while i < |cs|
      invariant 0 <= i <= |cs| && |r| == |cs|
      invariant forall j :: 0 <= j < |cs| ==> r[j] == if j < i then RenameColumn(cs[j], oldName, newName) else cs[j]
    {
      r := r[i := RenameColumn(cs[i], oldName, newName)];
      i := i + 1;
    }
  }

  method RenameTargets(cs: seq<Constraint>, app: string, key: ModelKey, oldName: string, newName: string)
      returns (r: seq<Constraint>)
    ensures r == RenamedTargets(cs, app, key, oldName, newName)
  {
    r := cs;
    var i := 0;
    while i < |cs|
      invariant 0 <= i <= |cs| && |r| == |cs|
      invariant forall j :: 0 <= j < |cs| ==> r[j] == if j < i then RenameTargetColumn(cs[j], app, key, oldName,
        newName) else cs[j]
    {
      if cs[i].ForeignKeyConstraint? && ResolveRelation(cs[i].to, app) == key {
        var toFields := RenameStrings(cs[i].toFields, oldName, newName);
        r := r[i := cs[i].(toFields := toFields)];
      }
      i := i + 1;
    }
  }

  method RepointConstraints(cs: seq<Constraint>, app: string, key: ModelKey, ref: string) returns (r: seq<Constraint>)
    ensures r == RepointedConstraints(cs, app, key, ref)
  {
    r := cs;
    var i := 0;
    while i < |cs|
      invariant 0 <= i <= |cs| && |r| == |cs|
      invariant forall j :: 0 <= j < |cs| ==> r[j] == if j < i then RepointConstraint(cs[j], app, key, ref) else cs[j]
    {
      if cs[i].ForeignKeyConstraint? && ResolveRelation(cs[i].to, app) == key {
        r := r[i := cs[i].(to := ref)];
      }
      i := i + 1;
    }
  }

  class ProjectState {
    var models: State

    constructor (models: State)
      ensures this.models == models
    {
      this.models := models;
    }

    /** The fields that reference the column of key, or any of its columns when the
        name is empty. */
    method GetReferences(key: ModelKey, column: string) returns (refs: seq<FieldReference>)
      requires AllDistinct(models)
      ensures ListsReferences(models, key, column, refs)
    {
      refs := [];
      var todo := models.Keys;
      while todo != {}
        invariant todo <= models.Keys
        invariant forall j :: 0 <= j < |refs| ==>
          refs[j].model in models && HasField(models[refs[j].model].fields, refs[j].name)
        invariant forall j :: 0 <= j < |refs| ==> refs[j].model !in todo
        invariant forall k, i :: k in models.Keys - todo && 0 <= i < |models[k].fields| ==>
          (Listed(refs, k, models[k].fields[i].name) <==>
            FieldReferences(k.app, models[k].fields[i].field, key, column))
        decreases todo
      {
        var k :| k in todo;
        var before := refs;
        refs := ModelReferences(k, key, column, refs);
        todo := todo - {k};
      }
    }

    method ModelReferences(k: ModelKey, key: ModelKey, column: string, before: seq<FieldReference>)
        returns (refs: seq<FieldReference>)
      requires AllDistinct(models) && k in models && forall j :: 0 <= j < |before| ==> before[j].model != k
      ensures before <= refs
      ensures forall j :: |before| <= j < |refs| ==> refs[j].model == k && HasField(models[k].fields, refs[j].name)
      ensures forall i :: 0 <= i < |models[k].fields| ==>
          (Listed(refs, k, models[k].fields[i].name) <==>
            FieldReferences(k.app, models[k].fields[i].field, key, column))
      ensures forall l, name :: l != k ==> (Listed(refs, l, name) <==> Listed(before, l, name))
    {
      refs := before;
      var fs := models[k].fields;
      assert DistinctNames(fs);
      var i := 0;
      while i < |fs|
        invariant 0 <= i <= |fs| && before <= refs
        invariant forall j :: |before| <= j < |refs| ==> refs[j].model == k && HasField(fs, refs[j].name)
        invariant forall j :: 0 <= j < |fs| ==>
          (Listed(refs, k, fs[j].name) <==> j < i && FieldReferences(k.app, fs[j].field, key, column))
        invariant forall l, name :: l != k ==> (Listed(refs, l, name) <==> Listed(before, l, name))
      {
        if FieldReferences(k.app, fs[i].field, key, column) {
          var ref := FieldReference(k, fs[i].name, fs[i].field);
          forall l, name
            ensures Listed(refs + [ref], l, name) <==> Listed(refs, l, name) || (l == k && name == ref.name)
          {
            ListedNext(refs, ref, l, name);
          }
          refs := refs + [ref];
        }
        i := i + 1;
      }
    }

    /** Change the listed fields, one after the other. */
    method ChangeReferences(refs: seq<FieldReference>, fix: Field -> Field)
      requires AllDistinct(models) && Idempotent(fix)
      requires forall j :: 0 <= j < |refs| ==>
        refs[j].model in models && HasField(models[refs[j].model].fields, refs[j].name)
      modifies this
      ensures models == RefsChanged(old(models), refs, fix)
    {
      ghost var s := models;
      NothingListed(s, fix);
      var j := 0;
      assert refs[..0] == [];
      while j < |refs|
        invariant 0 <= j <= |refs| && models == RefsChanged(s, refs[..j], fix)
      {
        var ref := refs[j];
        ChangedNext(s, refs[..j], ref, fix);
        var i := FieldIndex(models[ref.model].fields, ref.name);
        var fs := models[ref.model].fields;
        models := models[ref.model := models[ref.model].(fields := fs[i := NamedField(ref.name, fix(fs[i].field))])];
        assert refs[..j + 1] == refs[..j] + [ref];
        j := j + 1;
      }
      assert refs[..j] == refs;
    }

    /** Rename the columns that constraints of other models, or its own, point at. */
    method RenameAllTargets(key: ModelKey, oldName: string, newName: string)
      modifies this
      ensures models == map k | k in old(models) :: WithTargets(old(models)[k], k, key, oldName, newName)
    {
      ghost var s := models;
      var todo := models.Keys;
      while todo != {}
        invariant todo <= models.Keys == s.Keys
        invariant forall k :: k in s ==> models[k] == if k in todo then s[k]
          else WithTargets(s[k], k, key, oldName, newName)
        decreases todo
      {
        var k :| k in todo;
        var m := models[k];
        var cs := RenameTargets(m.options.constraints, k.app, key, oldName, newName);
        models := models[k := m.(options := m.options.(constraints := cs))];
        todo := todo - {k};
      }
    }

    /** Rename a column and every mention of it. Field names are distinct in every
        model, before and after. */
    method RenameField(app: string, model: string, oldName: string, newName: string) returns (err: Option<StateError>)
      requires KeyOf(app, model) in models && AllDistinct(models)
      requires var fs := models[KeyOf(app, model)].fields;
        HasField(fs, oldName) ==> DistinctNames(RenameOne(fs, FieldIndex(fs, oldName), newName))
      modifies this
      ensures err == if HasField(old(models)[KeyOf(app, model)].fields, oldName) then None
                     else Some(FieldDoesNotExist(KeyOf(app, model), oldName))
      ensures models == if err.None? then RenameFieldIn(old(models), KeyOf(app, model), oldName, newName)
        else old(models)
    {
      var key := KeyOf(app, model);
      var m := models[key];
      var i := FieldIndex(m.fields, oldName);
      if i < 0 {
        return Some(FieldDoesNotExist(key, oldName));
      }
      ghost var s := models;
      var together := RenameTogether(m.options.uniqueTogether, oldName, newName);
      var indexes := RenameIndexes(m.options.indexes, oldName, newName);
      var constraints := RenameConstraints(m.options.constraints, oldName, newName);
      var options := m.options.(uniqueTogether := together, indexes := indexes, constraints := constraints);
      models := models[key := m.(fields := m.fields[i := NamedField(newName, m.fields[i].field)], options := options)];
      assert models == s[key := OwnRenamed(m, oldName, newName)];
      RenameAllTargets(key, oldName, newName);
      assert models == ConstraintsRenamed(s, key, oldName, newName);
      StillDistinct(s, key, oldName, newName);
      var refs := GetReferences(key, oldName);
      StepsRename(s, key, refs, oldName, newName);
      ChangeReferences(refs, f => FixColumn(f, oldName, newName));
      return None;
    }

    /** Make every constraint that points at the model at key point at ref. */
    method RepointAllConstraints(key: ModelKey, ref: string)
      modifies this
      ensures models == ConstraintsRepointed(old(models), key, ref)
    {
      ghost var s := models;
      var todo := models.Keys;
      while todo != {}
        invariant todo <= models.Keys == s.Keys
        invariant forall k :: k in s ==>
          models[k] == if k in todo then s[k]
            else s[k].(options := s[k].options.(constraints := RepointedConstraints(s[k].options.constraints, k.app,
              key, ref)))
        decreases todo
      {
        var k :| k in todo;
        var m := models[k];
        var cs := RepointConstraints(m.options.constraints, k.app, key, ref);
        models := models[k := m.(options := m.options.(constraints := cs))];
        todo := todo - {k};
      }
    }

    /** Rename a model and repoint what points at it. The renamed model goes in
        first, so that its own references are repointed too. */
    method RenameModel(app: string, oldName: string, newName: string)
      requires KeyOf(app, oldName) in models && AllDistinct(models)
      modifies this
      ensures models == RenameModelIn(old(models), app, oldName, newName)
    {
      var oldKey, newKey, ref := KeyOf(app, oldName), KeyOf(app, newName), app + "." + newName;
      models := models[newKey := models[oldKey].(name := newName)];
      ghost var added := models;
      RepointAllConstraints(oldKey, ref);
      assert AllDistinct(models);
      var refs := GetReferences(oldKey, "");
      StepsRepoint(added, oldKey, refs, ref);
      ChangeReferences(refs, f => FixTarget(f, ref));
      if newKey != oldKey {
        models := models - {oldKey};
      }
    }
  }

  lemma StillDistinct(s: State, key: ModelKey, oldName: string, newName: string)
    requires key in s && AllDistinct(s) && HasField(s[key].fields, oldName)
    requires DistinctNames(RenameOne(s[key].fields, FieldIndex(s[key].fields, oldName), newName))
    ensures AllDistinct(ConstraintsRenamed(s, key, oldName, newName))
  {
    var r := ConstraintsRenamed(s, key, oldName, newName);
    forall k | k in r
      ensures DistinctNames(r[k].fields)
    {
      assert r[k].fields == if k == key then RenameOne(s[k].fields, FieldIndex(s[k].fields, oldName), newName)
        else s[k].fields;
    }
  }
}
