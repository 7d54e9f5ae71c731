/** The state of a project's models, and how each kind of change acts on it. */
module States {
  import opened Wrappers
  import opened Names
  import opened ModelStates
  import opened Operations

  type State = map<ModelKey, ModelState>

  datatype StateError = ModelNotFound(key: ModelKey) | FieldDoesNotExist(key: ModelKey,
    field: string) | ValueError(message: string)

  // --- Qualified targets ---

  function QualifyField(f: Field, app: string): Field {
    if f.foreignKey.None? || HasDot(f.foreignKey.value.to) then f
    else f.(foreignKey := Some(f.foreignKey.value.(to := app + "." + f.foreignKey.value.to)))
  }

  function QualifyFields(fs: Fields, app: string): (r: Fields)
    ensures |r| == |fs|
  {
    seq(|fs|, i requires 0 <= i < |fs| => NamedField(fs[i].name, QualifyField(fs[i].field, app)))
  }

  function QualifyConstraint(c: Constraint, app: string): Constraint {
    if !c.ForeignKeyConstraint? || c.to == "" || HasDot(c.to) then c else c.(to := app + "." + c.to)
  }

  function QualifyConstraints(cs: seq<Constraint>, app: string): (r: seq<Constraint>)
    ensures |r| == |cs|
  {
    seq(|cs|, i requires 0 <= i < |cs| => QualifyConstraint(cs[i], app))
  }

  /** The model as a project state stores it. */
  function Qualified(m: ModelState): ModelState {
    m.(fields := QualifyFields(m.fields, m.app),
       options := m.options.(constraints := QualifyConstraints(m.options.constraints, m.app)))
  }

  // --- Validation ---

  predicate DistinctNames(fs: Fields) {
    forall i, j :: 0 <= i < j < |fs| ==> fs[i].name != fs[j].name
  }

  predicate ConstraintShape(c: Constraint) {
    c.ForeignKeyConstraint? ==> c.fields != [] && |c.fields| == |c.toFields| && c.to != ""
  }

  /** What a model has to satisfy to be created. */
  predicate ValidModel(m: ModelState) {
    && DistinctNames(m.fields)
    && (forall i :: 0 <= i < |m.options.indexes| ==> m.options.indexes[i].name != "")
    && (forall i :: 0 <= i < |m.options.constraints| ==> ConstraintShape(m.options.constraints[i]))
  }

  // --- Changes to one model ---

  function Preserve(p: Option<bool>): bool {
    p != Some(false)
  }

  /** The field as it enters a state of app. */
  function Entering(f: Field, app: string, preserve: bool): Field {
    var q := QualifyField(f, app);
    if preserve then q else q.(default := None)
  }

  function WithFields(m: ModelState, fs: Fields): ModelState {
    m.(fields := fs)
  }

  function WithOptions(m: ModelState, o: Options): ModelState {
    m.(options := o)
  }

  function RemoveAt<T>(s: seq<T>, i: nat): seq<T>
    requires i < |s|
  {
    s[..i] + s[i + 1..]
  }

  /** The indexes that do not have the name. */
  function WithoutIndex(ixs: seq<Index>, name: string): seq<Index> {
    if ixs == [] then []
    else
      WithoutIndex(ixs[..|ixs| - 1], name) + if ixs[|ixs| - 1].name == name then [] else [ixs[|ixs| - 1]]
  }

  function WithoutConstraint(cs: seq<Constraint>, name: string): seq<Constraint> {
    if cs == [] then []
    else
      WithoutConstraint(cs[..|cs| - 1], name) + if cs[|cs| - 1].name == name then [] else [cs[|cs| - 1]]
  }

  predicate HasIndex(ixs: seq<Index>, name: string) {
    exists i :: 0 <= i < |ixs| && ixs[i].name == name
  }

  function RenamedIndexes(ixs: seq<Index>, oldName: string, newName: string): seq<Index> {
    seq(|ixs|, i requires 0 <= i < |ixs| => if ixs[i].name == oldName then ixs[i].(name := newName) else ixs[i])
  }

  function AlteredConstraints(cs: seq<Constraint>, name: string, c: Constraint): seq<Constraint> {
    seq(|cs|, i requires 0 <= i < |cs| => if cs[i].name == name then c else cs[i])
  }

  /** What an operation on one model, other than creating, deleting or renaming,
      makes of that model. */
  function ChangeModel(op: Operation, app: string, m: ModelState): Result<ModelState, StateError> {
    var o := m.options;
    match op
    case AlterModelTable(_, table) => Ok(m.(table := table))
    case AlterModelTableComment(_, comment) => Ok(WithOptions(m, o.(tableComment := comment)))
    case AlterUniqueTogether(_, together) => Ok(WithOptions(m, o.(uniqueTogether := together)))
    case AlterModelOptions(_, managed) => Ok(WithOptions(m, o.(managed := managed)))
    case AddIndex(_, index) =>
      if index.name == "" then Err(ValueError("indexes require a name"))
      else Ok(WithOptions(m, o.(indexes := o.indexes + [index])))
    case RemoveIndex(_, name) =>
      if HasIndex(o.indexes, name) then Ok(WithOptions(m, o.(indexes := WithoutIndex(o.indexes, name))))
      else Err(ValueError("no such index"))
    case RenameIndex(_, newName, oldName) =>
      if oldName == "" then Err(ValueError("RenameIndex requires old_name"))
      else Ok(WithOptions(m, o.(indexes := RenamedIndexes(o.indexes, oldName, newName))))
    case AddConstraint(_, c) =>
      Ok(WithOptions(m, o.(constraints := o.constraints + [QualifyConstraint(c, app)])))
    case RemoveConstraint(_, name) =>
      Ok(WithOptions(m, o.(constraints := WithoutConstraint(o.constraints, name))))
    case AlterConstraint(_, name, c) =>
      Ok(WithOptions(m, o.(constraints := AlteredConstraints(o.constraints, name, QualifyConstraint(c, app)))))
    case AddField(_, name, field, preserve) =>
      Ok(WithFields(m, m.fields + [NamedField(name, Entering(field, app, Preserve(preserve)))]))
    case RemoveField(model, name) =>
      var i := FieldIndex(m.fields, name);
      if i < 0 then Err(FieldDoesNotExist(KeyOf(app, model), name)) else Ok(WithFields(m, RemoveAt(m.fields, i)))
    case AlterField(model, name, field, preserve) =>
      var i := FieldIndex(m.fields, name);
      if i < 0 then Err(FieldDoesNotExist(KeyOf(app, model), name))
      else Ok(WithFields(m, m.fields[i := NamedField(name, Entering(field, app, Preserve(preserve)))]))
    case _ => Ok(m)
  }

  /** The model an operation changes, for those that change just one. */
  function ChangedModel(op: Operation): Option<string> {
    match op
    case AlterModelTable(name, _) => Some(name)
    case AlterModelTableComment(name, _) => Some(name)
    case AlterUniqueTogether(name, _) => Some(name)
    case AlterModelOptions(name, _) => Some(name)
    case AddIndex(name, _) => Some(name)
    case RemoveIndex(name, _) => Some(name)
    case RenameIndex(name, _, _) => Some(name)
    case AddConstraint(name, _) => Some(name)
    case RemoveConstraint(name, _) => Some(name)
    case AlterConstraint(name, _, _) => Some(name)
    case AddField(name, _, _, _) => Some(name)
    case RemoveField(name, _) => Some(name)
    case AlterField(name, _, _, _) => Some(name)
    case _ => None
  }

  // --- Renames ---

  function RenameIn(xs: seq<string>, oldName: string, newName: string): (r: seq<string>)
    ensures |r| == |xs|
  {
    seq(|xs|, i requires 0 <= i < |xs| => if xs[i] == oldName then newName else xs[i])
  }

  function RenameInAll(xss: seq<seq<string>>, oldName: string, newName: string): (r: seq<seq<string>>)
    ensures |r| == |xss|
  {
    seq(|xss|, i requires 0 <= i < |xss| => RenameIn(xss[i], oldName, newName))
  }

  function RenameIndexFields(fs: seq<IndexField>, oldName: string, newName: string): (r: seq<IndexField>)
    ensures |r| == |fs|
  {
    seq(|fs|, i requires 0 <= i < |fs| => if fs[i].column == oldName then fs[i].(column := newName) else fs[i])
  }

  function RenameInIndex(ix: Index, oldName: string, newName: string): Index {
    ix.(fields := RenameIndexFields(ix.fields, oldName, newName), include_ := RenameIn(ix.include_, oldName, newName))
  }

  function RenameInIndexes(ixs: seq<Index>, oldName: string, newName: string): (r: seq<Index>)
    ensures |r| == |ixs|
  {
    seq(|ixs|, i requires 0 <= i < |ixs| => RenameInIndex(ixs[i], oldName, newName))
  }

  /** A constraint of the model whose column is renamed. */
  function RenameColumn(c: Constraint, oldName: string, newName: string): Constraint {
    match c
    case CheckConstraint(_, _, _) => c
    case UniqueConstraint(_, fields, _, _, include_, _, _) =>
      c.(fields := RenameIn(fields, oldName, newName), include_ := RenameIn(include_, oldName, newName))
    case ForeignKeyConstraint(_, fields, _, _, _, _) => c.(fields := RenameIn(fields, oldName, newName))
  }

  /** A constraint of a model of app, when the column of key is renamed. */
  function RenameTargetColumn(c: Constraint, app: string, key: ModelKey, oldName: string, newName: string): Constraint {
    if c.ForeignKeyConstraint? && ResolveRelation(c.to, app) == key
    then c.(toFields := RenameIn(c.toFields, oldName, newName))
    else c
  }

  /** A field of a model of app, when the column of key is renamed. */
  function RenameTargetField(f: Field, app: string, key: ModelKey, oldName: string, newName: string): Field {
    if f.foreignKey.Some? && ResolveRelation(f.foreignKey.value.to, app) == key && f.foreignKey.value.toField == oldName
    then f.(foreignKey := Some(f.foreignKey.value.(toField := newName)))
    else f
  }

  function RenamedColumns(fs: Fields, app: string, key: ModelKey, here: bool, oldName: string,
      newName: string): (r: Fields)
    ensures |r| == |fs|
  {
    seq(|fs|, i requires 0 <= i < |fs| =>
      NamedField(
        if here && i == FieldIndex(fs, oldName) then newName else fs[i].name,
        RenameTargetField(fs[i].field, app, key, oldName, newName)))
  }

  function RenamedConstraints(cs: seq<Constraint>, app: string, key: ModelKey, here: bool, oldName: string,
      newName: string): (r: seq<Constraint>)
    ensures |r| == |cs|
  {
    seq(|cs|, i requires 0 <= i < |cs| =>
      RenameTargetColumn(if here then RenameColumn(cs[i], oldName, newName) else cs[i], app, key, oldName, newName))
  }

  /** What renaming the column of key makes of the model at k. */
  function RenamedIn(m: ModelState, k: ModelKey, key: ModelKey, oldName: string, newName: string): ModelState {
    var o, here := m.options, k == key;
    m.(fields := RenamedColumns(m.fields, k.app, key, here, oldName, newName),
       options := o.(
         uniqueTogether := if here then RenameInAll(o.uniqueTogether, oldName, newName) else o.uniqueTogether,
         indexes := if here then RenameInIndexes(o.indexes, oldName, newName) else o.indexes,
         constraints := RenamedConstraints(o.constraints, k.app, key, here, oldName, newName)))
  }

  function RenameFieldIn(s: State, key: ModelKey, oldName: string, newName: string): (r: State)
    ensures r.Keys == s.Keys
  {
    map k | k in s :: RenamedIn(s[k], k, key, oldName, newName)
  }

  /** A field of a model of app, repointed from the model at key. */
  function RepointField(f: Field, app: string, key: ModelKey, ref: string): Field {
    if f.foreignKey.Some? && ResolveRelation(f.foreignKey.value.to, app) == key
    then f.(foreignKey := Some(f.foreignKey.value.(to := ref)))
    else f
  }

  function RepointConstraint(c: Constraint, app: string, key: ModelKey, ref: string): Constraint {
    if c.ForeignKeyConstraint? && ResolveRelation(c.to, app) == key then c.(to := ref) else c
  }

  function Repointed(m: ModelState, k: ModelKey, key: ModelKey, ref: string): ModelState {
    m.(fields := RepointedFields(m.fields, k.app, key, ref),
       options := m.options.(constraints := RepointedConstraints(m.options.constraints, k.app, key, ref)))
  }

  function RepointedFields(fs: Fields, app: string, key: ModelKey, ref: string): (r: Fields)
    ensures |r| == |fs|
  {
    seq(|fs|, i requires 0 <= i < |fs| => NamedField(fs[i].name, RepointField(fs[i].field, app, key, ref)))
  }

  function RepointedConstraints(cs: seq<Constraint>, app: string, key: ModelKey, ref: string): (r: seq<Constraint>)
    ensures |r| == |cs|
  {
    seq(|cs|, i requires 0 <= i < |cs| => RepointConstraint(cs[i], app, key, ref))
  }

  function RenameModelIn(s: State, app: string, oldName: string, newName: string): State
    requires KeyOf(app, oldName) in s
  {
    var oldKey, newKey := KeyOf(app, oldName), KeyOf(app, newName);
    var added := s[newKey := s[oldKey].(name := newName)];
    var repointed := map k | k in added :: Repointed(added[k], k, oldKey, app + "." + newName);
    if newKey != oldKey then repointed - {oldKey} else repointed
  }

  // --- Operations on a state ---

  function NewModel(op: Operation, app: string): ModelState
    requires op.CreateModel?
  {
    ModelState(app, op.name, op.table, op.fields, op.options)
  }

  /** What an operation of app's migration makes of the state. */
  function Forwards(op: Operation, app: string, s: State): Result<State, StateError>
    decreases op
  {
    match op
    case CreateModel(name, _, _, _) =>
      if ValidModel(NewModel(op, app)) then Ok(s[KeyOf(app, name) := Qualified(NewModel(op, app))])
      else Err(ValueError("invalid model"))
    case DeleteModel(name) =>
      if KeyOf(app, name) in s then Ok(s - {KeyOf(app, name)}) else Err(ModelNotFound(KeyOf(app, name)))
    case RenameModel(oldName, newName) =>
      if KeyOf(app, oldName) in s then Ok(RenameModelIn(s, app, oldName, newName))
      else Err(ModelNotFound(KeyOf(app, oldName)))
    case RenameField(model, oldName, newName) =>
      var key := KeyOf(app, model);
      if key !in s then Err(ModelNotFound(key))
      else if !HasField(s[key].fields, oldName) then Err(FieldDoesNotExist(key, oldName))
      else Ok(RenameFieldIn(s, key, oldName, newName))
    case SeparateDatabaseAndState(_, stateOperations) => ForwardsAll(stateOperations, app, s)
    case RunSQL(_, _, stateOperations, _) => ForwardsAll(stateOperations, app, s)
    case RunGo(_, _, _) => Ok(s)
    case _ => ChangeOne(op, app, s)
  }

  function ChangeOne(op: Operation, app: string, s: State): Result<State, StateError>
    requires ChangedModel(op).Some?
  {
    var key := KeyOf(app, ChangedModel(op).value);
    if op.AddIndex? && op.index.name == "" then Err(ValueError("indexes require a name"))
    else if op.RenameIndex? && op.oldName == "" then Err(ValueError("RenameIndex requires old_name"))
    else if key !in s then Err(ModelNotFound(key))
    else
      match ChangeModel(op, app, s[key])
      case Ok(m) => Ok(s[key := m])
      case Err(e) => Err(e)
  }

  function ForwardsAll(ops: seq<Operation>, app: string, s: State): Result<State, StateError>
    decreases ops
  {
    if ops == [] then Ok(s)
    else
      match Forwards(ops[0], app, s)
      case Ok(next) => ForwardsAll(ops[1..], app, next)
      case Err(e) => Err(e)
  }
}
