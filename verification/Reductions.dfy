/** When one operation can be folded into another, or moved across it. */
module Reductions {
  import opened Wrappers
  import opened Names
  import opened ModelStates
  import opened Operations
  import opened States

  /** What an operation and the one after it come to. */
  datatype Reduction = Block | Through | Replace(ops: seq<Operation>)

  // --- What an operation touches ---

  /** Whether the field of a model called modelName points at the named column of
      the model ref, or at any column of it when the name is empty. */
  predicate FieldReferences(app: string, f: Field, ref: ModelKey, column: string) {
    && f.foreignKey.Some? && ResolveRelation(f.foreignKey.value.to, app) == ref
    && (column == "" || f.foreignKey.value.toField == "" || f.foreignKey.value.toField == column)
  }

  predicate AnyFieldReferences(app: string, fs: Fields, ref: ModelKey) {
    exists i :: 0 <= i < |fs| && FieldReferences(app, fs[i].field, ref, "")
  }

  predicate ReferencesModel(op: Operation, name: string, app: string) {
    match op
    case CreateModel(own, _, fields, _) => EqualFold(name, own) || AnyFieldReferences(app, fields, KeyOf(app, name))
    case RenameModel(oldName, newName) => EqualFold(name, oldName) || EqualFold(name, newName)
    case AlterModelTable(own, _) => EqualFold(name, own)
    case AlterModelTableComment(own, _) => EqualFold(name, own)
    case AlterUniqueTogether(own, _) => EqualFold(name, own)
    case AlterModelOptions(own, _) => EqualFold(name, own)
    case AddField(model, _, field, _) => EqualFold(name, model) || FieldReferences(app, field, KeyOf(app, name), "")
    case AlterField(model, _, field, _) => EqualFold(name, model) || FieldReferences(app, field, KeyOf(app, name), "")
    case RemoveField(model, _) => EqualFold(name, model)
    case RenameField(model, _, _) => EqualFold(name, model)
    case _ => true
  }

  predicate MentionsColumn(together: seq<seq<string>>, column: string) {
    exists i :: 0 <= i < |together| && column in together[i]
  }

  predicate ReferencesField(op: Operation, model: string, name: string, app: string) {
    match op
    case AddField(own, column, field, _) =>
      (EqualFold(model, own) && name == column) || FieldReferences(app, field, KeyOf(app, model), name)
    case AlterField(own, column, field, _) =>
      (EqualFold(model, own) && name == column) || FieldReferences(app, field, KeyOf(app, model), name)
    case RemoveField(own, column) => EqualFold(model, own) && name == column
    case RenameField(own, oldName, newName) =>
      EqualFold(model, own) && (EqualFold(name, oldName) || EqualFold(name, newName))
    case AlterUniqueTogether(own, together) =>
      EqualFold(model, own) && (together == [] || MentionsColumn(together, name))
    case RunSQL(_, _, _, _) => true
    case RunGo(_, _, _) => true
    case SeparateDatabaseAndState(_, _) => true
    case _ => ReferencesModel(op, model, app)
  }

  // --- Reducing ---

  /** Elidable operations drop out, others block. */
  function BaseReduce(op: Operation, other: Operation): Reduction {
    if Elidable(op) then Replace([other]) else if Elidable(other) then Replace([op]) else Block
  }

  function FieldOpReduce(op: Operation, model: string, column: string, other: Operation, app: string): Reduction {
    var base := BaseReduce(op, other);
    if base.Replace? then base
    else if !ReferencesField(other, model, column, app) then Through
    else Block
  }

  function ModelOpReduce(op: Operation, model: string, other: Operation, app: string): Reduction {
    var base := BaseReduce(op, other);
    if base.Replace? then base
    else if !ReferencesModel(other, model, app) then Through
    else Block
  }

  /** The model and column of a field operation; a rename goes by the old name. */
  function FieldOf(op: Operation): Option<(string, string)> {
    match op
    case AddField(model, name, _, _) => Some((model, name))
    case RemoveField(model, name) => Some((model, name))
    case AlterField(model, name, _, _) => Some((model, name))
    case RenameField(model, oldName, _) => Some((model, oldName))
    case _ => None
  }

  predicate SameField(a: Operation, b: Operation) {
    && FieldOf(a).Some? && FieldOf(b).Some?
    && EqualFold(FieldOf(a).value.0, FieldOf(b).value.0) && EqualFold(FieldOf(a).value.1, FieldOf(b).value.1)
  }

  function ReduceAddField(op: Operation, other: Operation, app: string): Reduction
    requires op.AddField?
  {
    if SameField(op, other) && other.AlterField? then
      Replace([AddField(op.modelName, other.name, other.field, op.preserveDefault)])
    else if SameField(op, other) && other.RemoveField? then Replace([])
    else if SameField(op, other) && other.RenameField? then
      Replace([AddField(op.modelName, other.newName, op.field, op.preserveDefault)])
    else FieldOpReduce(op, op.modelName, op.name, other, app)
  }

  function ReduceRemoveField(op: Operation, other: Operation, app: string): Reduction
    requires op.RemoveField?
  {
    if other.DeleteModel? && EqualFold(other.name, op.modelName) then Replace([other])
    else FieldOpReduce(op, op.modelName, op.name, other, app)
  }

  function ReduceAlterField(op: Operation, other: Operation, app: string): Reduction
    requires op.AlterField?
  {
    if SameField(op, other) && (other.AlterField? || other.RemoveField?) then Replace([other])
    else if SameField(op, other) && other.RenameField? then
      Replace([other, AlterField(op.modelName, other.newName, op.field, op.preserveDefault)])
    else FieldOpReduce(op, op.modelName, op.name, other, app)
  }

  function ReduceRenameField(op: Operation, other: Operation, app: string): Reduction
    requires op.RenameField?
  {
    if other.RenameField? && EqualFold(op.modelName, other.modelName) && EqualFold(op.newName, other.oldName)
    then Replace([RenameField(op.modelName, op.oldName, other.newName)])
    else
      var base := BaseReduce(op, other);
      if base.Replace? then base
      else if !ReferencesField(other, op.modelName, op.oldName, app) &&
        !ReferencesField(other, op.modelName, op.newName, app)
      then Through
      else Block
  }

  function ReduceFieldOp(op: Operation, other: Operation, app: string): Reduction
    requires FieldOf(op).Some?
  {
    match op
    case AddField(_, _, _, _) => ReduceAddField(op, other, app)
    case RemoveField(_, _) => ReduceRemoveField(op, other, app)
    case AlterField(_, _, _, _) => ReduceAlterField(op, other, app)
    case RenameField(_, _, _) => ReduceRenameField(op, other, app)
  }
}
