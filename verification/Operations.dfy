/** The operations a migration is made of. */
module Operations {
  import opened Wrappers
  import opened Names
  import opened ModelStates

  datatype Operation =
    | CreateModel(name: string, table: string, fields: Fields, options: Options)
    | DeleteModel(name: string)
    | RenameModel(oldName: string, newName: string)
    | AlterModelTable(name: string, table: string)
    | AlterModelTableComment(name: string, tableComment: string)
    | AlterUniqueTogether(name: string, uniqueTogether: seq<seq<string>>)
    | AlterModelOptions(name: string, managed: Option<bool>)
    | AddIndex(modelName: string, index: Index)
    | RemoveIndex(modelName: string, name: string)
    | RenameIndex(modelName: string, newName: string, oldName: string)
    | AddConstraint(modelName: string, constraint: Constraint)
    | RemoveConstraint(modelName: string, name: string)
    | AlterConstraint(modelName: string, name: string, constraint: Constraint)
    | AddField(modelName: string, name: string, field: Field, preserveDefault: Option<bool>)
    | RemoveField(modelName: string, name: string)
    | AlterField(modelName: string, name: string, field: Field, preserveDefault: Option<bool>)
    | RenameField(modelName: string, oldName: string, newName: string)
    | SeparateDatabaseAndState(databaseOperations: seq<Operation>, stateOperations: seq<Operation>)
    | RunSQL(sql: string, reverseSql: Option<string>, stateOperations: seq<Operation>, elidable: bool)
    | RunGo(code: string, reverseCode: Option<string>, elidable: bool)

  /** Whether dropping the operation changes nothing that matters. */
  predicate Elidable(op: Operation) {
    (op.RunSQL? || op.RunGo?) && op.elidable
  }

  predicate Reversible(op: Operation) {
    match op
    case RunSQL(_, reverse, _, _) => reverse.Some?
    case RunGo(_, reverse, _) => reverse.Some?
    case _ => true
  }
}
