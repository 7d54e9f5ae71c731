/** The values a project state is made of: fields, indexes, constraints and
    models, with the comparison the autodetector uses. */
module ModelStates {
  import opened Wrappers
  import opened Names

  datatype ForeignKey = ForeignKey(to: string, toField: string, onDelete: string, onUpdate: string, name: string)

  datatype DBDefault = Value(value: string) | Expr(sql: string)

  /** The attributes of a column that no operation looks into. */
  datatype ColumnType = ColumnType(
    dataType: string, size: int, precision: int, scale: int,
    autoIncrement: bool, autoIncrementIncrement: int, dbDefault: Option<DBDefault>, comment: string,
    custom: Option<string>, tags: map<string, string>, autoNowAdd: bool, autoNow: bool, serializer: string)

  /** One column. default is the one-off value for rows that exist already. */
  datatype Field = Field(
    column: ColumnType, primaryKey: bool, unique: bool, nullable: bool,
    default: Option<string>, foreignKey: Option<ForeignKey>)

  datatype NamedField = NamedField(name: string, field: Field)

  type Fields = seq<NamedField>

  datatype IndexField = IndexField(column: string, expression: string, sort: string, collate: string, length: int)

  datatype Index = Index(
    name: string, fields: seq<IndexField>, unique: bool, class_: string, method_: string, where_: string,
    include_: seq<string>, opClasses: seq<string>, comment: string, option: string)

  datatype Constraint =
    | CheckConstraint(name: string, check: string, message: string)
    | UniqueConstraint(
        name: string, fields: seq<string>, condition: string, deferrable: string, include_: seq<string>,
        nullsDistinct: Option<bool>, message: string)
    | ForeignKeyConstraint(
        name: string, fields: seq<string>, to: string, toFields: seq<string>, onDelete: string, onUpdate: string)

  datatype ClickHouseTable = ClickHouseTable(
    engine: string, orderBy: string, partitionBy: string, primaryKey: string, settings: string)

  datatype Options = Options(
    managed: Option<bool>, tableComment: string, uniqueTogether: seq<seq<string>>, indexes: seq<Index>,
    constraints: seq<Constraint>, autoCreated: bool, clickHouse: Option<ClickHouseTable>)

  datatype ModelState = ModelState(app: string, name: string, table: string, fields: Fields, options: Options)

  predicate IsManaged(o: Options) {
    o.managed != Some(false)
  }

  /** The position of the field called name, or -1. */
  function FieldIndex(fs: Fields, name: string): (i: int)
    ensures -1 <= i < |fs|
    ensures i >= 0 ==> fs[i].name == name && forall j :: 0 <= j < i ==> fs[j].name != name
    ensures i < 0 ==> forall j :: 0 <= j < |fs| ==> fs[j].name != name
  {
    if fs == [] then -1
    else
      var i := FieldIndex(fs[..|fs| - 1], name);
      if i >= 0 then i else if fs[|fs| - 1].name == name then |fs| - 1 else -1
  }

  predicate HasField(fs: Fields, name: string) {
    FieldIndex(fs, name) >= 0
  }

  // --- Comparison ---

  /** Deconstruction equality: the target of a relation is compared without case. */
  predicate FieldEqual(a: Field, b: Field) {
    && a.(foreignKey := None) == b.(foreignKey := None)
    && a.foreignKey.Some? == b.foreignKey.Some?
    && (a.foreignKey.Some? ==>
          && EqualFold(a.foreignKey.value.to, b.foreignKey.value.to)
          && a.foreignKey.value.(to := "") == b.foreignKey.value.(to := ""))
  }
}
