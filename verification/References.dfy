/** The parts of a deferred statement that follow renames, and what a statement
    built before the renames has in common with one built after them. */
module References {
  import opened Wrappers
  import opened States

  /** A part of a statement. A name with a suffix is spelled from its table and
      columns when it is needed. */
  datatype Ref =
    | TableRef(table: string)
    | ColumnsRef(table: string, names: seq<string>, suffixes: seq<string>)
    | NameRef(
        value: string, table: string, names: seq<string>, toTable: string, toNames: seq<string>,
        suffix: string, maxLength: int)
    | ExpressionsRef(table: string, sql: string)
    | Literal(text: string)

  predicate ReferencesTable(r: Ref, table: string) {
    match r
    case TableRef(t) => t == table
    case ColumnsRef(t, _, _) => t == table
    case NameRef(_, t, _, to, _, _, _) => t == table || (to != "" && to == table)
    case ExpressionsRef(t, _) => t == table
    case Literal(_) => false
  }

  predicate ReferencesColumn(r: Ref, table: string, column: string) {
    match r
    case ColumnsRef(t, names, _) => t == table && column in names
    case NameRef(_, t, names, to, toNames, _, _) => (t == table && column in names) ||
      (to == table && column in toNames)
    case _ => false
  }

  function RenameTable(r: Ref, oldTable: string, newTable: string): Ref {
    match r
    case TableRef(t) => TableRef(Renamed(t, oldTable, newTable))
    case ColumnsRef(t, names, suffixes) => ColumnsRef(Renamed(t, oldTable, newTable), names, suffixes)
    case NameRef(v, t, names, to, toNames, suffix, n) =>
      NameRef(v, Renamed(t, oldTable, newTable), names, Renamed(to, oldTable, newTable), toNames, suffix, n)
    case ExpressionsRef(t, sql) => ExpressionsRef(Renamed(t, oldTable, newTable), sql)
    case Literal(_) => r
  }

  function Renamed(x: string, oldName: string, newName: string): string {
    if x == oldName then newName else x
  }

  function RenameColumn(r: Ref, table: string, oldColumn: string, newColumn: string): Ref {
    match r
    case ColumnsRef(t, names, suffixes) =>
      if t == table then ColumnsRef(t, RenameIn(names, oldColumn, newColumn), suffixes) else r
    case NameRef(v, t, names, to, toNames, suffix, n) =>
      NameRef(
        v, t, if t == table then RenameIn(names, oldColumn, newColumn) else names,
        to, if to == table then RenameIn(toNames, oldColumn, newColumn) else toNames, suffix, n)
    case _ => r
  }

  // --- Statements built from tables and columns, not from names ---

  datatype ColumnId = ColumnId(table: nat, column: nat)

  /** The tables and columns there are, and what they are called. */
  datatype Catalog = Catalog(tables: map<nat, string>, columns: map<ColumnId, string>)

  /** No two tables, and no two columns of a table, have the same name. */
  ghost predicate Unambiguous(cat: Catalog) {
    && (forall t :: t in cat.tables ==> cat.tables[t] != "")
    && (forall t, u :: t in cat.tables && u in cat.tables && cat.tables[t] == cat.tables[u] ==> t == u)
    && (forall c, d :: c in cat.columns && d in cat.columns && c.table == d.table && cat.columns[c] == cat.columns[d] ==> c == d)
  }

  /** A part that says which table and columns it is about. */
  datatype Template =
    | OfTable(table: nat)
    | OfColumns(table: nat, columns: seq<nat>, suffixes: seq<string>)
    | OfName(
        value: string, table: nat, columns: seq<nat>, to: Option<nat>, toColumns: seq<nat>,
        suffix: string, maxLength: int)
    | Fixed(text: string)

  predicate Known(cat: Catalog, t: nat, cols: seq<nat>) {
    t in cat.tables && forall i :: 0 <= i < |cols| ==> ColumnId(t, cols[i]) in cat.columns
  }

  predicate KnownParts(cat: Catalog, p: Template) {
    match p
    case OfTable(t) => t in cat.tables
    case OfColumns(t, cols, _) => Known(cat, t, cols)
    case OfName(_, t, cols, to, toCols, _, _) =>
      Known(cat, t, cols) && if to.Some? then Known(cat, to.value, toCols) else toCols == []
    case Fixed(_) => true
  }

  function ColumnNames(cat: Catalog, t: nat, cols: seq<nat>): (r: seq<string>)
    requires Known(cat, t, cols)
    ensures |r| == |cols|
  {
    seq(|cols|, i requires 0 <= i < |cols| => cat.columns[ColumnId(t, cols[i])])
  }

  /** The part spelled with the names of the catalog. */
  function Build(p: Template, cat: Catalog): Ref
    requires KnownParts(cat, p)
  {
    match p
    case OfTable(t) => TableRef(cat.tables[t])
    case OfColumns(t, cols, suffixes) => ColumnsRef(cat.tables[t], ColumnNames(cat, t, cols), suffixes)
    case OfName(v, t, cols, to, toCols, suffix, n) =>
      NameRef(
        v, cat.tables[t], ColumnNames(cat, t, cols),
        if to.Some? then cat.tables[to.value] else "",
        if to.Some? then ColumnNames(cat, to.value, toCols) else [], suffix, n)
    case Fixed(text) => Literal(text)
  }

  /** A rename of a table or of a column. */
  datatype Rename = TableTo(table: nat, name: string) | ColumnTo(id: ColumnId, name: string)

  /** The new name is not in use. */
  ghost predicate FreshRename(cat: Catalog, r: Rename) {
    match r
    case TableTo(t, name) => t in cat.tables && name != "" && forall u :: u in cat.tables ==> cat.tables[u] != name
    case ColumnTo(id, name) =>
      id in cat.columns && id.table in cat.tables && forall d :: d in cat.columns && d.table == id.table ==>
        cat.columns[d] != name
  }

  function After(cat: Catalog, r: Rename): Catalog {
    match r
    case TableTo(t, name) => cat.(tables := cat.tables[t := name])
    case ColumnTo(id, name) => cat.(columns := cat.columns[id := name])
  }

  /** What the rename does to a part that was spelled before it. */
  function Follow(ref: Ref, cat: Catalog, r: Rename): Ref
    requires r.TableTo? ==> r.table in cat.tables
    requires r.ColumnTo? ==> r.id in cat.columns && r.id.table in cat.tables
  {
    match r
    case TableTo(t, name) => RenameTable(ref, cat.tables[t], name)
    case ColumnTo(id, name) => RenameColumn(ref, cat.tables[id.table], cat.columns[id], name)
  }

  lemma StillUnambiguous(cat: Catalog, r: Rename)
    requires Unambiguous(cat) && FreshRename(cat, r)
    ensures Unambiguous(After(cat, r))
  {}

  lemma ColumnsFollow(cat: Catalog, id: ColumnId, name: string, t: nat, cols: seq<nat>)
    requires Unambiguous(cat) && FreshRename(cat, ColumnTo(id, name)) && Known(cat, t, cols)
    ensures Known(After(cat, ColumnTo(id, name)), t, cols)
    ensures ColumnNames(After(cat, ColumnTo(id, name)), t, cols)
         == if t == id.table then RenameIn(ColumnNames(cat, t, cols), cat.columns[id], name)
           else ColumnNames(cat, t, cols)
  {
    var after := After(cat, ColumnTo(id, name));
    forall i | 0 <= i < |cols|
      ensures after.columns[ColumnId(t, cols[i])]
           == if t == id.table && cat.columns[ColumnId(t, cols[i])] == cat.columns[id] then name
             else cat.columns[ColumnId(t, cols[i])]
    {
      assert ColumnId(t, cols[i]) in cat.columns;
    }
  }

  /** A part spelled before a rename follows it to the spelling after it. */
  lemma BuildFollows(p: Template, cat: Catalog, r: Rename)
    requires Unambiguous(cat) && KnownParts(cat, p) && FreshRename(cat, r)
    ensures KnownParts(After(cat, r), p) && Follow(Build(p, cat), cat, r) == Build(p, After(cat, r))
  {
    match r
    case TableTo(t, name) =>
    case ColumnTo(id, name) =>
      match p
      case OfColumns(t, cols, _) =>
        ColumnsFollow(cat, id, name, t, cols);
      case OfName(_, t, cols, to, toCols, _, _) =>
        ColumnsFollow(cat, id, name, t, cols);
        if to.Some? {
          ColumnsFollow(cat, id, name, to.value, toCols);
        } else {
          assert cat.tables[id.table] != "";
        }
      case _ =>
  }

  // --- Whole runs ---

  /** Every rename is to a name that is free when its turn comes. */
  ghost predicate FreshRun(cat: Catalog, rs: seq<Rename>)
    decreases |rs|
  {
    rs == [] || (FreshRename(cat, rs[0]) && FreshRun(After(cat, rs[0]), rs[1..]))
  }

  function AfterAll(cat: Catalog, rs: seq<Rename>): Catalog
    decreases |rs|
  {
    if rs == [] then cat else AfterAll(After(cat, rs[0]), rs[1..])
  }

  ghost function FollowAll(ref: Ref, cat: Catalog, rs: seq<Rename>): Ref
    requires FreshRun(cat, rs)
    decreases |rs|
  {
    if rs == [] then ref else FollowAll(Follow(ref, cat, rs[0]), After(cat, rs[0]), rs[1..])
  }

  /** After any run of renames, a part is exactly what it would be had it been built
      with the final names. */
  lemma {:induction false} FollowsRun(p: Template, cat: Catalog, rs: seq<Rename>)
    requires Unambiguous(cat) && KnownParts(cat, p) && FreshRun(cat, rs)
    ensures KnownParts(AfterAll(cat, rs), p) && FollowAll(Build(p, cat), cat, rs) == Build(p, AfterAll(cat, rs))
    decreases |rs|
  {
    if rs != [] {
      BuildFollows(p, cat, rs[0]);
      StillUnambiguous(cat, rs[0]);
      FollowsRun(p, After(cat, rs[0]), rs[1..]);
    }
  }

  // --- What a part is about ---

  /** The template is of the table, or points to it. */
  predicate OfTheTable(p: Template, t: nat) {
    match p
    case OfTable(u) => u == t
    case OfColumns(u, _, _) => u == t
    case OfName(_, u, _, to, _, _, _) => u == t || to == Some(t)
    case Fixed(_) => false
  }

  /** The column is one of those the template is of, or points to. */
  predicate OfTheColumn(p: Template, id: ColumnId) {
    match p
    case OfColumns(u, cols, _) => u == id.table && id.column in cols
    case OfName(_, u, cols, to, toCols, _, _) =>
      (u == id.table && id.column in cols) || (to == Some(id.table) && id.column in toCols)
    case _ => false
  }

  lemma ColumnAmong(cat: Catalog, t: nat, cols: seq<nat>, id: ColumnId)
    requires Unambiguous(cat) && Known(cat, t, cols) && id in cat.columns && id.table == t
    ensures cat.columns[id] in ColumnNames(cat, t, cols) <==> id.column in cols
  {
    var names := ColumnNames(cat, t, cols);
    if cat.columns[id] in names {
      var i :| 0 <= i < |names| && names[i] == cat.columns[id];
      assert ColumnId(t, cols[i]) in cat.columns;
    }
    if id.column in cols {
      var i :| 0 <= i < |cols| && cols[i] == id.column;
      assert names[i] == cat.columns[ColumnId(t, cols[i])];
    }
  }

  /** However tables and columns are called, a part passes for one about a table or a
      column exactly when it was built for that. */
  lemma AboutWhatItIsOf(p: Template, cat: Catalog, t: nat, id: ColumnId)
    requires Unambiguous(cat) && KnownParts(cat, p) && t in cat.tables && id in cat.columns && id.table in cat.tables
    ensures ReferencesTable(Build(p, cat), cat.tables[t]) <==> OfTheTable(p, t)
    ensures ReferencesColumn(Build(p, cat), cat.tables[id.table], cat.columns[id]) <==> OfTheColumn(p, id)
  {
    match p
    case OfColumns(u, cols, _) =>
      if u == id.table {
        ColumnAmong(cat, u, cols, id);
      }
    case OfName(_, u, cols, to, toCols, _, _) =>
      if u == id.table {
        ColumnAmong(cat, u, cols, id);
      }
      if to == Some(id.table) {
        ColumnAmong(cat, id.table, toCols, id);
      }
    case _ =>
  }
}
