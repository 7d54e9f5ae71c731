/** The schema editor's list of statements to run at the end of a migration. */
module Deferred {
  import opened Wrappers
  import opened Digraph
  import opened Names
  import opened References

  datatype StatementKind = Other | AddForeignKey | AddInlineForeignKey | CreateIndex | AddUnique | DropForeignKey

  function TablesRenamed(refs: seq<Ref>, oldTable: string, newTable: string): (r: seq<Ref>)
    ensures |r| == |refs|
  {
    seq(|refs|, i requires 0 <= i < |refs| => RenameTable(refs[i], oldTable, newTable))
  }

  function ColumnsRenamed(refs: seq<Ref>, table: string, oldColumn: string, newColumn: string): (r: seq<Ref>)
    ensures |r| == |refs|
  {
    seq(|refs|, i requires 0 <= i < |refs| => RenameColumn(refs[i], table, oldColumn, newColumn))
  }

  predicate AnyTable(refs: seq<Ref>, table: string) {
    exists i :: 0 <= i < |refs| && ReferencesTable(refs[i], table)
  }

  predicate AnyColumn(refs: seq<Ref>, table: string, column: string) {
    exists i :: 0 <= i < |refs| && ReferencesColumn(refs[i], table, column)
  }

  function NameIn(i: Option<nat>, refs: seq<Ref>): Option<Ref> {
    if i.Some? && i.value < |refs| then Some(refs[i.value]) else None
  }

  predicate SameName(a: Option<Ref>, b: Option<Ref>) {
    && a.Some? && b.Some? && a.value.NameRef? && b.value.NameRef?
    && a.value.table == b.value.table && a.value.value == b.value.value
  }

  /** A statement that is spelled when it runs, from what its parts are then. */
  class Statement {
    var refs: seq<Ref>
    const kind: StatementKind
    // The part that is the name of the constraint or index, when there is one.
    const name: Option<nat>
    const render: seq<Ref> -> string

    constructor (refs: seq<Ref>, kind: StatementKind, name: Option<nat>, render: seq<Ref> -> string)
      ensures this.refs == refs && this.kind == kind && this.name == name && this.render == render
    {
      this.refs, this.kind, this.name, this.render := refs, kind, name, render;
    }

    function Sql(): string
      reads this
    {
      render(refs)
    }

    function Name(): Option<Ref>
      reads this
    {
      NameIn(name, refs)
    }

    method RenameTableReferences(oldTable: string, newTable: string)
      modifies this
      ensures refs == TablesRenamed(old(refs), oldTable, newTable)
    {
      var i := 0;
      while i < |refs|
        invariant 0 <= i <= |refs| == |old(refs)|
        invariant forall j :: 0 <= j < |refs| ==>
          refs[j] == if j < i then RenameTable(old(refs)[j], oldTable, newTable) else old(refs)[j]
      {
        refs := refs[i := RenameTable(refs[i], oldTable, newTable)];
        i := i + 1;
      }
    }

    method RenameColumnReferences(table: string, oldColumn: string, newColumn: string)
      modifies this
      ensures refs == ColumnsRenamed(old(refs), table, oldColumn, newColumn)
    {
      var i := 0;
      while i < |refs|
        invariant 0 <= i <= |refs| == |old(refs)|
        invariant forall j :: 0 <= j < |refs| ==>
          refs[j] == if j < i then RenameColumn(old(refs)[j], table, oldColumn, newColumn) else old(refs)[j]
      {
        refs := refs[i := RenameColumn(refs[i], table, oldColumn, newColumn)];
        i := i + 1;
      }
    }
  }

  /** Two statements create the same thing: same kind, and names with the same table
      and value. */
  predicate SameCreation(a: Statement, b: Statement)
    reads a, b
  {
    a.kind == b.kind && SameName(a.Name(), b.Name())
  }

  /** The statements that are not in bad, in order. */
  ghost function Without(ss: seq<Statement>, bad: set<Statement>): seq<Statement> {
    if ss == [] then []
    else Without(ss[..|ss| - 1], bad) + if ss[|ss| - 1] in bad then [] else [ss[|ss| - 1]]
  }

  lemma {:induction false} WithoutIs(ss: seq<Statement>, bad: set<Statement>)
    ensures forall s :: s in Without(ss, bad) <==> s in ss && s !in bad
    ensures forall i :: 0 <= i < |Without(ss, bad)| ==> Without(ss, bad)[i] in ss && Without(ss, bad)[i] !in bad
    ensures Distinct(ss) ==> Distinct(Without(ss, bad))
    decreases |ss|
  {
    if ss != [] {
      var front, last := ss[..|ss| - 1], ss[|ss| - 1];
      assert ss == front + [last];
      WithoutIs(front, bad);
      assert Distinct(ss) ==> Distinct(front) && last !in front;
      var r := Without(front, bad);
      assert forall i :: 0 <= i < |r| ==> r[i] in r;
    }
  }

  /** What is in a is in b, in the same order. */
  ghost predicate InOrderOf(a: seq<Statement>, b: seq<Statement>) {
    forall i, j :: 0 <= i < j < |a| ==> Before(b, a[i], a[j])
  }

  ghost predicate Before(ss: seq<Statement>, x: Statement, y: Statement) {
    exists p, q :: 0 <= p < q < |ss| && ss[p] == x && ss[q] == y
  }

  lemma {:induction false} WithoutKeepsOrder(ss: seq<Statement>, bad: set<Statement>)
    ensures InOrderOf(Without(ss, bad), ss)
    decreases |ss|
  {
    if ss != [] {
      var front, last := ss[..|ss| - 1], ss[|ss| - 1];
      WithoutKeepsOrder(front, bad);
      WithoutIs(front, bad);
      var r := Without(front, bad);
      forall i, j | 0 <= i < j < |Without(ss, bad)|
        ensures Before(ss, Without(ss, bad)[i], Without(ss, bad)[j])
      {
        if j < |r| {
          assert Before(front, r[i], r[j]);
          var p, q :| 0 <= p < q < |front| && front[p] == r[i] && front[q] == r[j];
          assert ss[p] == r[i] && ss[q] == r[j];
        } else {
          assert r[i] in front;
          var p :| 0 <= p < |front| && front[p] == r[i];
          assert ss[p] == r[i] && ss[|front|] == last;
        }
      }
    }
  }

  /** No two statements of the kind create the same thing. */
  ghost predicate AllApart(ss: seq<Statement>, kind: StatementKind)
    reads ss
  {
    forall i, j :: 0 <= i < j < |ss| && ss[i].kind == kind ==> !SameCreation(ss[i], ss[j])
  }

  lemma ApartFrom(ss: seq<Statement>, s: Statement, kind: StatementKind)
    requires AllApart(ss, kind) && forall i :: 0 <= i < |ss| && ss[i].kind == kind ==> !SameCreation(ss[i], s)
    ensures AllApart(ss + [s], kind)
  {}

  /** Taking statements away leaves the others apart. */
  lemma {:induction false} StillApart(ss: seq<Statement>, bad: set<Statement>, kind: StatementKind)
    requires AllApart(ss, kind)
    ensures AllApart(Without(ss, bad), kind)
    decreases |ss|
  {
    if ss != [] {
      var front, last := ss[..|ss| - 1], ss[|ss| - 1];
      StillApart(front, bad, kind);
      WithoutIs(front, bad);
      var r := Without(front, bad);
      if last in bad {
        assert r + [] == r;
      } else {
        forall i | 0 <= i < |r| && r[i].kind == kind
          ensures !SameCreation(r[i], last)
        {
          assert r[i] in front;
          var k :| 0 <= k < |front| && front[k] == r[i];
          assert ss[k] == r[i] && ss[|front|] == last;
        }
        ApartFrom(r, last, kind);
      }
    }
  }

  ghost function SameAs(ss: seq<Statement>, s: Statement): set<Statement>
    reads ss, s
  {
    set d | d in ss && SameCreation(d, s)
  }

  /** With the statement in place of those that create the same, no two of a kind
      create the same that did not before. */
  lemma ReplacedApart(ss: seq<Statement>, s: Statement, kind: StatementKind)
    requires AllApart(ss, kind)
    ensures AllApart(Without(ss, SameAs(ss, s)) + [s], kind)
  {
    var gone := SameAs(ss, s);
    StillApart(ss, gone, kind);
    WithoutIs(ss, gone);
    ApartFrom(Without(ss, gone), s, kind);
  }

  ghost function AboutTable(ss: seq<Statement>, table: string): set<Statement>
    reads ss
  {
    set d | d in ss && AnyTable(d.refs, table)
  }

  ghost function AboutColumn(ss: seq<Statement>, table: string, column: string): set<Statement>
    reads ss
  {
    set d | d in ss && AnyColumn(d.refs, table, column)
  }

  ghost function Rendered(ss: seq<Statement>): (r: seq<string>)
    reads ss
    ensures |r| == |ss|
  {
    if ss == [] then [] else Rendered(ss[..|ss| - 1]) + [ss[|ss| - 1].Sql()]
  }

  /** The first k statements of the queue have run after those before, and the
      others are left. */
  ghost predicate RanFirst(queue: seq<Statement>, k: nat, before: seq<string>, left: seq<Statement>, ran: seq<string>)
    requires k <= |queue|
    reads queue
  {
    left == queue[k..] && ran == before + Rendered(queue[..k])
  }

  lemma OneRan(queue: seq<Statement>, k: nat, before: seq<string>, left: seq<Statement>, ran: seq<string>)
    requires k <= |queue| && RanFirst(queue, k, before, left, ran) && left != []
    ensures k < |queue| && RanFirst(queue, k + 1, before, left[1..], ran + [left[0].Sql()])
  {
    assert queue[..k + 1][..k] == queue[..k] && left[0] == queue[k] && left[1..] == queue[k + 1..];
    assert Rendered(queue[..k + 1]) == Rendered(queue[..k]) + [queue[k].Sql()];
  }

  /** After a table rename to a name no part refers to, two names are the same only
      if they were before. */
  lemma TableRenameKeepsApart(a: seq<Ref>, b: seq<Ref>, i: Option<nat>, j: Option<nat>, oldTable: string,
      newTable: string)
    requires !AnyTable(a, newTable) && !AnyTable(b, newTable) && !SameName(NameIn(i, a), NameIn(j, b))
    ensures !SameName(NameIn(i, TablesRenamed(a, oldTable, newTable)), NameIn(j, TablesRenamed(b, oldTable, newTable)))
  {
    if NameIn(i, a).Some? && NameIn(j, b).Some? {
      assert !ReferencesTable(a[i.value], newTable) && !ReferencesTable(b[j.value], newTable);
    }
  }

  class Editor {
    var deferred: seq<Statement>
    // The statements that have run.
    var executed: seq<string>
    // Whether the database accepts a statement after those that have run.
    const accepts: (seq<string>, string) -> bool
    const ignoresTableNameCase: bool

    ghost predicate Valid()
      reads this
    {
      Distinct(deferred)
    }

    constructor (accepts: (seq<string>, string) -> bool, ignoresTableNameCase: bool)
      ensures Valid() && deferred == [] && executed == []
      ensures this.accepts == accepts && this.ignoresTableNameCase == ignoresTableNameCase
    {
      deferred, executed, this.accepts, this.ignoresTableNameCase := [], [], accepts, ignoresTableNameCase;
    }

    /** No two queued statements of the kind create the same thing. */
    ghost predicate OnePending(kind: StatementKind)
      reads this, deferred
    {
      AllApart(deferred, kind)
    }

    method Execute(sql: string) returns (ok: bool)
      modifies this`executed
      ensures ok == accepts(old(executed), sql)
      ensures executed == if ok then old(executed) + [sql] else old(executed)
    {
      ok := accepts(executed, sql);
      if ok {
        executed := executed + [sql];
      }
    }

    /** Queue a statement for the end of the migration. */
    method Defer(s: Statement)
      requires Valid() && s !in deferred
      modifies this`deferred
      ensures Valid() && deferred == old(deferred) + [s]
    {
      assert forall i :: 0 <= i < |deferred| ==> deferred[i] in deferred;
      deferred := deferred + [s];
    }

    /** Forget the queued statements that create what s creates. */
    method RemoveSame(s: Statement)
      modifies this`deferred
      ensures deferred == Without(old(deferred), SameAs(old(deferred), s))
    {
      var kept: seq<Statement> := [];
      var i := 0;
      while i < |deferred|
        invariant 0 <= i <= |deferred| && deferred == old(deferred)
        invariant kept == Without(deferred[..i], SameAs(deferred, s))
      {
        assert deferred[..i + 1][..i] == deferred[..i] && deferred[i] in deferred;
        if !SameCreation(deferred[i], s) {
          kept := kept + [deferred[i]];
        }
        i := i + 1;
      }
      assert deferred[..i] == deferred;
      deferred := kept;
    }

    /** Queue the creation of a constraint, in place of a pending creation of the
        same one. */
    method DeferFK(s: Statement)
      requires Valid() && s !in deferred
      modifies this`deferred
      ensures Valid() && deferred == Without(old(deferred), SameAs(old(deferred), s)) + [s]
      ensures InOrderOf(deferred[..|deferred| - 1], old(deferred)) && deferred[|deferred| - 1] == s
      ensures forall x :: x in deferred <==>
        || x == s
        || (x in old(deferred) && !(
              && x.kind == s.kind && x.Name().Some? && s.Name().Some?
              && x.Name().value.NameRef? && s.Name().value.NameRef?
              && x.Name().value.table == s.Name().value.table && x.Name().value.value == s.Name().value.value))
      ensures forall kind :: old(OnePending(kind)) ==> OnePending(kind)
    {
      ghost var gone := SameAs(deferred, s);
      WithoutIs(deferred, gone);
      WithoutKeepsOrder(deferred, gone);
      assert forall x :: x in Without(deferred, gone) <==>
        x in deferred && !(x.kind == s.kind && SameName(x.Name(), s.Name()));
      assert (Without(deferred, gone) + [s])[..|Without(deferred, gone)|] == Without(deferred, gone);
      forall kind | AllApart(deferred, kind)
        ensures AllApart(Without(deferred, gone) + [s], kind)
      {
        ReplacedApart(deferred, s, kind);
      }
      RemoveSame(s);
      hide Without, SameCreation, SameAs;
      Defer(s);
    }

    /** Forget the queued statements about the table. */
    method RemoveAboutTable(table: string)
      requires Valid()
      modifies this`deferred
      ensures Valid() && deferred == Without(old(deferred), AboutTable(old(deferred), table))
      ensures InOrderOf(deferred, old(deferred))
      ensures forall s :: s in deferred <==> s in old(deferred) && !AnyTable(s.refs, table)
      ensures forall kind :: old(OnePending(kind)) ==> OnePending(kind)
    {
      var kept: seq<Statement> := [];
      var i := 0;
      while i < |deferred|
        invariant 0 <= i <= |deferred| && deferred == old(deferred)
        invariant kept == Without(deferred[..i], AboutTable(deferred, table))
      {
        assert deferred[..i + 1][..i] == deferred[..i] && deferred[i] in deferred;
        if !AnyTable(deferred[i].refs, table) {
          kept := kept + [deferred[i]];
        }
        i := i + 1;
      }
      assert deferred[..i] == deferred;
      WithoutIs(deferred, AboutTable(deferred, table));
      WithoutKeepsOrder(deferred, AboutTable(deferred, table));
      forall kind | AllApart(deferred, kind)
        ensures AllApart(kept, kind)
      {
        StillApart(deferred, AboutTable(deferred, table), kind);
      }
      deferred := kept;
    }

    /** Drop the table, and the queued statements about it. */
    method DeleteModel(table: string, dropTable: string) returns (ok: bool)
      requires Valid()
      modifies this
      ensures Valid() && ok == accepts(old(executed), dropTable)
      ensures executed == if ok then old(executed) + [dropTable] else old(executed)
      ensures deferred == if ok then Without(old(deferred), AboutTable(old(deferred), table)) else old(deferred)
      ensures ok ==> InOrderOf(deferred, old(deferred))
      ensures ok ==> forall s :: s in deferred <==> s in old(deferred) && !AnyTable(s.refs, table)
      ensures forall kind :: old(OnePending(kind)) ==> OnePending(kind)
    {
      ok := Execute(dropTable);
      if !ok {
        return;
      }
      RemoveAboutTable(table);
    }

    /** Forget the queued statements about the column. */
    method RemoveAboutColumn(table: string, column: string)
      requires Valid()
      modifies this`deferred
      ensures Valid() && deferred == Without(old(deferred), AboutColumn(old(deferred), table, column))
      ensures InOrderOf(deferred, old(deferred))
      ensures forall s :: s in deferred <==> s in old(deferred) && !AnyColumn(s.refs, table, column)
      ensures forall kind :: old(OnePending(kind)) ==> OnePending(kind)
    {
      var kept: seq<Statement> := [];
      var i := 0;
      while i < |deferred|
        invariant 0 <= i <= |deferred| && deferred == old(deferred)
        invariant kept == Without(deferred[..i], AboutColumn(deferred, table, column))
      {
        assert deferred[..i + 1][..i] == deferred[..i] && deferred[i] in deferred;
        if !AnyColumn(deferred[i].refs, table, column) {
          kept := kept + [deferred[i]];
        }
        i := i + 1;
      }
      assert deferred[..i] == deferred;
      WithoutIs(deferred, AboutColumn(deferred, table, column));
      WithoutKeepsOrder(deferred, AboutColumn(deferred, table, column));
      forall kind | AllApart(deferred, kind)
        ensures AllApart(kept, kind)
      {
        StillApart(deferred, AboutColumn(deferred, table, column), kind);
      }
      deferred := kept;
    }

    /** Drop the column, and the queued statements about it. */
    method RemoveField(table: string, column: string, dropColumn: string) returns (ok: bool)
      requires Valid()
      modifies this
      ensures Valid() && ok == accepts(old(executed), dropColumn)
      ensures executed == if ok then old(executed) + [dropColumn] else old(executed)
      ensures deferred == if ok then Without(old(deferred), AboutColumn(old(deferred), table, column))
        else old(deferred)
      ensures ok ==> InOrderOf(deferred, old(deferred))
      ensures ok ==> forall s :: s in deferred <==> s in old(deferred) && !AnyColumn(s.refs, table, column)
      ensures forall kind :: old(OnePending(kind)) ==> OnePending(kind)
    {
      ok := Execute(dropColumn);
      if !ok {
        return;
      }
      RemoveAboutColumn(table, column);
    }

    /** The names are those of one table for the database. */
    predicate SameTable(oldTable: string, newTable: string) {
      oldTable == newTable || (ignoresTableNameCase && EqualFold(oldTable, newTable))
    }

    /** Rename a table, and follow the rename in every queued statement. */
    method AlterDBTable(oldTable: string, newTable: string, renameTable: string) returns (ok: bool)
      requires Valid()
      modifies this`executed, deferred
      ensures deferred == old(deferred)
      ensures ok == (SameTable(oldTable, newTable) || accepts(old(executed), renameTable))
      ensures executed == if ok && !SameTable(oldTable, newTable) then old(executed) + [renameTable] else old(executed)
      ensures forall s :: s in deferred ==>
          s.refs == if ok && !SameTable(oldTable, newTable) then TablesRenamed(old(s.refs), oldTable, newTable)
            else old(s.refs)
      ensures forall kind :: old(OnePending(kind)) && (forall s :: s in old(deferred) ==> !AnyTable(old(s.refs), newTable)) ==> OnePending(kind)
    {
      if oldTable == newTable || (ignoresTableNameCase && EqualFold(oldTable, newTable)) {
        return true;
      }
      ok := Execute(renameTable);
      if !ok {
        return;
      }
      var i := 0;
      while i < |deferred|
        invariant 0 <= i <= |deferred| && deferred == old(deferred) && executed == old(executed) + [renameTable]
        invariant forall j :: 0 <= j < i ==> deferred[j].refs == TablesRenamed(old(deferred[j].refs), oldTable, newTable)
        invariant forall j :: i <= j < |deferred| ==> deferred[j].refs == old(deferred[j].refs)
      {
        deferred[i].RenameTableReferences(oldTable, newTable);
        i := i + 1;
      }
      forall kind | old(OnePending(kind)) && forall s :: s in old(deferred) ==> !AnyTable(old(s.refs), newTable)
        ensures OnePending(kind)
      {
        forall i, j | 0 <= i < j < |deferred| && deferred[i].kind == kind
          ensures !SameCreation(deferred[i], deferred[j])
        {
          var a, b := deferred[i], deferred[j];
          assert old(a.kind == b.kind ==> !SameCreation(a, b));
          if a.kind == b.kind {
            TableRenameKeepsApart(old(a.refs), old(b.refs), a.name, b.name, oldTable, newTable);
          }
        }
      }
    }

    /** Rename a column when its name changes, and follow the rename in every queued
        statement. */
    method RenameColumnOf(table: string, oldColumn: string, newColumn: string, renameColumn: string) returns (ok: bool)
      requires Valid()
      modifies this`executed, deferred
      ensures deferred == old(deferred) && ok == (oldColumn == newColumn || accepts(old(executed), renameColumn))
      ensures executed == if ok && oldColumn != newColumn then old(executed) + [renameColumn] else old(executed)
      ensures forall s :: s in deferred ==>
          s.refs == if ok && oldColumn != newColumn then ColumnsRenamed(old(s.refs), table, oldColumn, newColumn)
            else old(s.refs)
      ensures forall kind :: old(OnePending(kind)) ==> OnePending(kind)
    {
      if oldColumn == newColumn {
        return true;
      }
      ok := Execute(renameColumn);
      if !ok {
        return;
      }
      var i := 0;
      while i < |deferred|
        invariant 0 <= i <= |deferred| && deferred == old(deferred) && executed == old(executed) + [renameColumn]
        invariant forall j :: 0 <= j < i ==> deferred[j].refs == ColumnsRenamed(old(deferred[j].refs), table, oldColumn, newColumn)
        invariant forall j :: i <= j < |deferred| ==> deferred[j].refs == old(deferred[j].refs)
      {
        deferred[i].RenameColumnReferences(table, oldColumn, newColumn);
        i := i + 1;
      }
      forall kind | old(OnePending(kind))
        ensures OnePending(kind)
      {
        forall i, j | 0 <= i < j < |deferred| && deferred[i].kind == kind
          ensures !SameCreation(deferred[i], deferred[j])
        {
          assert !old(SameCreation(deferred[i], deferred[j]));
        }
      }
    }

    /** Run the first statement of the queue and take it off. */
    method RunFirst() returns (ok: bool)
      requires deferred != []
      modifies this
      ensures ok == accepts(old(executed), old(deferred)[0].Sql())
      ensures executed == if ok then old(executed) + [old(deferred)[0].Sql()] else old(executed)
      ensures deferred == if ok then old(deferred)[1..] else old(deferred)
    {
      ok := Execute(deferred[0].Sql());
      if ok {
        deferred := deferred[1..];
      }
    }

    /** Run the queued statements. What ran and what is left are the original
        queue; when something is left, the first of it failed. */
    method Finish() returns (ok: bool, ghost k: nat)
      requires Valid()
      modifies this
      ensures k <= |old(deferred)| && RanFirst(old(deferred), k, old(executed), deferred, executed)
      ensures ok <==> deferred == []
      ensures !ok ==> !accepts(executed, deferred[0].Sql())
    {
      k := 0;
      ghost var queue, before := deferred, executed;
      assert RanFirst(queue, 0, before, queue, before);
      hide Distinct, RanFirst;
      while |deferred| > 0
        invariant k <= |queue| && RanFirst(queue, k, before, deferred, executed)
        decreases |deferred|
      {
        OneRan(queue, k, before, deferred, executed);
        ok := RunFirst();
        if !ok {
          return;
        }
        k := k + 1;
      }
      ok := true;
    }
  }
}
