/** The SQLite table remake: a new table, and what the rows of the old one become
    in it. A column has the name of its field. */
module Remake {
  import opened Wrappers
  import opened ModelStates
  import opened States
  import opened FieldReductions

  /** What is selected from the old table for a column of the new one. */
  datatype Expr = OldColumn(name: string) | Constant(value: Option<string>) | Coalesce(name: string,
    value: Option<string>)

  datatype Entry = Entry(col: string, expr: Expr)

  datatype Alteration = Alteration(old_: NamedField, new_: NamedField)

  /** The default a field has for rows that exist already, and the one the database
      gives it. */
  datatype Defaults = Defaults(effective: NamedField -> Option<string>, database: NamedField -> Option<string>)

  // --- The column -> value mapping of the copy ---

  function IndexOfCol(es: seq<Entry>, col: string): (i: int)
    ensures -1 <= i < |es|
    ensures i >= 0 ==> es[i].col == col && forall j :: 0 <= j < i ==> es[j].col != col
    ensures i < 0 ==> forall j :: 0 <= j < |es| ==> es[j].col != col
  {
    if es == [] then -1
    else
      var i := IndexOfCol(es[..|es| - 1], col);
      if i >= 0 then i else if es[|es| - 1].col == col then |es| - 1 else -1
  }

  function SetEntry(es: seq<Entry>, col: string, expr: Expr): seq<Entry> {
    var i := IndexOfCol(es, col);
    if i >= 0 then es[i := Entry(col, expr)] else es + [Entry(col, expr)]
  }

  function ReplaceEntry(es: seq<Entry>, oldCol: string, newCol: string, expr: Expr): seq<Entry> {
    var i := IndexOfCol(es, oldCol);
    if i >= 0 then es[i := Entry(newCol, expr)] else SetEntry(es, newCol, expr)
  }

  function RemoveEntry(es: seq<Entry>, col: string): seq<Entry> {
    var i := IndexOfCol(es, col);
    if i >= 0 then RemoveAt(es, i) else es
  }

  class Mapping {
    // The columns of the new table and, at the same places, what goes into them.
    var cols: seq<string>
    var exprs: seq<Expr>

    ghost predicate Valid()
      reads this
    {
      |cols| == |exprs|
    }

    ghost function Entries(): (es: seq<Entry>)
      requires Valid()
      reads this
      ensures |es| == |cols|
    {
      seq(|cols|, i requires 0 <= i < |cols| reads this requires |cols| == |exprs| => Entry(cols[i], exprs[i]))
    }

    constructor ()
      ensures Valid() && Entries() == []
    {
      cols, exprs := [], [];
    }

    method Index(col: string) returns (i: int)
      requires Valid()
      ensures i == IndexOfCol(Entries(), col)
    {
      i := 0;
      while i < |cols|
        invariant 0 <= i <= |cols|
        invariant forall j :: 0 <= j < i ==> Entries()[j].col != col
      {
        if cols[i] == col {
          assert Entries()[i].col == col;
          return;
        }
        i := i + 1;
      }
      return -1;
    }

    method Set(col: string, expr: Expr)
      requires Valid()
      modifies this
      ensures Valid() && Entries() == SetEntry(old(Entries()), col, expr)
    {
      var i := Index(col);
      if i >= 0 {
        assert cols[i] == old(Entries())[i].col;
        exprs := exprs[i := expr];
        assert Entries() == old(Entries())[i := Entry(col, expr)];
      } else {
        cols, exprs := cols + [col], exprs + [expr];
        assert Entries() == old(Entries()) + [Entry(col, expr)];
      }
    }

    /** Overwrite the entry of oldCol, keeping its place. */
    method Replace(oldCol: string, newCol: string, expr: Expr)
      requires Valid()
      modifies this
      ensures Valid() && Entries() == ReplaceEntry(old(Entries()), oldCol, newCol, expr)
    {
      var i := Index(oldCol);
      if i < 0 {
        Set(newCol, expr);
        return;
      }
      cols, exprs := cols[i := newCol], exprs[i := expr];
      assert Entries() == old(Entries())[i := Entry(newCol, expr)];
    }

    method Remove(col: string)
      requires Valid()
      modifies this
      ensures Valid() && Entries() == RemoveEntry(old(Entries()), col)
    {
      var i := Index(col);
      if i >= 0 {
        cols, exprs := cols[..i] + cols[i + 1..], exprs[..i] + exprs[i + 1..];
        assert Entries() == RemoveAt(old(Entries()), i);
      }
    }
  }

  // --- The plan of a remake ---

  /** What goes into an altered column: the old value, or the default in place of a
      null that is no longer allowed. */
  function AlterExpr(a: Alteration, d: Defaults): Expr {
    if a.old_.field.nullable && !a.new_.field.nullable then
      Coalesce(a.old_.name, if a.new_.field.column.dbDefault.None? then d.effective(a.new_) else d.database(a.new_))
    else OldColumn(a.old_.name)
  }

  function FieldEntries(fs: Fields): seq<Entry> {
    if fs == [] then [] else SetEntry(FieldEntries(fs[..|fs| - 1]), fs[|fs| - 1].name, OldColumn(fs[|fs| - 1].name))
  }

  function WithCreated(es: seq<Entry>, create: Option<NamedField>, d: Defaults): seq<Entry> {
    if create.Some? && create.value.field.column.dbDefault.None?
    then SetEntry(es, create.value.name, Constant(d.effective(create.value)))
    else es
  }

  function WithAltered(es: seq<Entry>, alters: seq<Alteration>, d: Defaults): seq<Entry> {
    if alters == [] then es
    else
      var a := alters[|alters| - 1];
      ReplaceEntry(WithAltered(es, alters[..|alters| - 1], d), a.old_.name, a.new_.name, AlterExpr(a, d))
  }

  /** The mapping the remake builds. */
  function RemakeEntries(fs: Fields, create: Option<NamedField>, delete_: Option<string>, alters: seq<Alteration>,
      d: Defaults): seq<Entry> {
    var es := WithAltered(WithCreated(FieldEntries(fs), create, d), alters, d);
    if delete_.Some? then RemoveEntry(es, delete_.value) else es
  }

  function BodyAltered(body: Fields, alters: seq<Alteration>): Fields {
    if alters == [] then body
    else
      var a, before := alters[|alters| - 1], BodyAltered(body, alters[..|alters| - 1]);
      var i := FieldIndex(before, a.old_.name);
      if i >= 0 then before[i := a.new_] else before + [a.new_]
  }

  /** The fields of the new table. */
  function RemakeBody(fs: Fields, create: Option<NamedField>, delete_: Option<string>,
      alters: seq<Alteration>): Fields {
    var created := if create.Some? then fs + [create.value] else fs;
    var altered := BodyAltered(created, alters);
    if delete_.Some? && HasField(altered, delete_.value) then RemoveAt(altered, FieldIndex(altered, delete_.value))
      else altered
  }

  predicate IntroducesPrimaryKey(create: Option<NamedField>, alters: seq<Alteration>) {
    (create.Some? && create.value.field.primaryKey) || exists i :: 0 <= i < |alters| && alters[i].new_.field.primaryKey
  }

  /** The old fields, without the primary key when another one comes in. */
  function OldFields(fs: Fields, create: Option<NamedField>, alters: seq<Alteration>): (r: Fields)
    ensures |r| == |fs| && forall i :: 0 <= i < |fs| ==> r[i].name == fs[i].name
  {
    seq(|fs|, i requires 0 <= i < |fs| =>
      if IntroducesPrimaryKey(create, alters) && !(exists j :: 0 <= j < |alters| && alters[j].new_.name == fs[i].name)
      then fs[i].(field := fs[i].field.(primaryKey := false))
      else fs[i])
  }

  /** Start the mapping with the old columns. */
  method MapOldColumns(fs: Fields) returns (mp: Mapping)
    ensures fresh(mp) && mp.Valid() && mp.Entries() == FieldEntries(fs)
  {
    mp := new Mapping();
    var i := 0;
    while i < |fs|
      invariant 0 <= i <= |fs| && mp.Valid() && fresh(mp) && mp.Entries() == FieldEntries(fs[..i])
    {
      assert fs[..i + 1][..i] == fs[..i];
      mp.Set(fs[i].name, OldColumn(fs[i].name));
      i := i + 1;
    }
    assert fs[..i] == fs;
  }

  /** Put the altered fields in the place of the old ones. */
  method PutAltered(start: Fields, mp: Mapping, alters: seq<Alteration>, d: Defaults) returns (body: Fields)
    requires mp.Valid()
    modifies mp
    ensures mp.Valid() && mp.Entries() == WithAltered(old(mp.Entries()), alters, d) &&
      body == BodyAltered(start, alters)
  {
    body := start;
    var i := 0;
    while i < |alters|
      invariant 0 <= i <= |alters| && mp.Valid()
      invariant mp.Entries() == WithAltered(old(mp.Entries()), alters[..i], d) &&
        body == BodyAltered(start, alters[..i])
    {
      assert alters[..i + 1][..i] == alters[..i];
      var a := alters[i];
      var k := FieldIndex(body, a.old_.name);
      body := if k >= 0 then body[k := a.new_] else body + [a.new_];
      mp.Replace(a.old_.name, a.new_.name, AlterExpr(a, d));
      i := i + 1;
    }
    assert alters[..i] == alters;
  }

  /** Work out the fields of the new table and the mapping of the copy. */
  method PlanRemake(fs: Fields, create: Option<NamedField>, delete_: Option<string>, alters: seq<Alteration>,
      d: Defaults)
      returns (body: Fields, mp: Mapping)
    ensures fresh(mp) && mp.Valid() && mp.Entries() == RemakeEntries(fs, create, delete_, alters, d)
    ensures body == RemakeBody(OldFields(fs, create, alters), create, delete_, alters)
  {
    mp := MapOldColumns(fs);
    body := OldFields(fs, create, alters);
    if create.Some? {
      body := body + [create.value];
      if create.value.field.column.dbDefault.None? {
        mp.Set(create.value.name, Constant(d.effective(create.value)));
      }
    }
    body := PutAltered(body, mp, alters, d);
    if delete_.Some? {
      var k := FieldIndex(body, delete_.value);
      if k >= 0 {
        body := body[..k] + body[k + 1..];
      }
      mp.Remove(delete_.value);
    }
  }

  // --- What the mapping comes to ---

  /** Created and renamed columns have names that no other column has. */
  ghost predicate FreshNames(fs: Fields, create: Option<NamedField>, delete_: Option<string>, alters: seq<Alteration>) {
    && DistinctNames(fs)
    && (create.Some? ==> !HasField(fs, create.value.name))
    && (delete_.Some? ==> HasField(fs, delete_.value))
    && (forall i :: 0 <= i < |alters| ==> FreshAlteration(fs, create, delete_, alters[i]))
    && (forall i, j :: 0 <= i < j < |alters| ==>
          alters[i].old_.name != alters[j].old_.name && alters[i].new_.name != alters[j].new_.name)
  }

  ghost predicate FreshAlteration(fs: Fields, create: Option<NamedField>, delete_: Option<string>, a: Alteration) {
    && HasField(fs, a.old_.name) && (a.new_.name == a.old_.name || !HasField(fs, a.new_.name))
    && (create.Some? ==> a.new_.name != create.value.name) && (delete_.Some? ==> a.old_.name != delete_.value)
  }

  /** The alteration of the field, if there is one. */
  function AlterOf(alters: seq<Alteration>, name: string): Option<Alteration> {
    if alters == [] then None
    else if alters[|alters| - 1].old_.name == name then Some(alters[|alters| - 1])
    else AlterOf(alters[..|alters| - 1], name)
  }

  lemma {:induction false} AlterOfIn(alters: seq<Alteration>, name: string)
    ensures AlterOf(alters, name).Some? ==> AlterOf(alters, name).value in alters && AlterOf(alters, name).value.old_.name == name
    ensures AlterOf(alters, name).None? ==> forall i :: 0 <= i < |alters| ==> alters[i].old_.name != name
  {
    if alters != [] {
      AlterOfIn(alters[..|alters| - 1], name);
    }
  }

  /** The entry of an old field in the copy. */
  function TargetEntry(f: NamedField, alters: seq<Alteration>, d: Defaults): Entry {
    match AlterOf(alters, f.name)
    case Some(a) => Entry(a.new_.name, AlterExpr(a, d))
    case None => Entry(f.name, OldColumn(f.name))
  }

  function TargetEntries(fs: Fields, alters: seq<Alteration>, d: Defaults): (es: seq<Entry>)
    ensures |es| == |fs|
  {
    seq(|fs|, i requires 0 <= i < |fs| => TargetEntry(fs[i], alters, d))
  }

  function CreatedEntries(create: Option<NamedField>, d: Defaults): seq<Entry> {
    if create.Some? && create.value.field.column.dbDefault.None?
    then [Entry(create.value.name, Constant(d.effective(create.value)))] else []
  }

  lemma IndexOfColIs(es: seq<Entry>, col: string, i: nat)
    requires i < |es| && es[i].col == col && forall j :: 0 <= j < i ==> es[j].col != col
    ensures IndexOfCol(es, col) == i
  {}

  lemma {:induction false} FieldEntriesAre(fs: Fields, d: Defaults)
    requires DistinctNames(fs)
    ensures FieldEntries(fs) == TargetEntries(fs, [], d)
  {
    if fs != [] {
      var front, last := fs[..|fs| - 1], fs[|fs| - 1];
      FieldEntriesAre(front, d);
      var es := TargetEntries(front, [], d);
      assert forall j :: 0 <= j < |es| ==> es[j].col == fs[j].name;
      assert IndexOfCol(es, last.name) < 0;
      assert TargetEntries(fs, [], d) == es + [Entry(last.name, OldColumn(last.name))];
    }
  }

  lemma CreatedAre(fs: Fields, create: Option<NamedField>, d: Defaults)
    requires create.Some? ==> !HasField(fs, create.value.name)
    ensures WithCreated(TargetEntries(fs, [], d), create, d) == TargetEntries(fs, [], d) + CreatedEntries(create, d)
  {
    var es := TargetEntries(fs, [], d);
    assert forall j :: 0 <= j < |es| ==> es[j].col == fs[j].name;
    if create.Some? {
      assert IndexOfCol(es, create.value.name) < 0;
    }
    assert es + [] == es;
  }

  /** Before it is altered, the field's own entry is the first of its name. */
  lemma OwnEntry(fs: Fields, create: Option<NamedField>, delete_: Option<string>, alters: seq<Alteration>, d: Defaults)
    requires FreshNames(fs, create, delete_, alters) && alters != []
    ensures var a, before := alters[|alters| - 1],
      TargetEntries(fs, alters[..|alters| - 1], d) + CreatedEntries(create, d);
      IndexOfCol(before, a.old_.name) == FieldIndex(fs, a.old_.name)
  {
    var a, front := alters[|alters| - 1], alters[..|alters| - 1];
    var before, p := TargetEntries(fs, front, d) + CreatedEntries(create, d), FieldIndex(fs, a.old_.name);
    assert FreshAlteration(fs, create, delete_, a);
    forall j | 0 <= j < |fs|
      ensures before[j].col == a.old_.name <==> j == p
    {
      AlterOfIn(front, fs[j].name);
      var b := AlterOf(front, fs[j].name);
      if b.Some? {
        var i :| 0 <= i < |front| && front[i] == b.value;
        assert alters[i] == b.value && FreshAlteration(fs, create, delete_, alters[i]);
        assert b.value.old_.name != a.old_.name;
      }
      assert fs[j].name == a.old_.name <==> j == p;
    }
    IndexOfColIs(before, a.old_.name, p);
  }

  lemma {:induction false} AlteredAre(fs: Fields, create: Option<NamedField>, delete_: Option<string>,
      alters: seq<Alteration>, d: Defaults)
    requires FreshNames(fs, create, delete_, alters)
    ensures WithAltered(TargetEntries(fs, [], d) + CreatedEntries(create, d), alters, d)
         == TargetEntries(fs, alters, d) + CreatedEntries(create, d)
    decreases |alters|
  {
    if alters != [] {
      var a, front := alters[|alters| - 1], alters[..|alters| - 1];
      assert FreshNames(fs, create, delete_, front);
      AlteredAre(fs, create, delete_, front, d);
      OwnEntry(fs, create, delete_, alters, d);
      assert FreshAlteration(fs, create, delete_, a);
      TargetsStep(fs, alters, d);
      hide FieldIndex, FreshNames, FreshAlteration, TargetEntries;
      UpdateLeft(TargetEntries(fs, front, d), CreatedEntries(create, d), FieldIndex(fs, a.old_.name),
        Entry(a.new_.name, AlterExpr(a, d)));
    }
  }

  lemma UpdateLeft(a: seq<Entry>, b: seq<Entry>, i: nat, e: Entry)
    requires i < |a|
    ensures (a + b)[i := e] == a[i := e] + b
  {}

  lemma TargetsStep(fs: Fields, alters: seq<Alteration>, d: Defaults)
    requires DistinctNames(fs) && alters != [] && HasField(fs, alters[|alters| - 1].old_.name)
    ensures var a := alters[|alters| - 1];
      TargetEntries(fs, alters, d)
      == TargetEntries(fs, alters[..|alters| - 1],
        d)[FieldIndex(fs, a.old_.name) := Entry(a.new_.name, AlterExpr(a, d))]
  {
    var a := alters[|alters| - 1];
    var p := FieldIndex(fs, a.old_.name);
    assert forall j :: 0 <= j < |fs| && j != p ==> fs[j].name != a.old_.name;
    hide FieldIndex;
  }

  /** The mapping before a deletion: one entry for every old field, in order, and
      one for a created field that gets no default from the database. */
  lemma MappingIs(fs: Fields, create: Option<NamedField>, delete_: Option<string>, alters: seq<Alteration>, d: Defaults)
    requires FreshNames(fs, create, delete_, alters)
    ensures RemakeEntries(fs, create, None, alters, d) == TargetEntries(fs, alters, d) + CreatedEntries(create, d)
  {
    FieldEntriesAre(fs, d);
    CreatedAre(fs, create, d);
    AlteredAre(fs, create, delete_, alters, d);
  }

  // --- Rows ---

  type Row = map<string, Option<string>>

  function Eval(e: Expr, row: Row): Option<string> {
    match e
    case OldColumn(name) => if name in row then row[name] else None
    case Constant(value) => value
    case Coalesce(name, value) => if name in row && row[name].Some? then row[name] else value
  }

  /** What the copy puts into a column of the new table, if anything. */
  function Copied(es: seq<Entry>, row: Row, col: string): Option<Option<string>> {
    var i := IndexOfCol(es, col);
    if i >= 0 then Some(Eval(es[i].expr, row)) else None
  }

  ghost predicate DistinctCols(es: seq<Entry>) {
    forall i, j :: 0 <= i < j < |es| ==> es[i].col != es[j].col
  }

  lemma TargetColsApart(fs: Fields, create: Option<NamedField>, delete_: Option<string>, alters: seq<Alteration>,
      d: Defaults, i: nat, j: nat)
    requires FreshNames(fs, create, delete_, alters) && i < j < |fs|
    ensures TargetEntry(fs[i], alters, d).col != TargetEntry(fs[j], alters, d).col
  {
    AlterOfIn(alters, fs[i].name);
    AlterOfIn(alters, fs[j].name);
    var a, b := AlterOf(alters, fs[i].name), AlterOf(alters, fs[j].name);
    if a.Some? {
      assert FreshAlteration(fs, create, delete_, a.value);
    }
    if b.Some? {
      assert FreshAlteration(fs, create, delete_, b.value);
    }
    if a.Some? && b.Some? {
      var k :| 0 <= k < |alters| && alters[k] == a.value;
      var l :| 0 <= l < |alters| && alters[l] == b.value;
      assert k != l && alters[if k < l then k else l].new_.name != alters[if k < l then l else k].new_.name;
    }
  }

  /** Without a deletion, the copy lists every column once. */
  lemma ColsDistinct(fs: Fields, create: Option<NamedField>, delete_: Option<string>, alters: seq<Alteration>,
      d: Defaults)
    requires FreshNames(fs, create, delete_, alters)
    ensures DistinctCols(TargetEntries(fs, alters, d) + CreatedEntries(create, d))
  {
    var es := TargetEntries(fs, alters, d) + CreatedEntries(create, d);
    forall i, j | 0 <= i < j < |es|
      ensures es[i].col != es[j].col
    {
      if j < |fs| {
        TargetColsApart(fs, create, delete_, alters, d, i, j);
      } else {
        AlterOfIn(alters, fs[i].name);
        assert AlterOf(alters, fs[i].name).Some? ==>
          FreshAlteration(fs, create, delete_, AlterOf(alters, fs[i].name).value);
      }
    }
  }

  lemma FoundCol(es: seq<Entry>, i: nat)
    requires DistinctCols(es) && i < |es|
    ensures IndexOfCol(es, es[i].col) == i
  {
    IndexOfColIs(es, es[i].col, i);
  }

  /** The place of an entry once the one at p is removed. */
  lemma AfterRemoval(es: seq<Entry>, p: nat, i: nat)
    requires DistinctCols(es) && p < |es| && i < |es| && i != p
    ensures DistinctCols(RemoveAt(es, p)) && IndexOfCol(RemoveAt(es, p), es[p].col) < 0
    ensures IndexOfCol(RemoveAt(es, p), es[i].col) == if i < p then i else i - 1
  {
    var r := RemoveAt(es, p);
    assert forall k :: 0 <= k < |r| ==> r[k] == es[if k < p then k else k + 1];
    IndexOfColIs(r, es[i].col, if i < p then i else i - 1);
  }

  /** All entries, before a deletion. */
  function AllEntries(fs: Fields, create: Option<NamedField>, alters: seq<Alteration>, d: Defaults): seq<Entry> {
    TargetEntries(fs, alters, d) + CreatedEntries(create, d)
  }

  lemma RemakeIs(fs: Fields, create: Option<NamedField>, delete_: Option<string>, alters: seq<Alteration>, d: Defaults)
    requires FreshNames(fs, create, delete_, alters)
    ensures var all := AllEntries(fs, create, alters, d);
      && DistinctCols(all)
      && RemakeEntries(fs, create, delete_, alters, d) == if delete_.Some? then RemoveEntry(all, delete_.value) else all
  {
    MappingIs(fs, create, delete_, alters, d);
    ColsDistinct(fs, create, delete_, alters, d);
  }

  lemma DeletedEntry(fs: Fields, create: Option<NamedField>, delete_: Option<string>, alters: seq<Alteration>,
      d: Defaults) returns (p: nat)
    requires FreshNames(fs, create, delete_, alters) && delete_.Some?
    ensures p < |fs| && fs[p].name == delete_.value
    ensures AllEntries(fs, create, alters, d)[p].col == delete_.value &&
      IndexOfCol(AllEntries(fs, create, alters, d), delete_.value) == p
  {
    p := FieldIndex(fs, delete_.value);
    AlterOfIn(alters, fs[p].name);
    assert AlterOf(alters, fs[p].name).Some? ==>
      FreshAlteration(fs, create, delete_, AlterOf(alters, fs[p].name).value);
    assert AllEntries(fs, create, alters, d)[p] == TargetEntry(fs[p], alters, d);
    ColsDistinct(fs, create, delete_, alters, d);
    FoundCol(AllEntries(fs, create, alters, d), p);
  }

  /** The mapping has each column once, and one entry for every field that stays and
      for a created field without a database default. */
  lemma EntryFor(fs: Fields, create: Option<NamedField>, delete_: Option<string>, alters: seq<Alteration>, d: Defaults,
      i: nat)
    requires FreshNames(fs, create, delete_, alters) && i < |AllEntries(fs, create, alters, d)|
    requires delete_.Some? && i < |fs| ==> fs[i].name != delete_.value
    ensures var e, es := AllEntries(fs, create, alters, d)[i], RemakeEntries(fs, create, delete_, alters, d);
      && DistinctCols(es) && IndexOfCol(es, e.col) >= 0 && es[IndexOfCol(es, e.col)] == e
      && (delete_.Some? ==> IndexOfCol(es, delete_.value) < 0)
  {
    RemakeIs(fs, create, delete_, alters, d);
    var all := AllEntries(fs, create, alters, d);
    hide FreshNames, RemakeEntries, AllEntries;
    if delete_.Some? {
      var p := DeletedEntry(fs, create, delete_, alters, d);
      assert p != i;
      EntryStays(all, p, i);
    } else {
      FoundCol(all, i);
    }
  }

  lemma EntryStays(all: seq<Entry>, p: nat, i: nat)
    requires DistinctCols(all) && p < |all| && i < |all| && i != p
    ensures var es := RemoveEntry(all, all[p].col);
      && DistinctCols(es) && IndexOfCol(es, all[i].col) >= 0 && es[IndexOfCol(es, all[i].col)] == all[i]
      && IndexOfCol(es, all[p].col) < 0
  {
    FoundCol(all, p);
    AfterRemoval(all, p, i);
    hide IndexOfCol, DistinctCols;
    assert RemoveAt(all, p)[if i < p then i else i - 1] == all[i];
  }

  /** No data is lost. A field that stays keeps its value, under its new name if it
      has one, except that the default takes the place of a null that is no longer
      allowed; nothing is copied for the deleted one. */
  lemma RemakeKeepsData(fs: Fields, create: Option<NamedField>, delete_: Option<string>, alters: seq<Alteration>,
      d: Defaults, row: Row, i: nat)
    requires FreshNames(fs, create, delete_, alters) && i < |fs| && fs[i].name in row
    requires delete_.Some? ==> fs[i].name != delete_.value
    ensures var es := RemakeEntries(fs, create, delete_, alters, d);
      && DistinctCols(es)
      && (AlterOf(alters, fs[i].name).None? ==> Copied(es, row, fs[i].name) == Some(row[fs[i].name]))
      && (AlterOf(alters, fs[i].name).Some? ==>
            var a := AlterOf(alters, fs[i].name).value;
            var old_ := row[fs[i].name];
            Copied(es, row, a.new_.name) == Some(
              if old_.None? && a.old_.field.nullable && !a.new_.field.nullable then
                if a.new_.field.column.dbDefault.None? then d.effective(a.new_) else d.database(a.new_)
              else old_))
      && (delete_.Some? ==> Copied(es, row, delete_.value) == None)
  {
    AlterOfIn(alters, fs[i].name);
    EntriesAt(fs, create, alters, d, i);
    EntryFor(fs, create, delete_, alters, d, i);
    hide FreshNames, RemakeEntries, IndexOfCol, AllEntries, DistinctCols, AlterOf;
  }

  /** A created field gets its default in every row; one with a database default is
      left to the database. */
  lemma CreatedGetsDefault(fs: Fields, create: Option<NamedField>, delete_: Option<string>, alters: seq<Alteration>,
      d: Defaults, row: Row)
    requires FreshNames(fs, create, delete_, alters) && create.Some?
    ensures Copied(RemakeEntries(fs, create, delete_, alters, d), row, create.value.name)
         == if create.value.field.column.dbDefault.None? then Some(d.effective(create.value)) else None
  {
    if create.value.field.column.dbDefault.None? {
      CreatedIsCopied(fs, create, delete_, alters, d, row);
    } else {
      NotCopied(fs, create, delete_, alters, d);
    }
    hide FreshNames, RemakeEntries, IndexOfCol;
  }

  lemma CreatedIsCopied(fs: Fields, create: Option<NamedField>, delete_: Option<string>, alters: seq<Alteration>,
      d: Defaults, row: Row)
    requires FreshNames(fs, create, delete_, alters) && create.Some? && create.value.field.column.dbDefault.None?
    ensures Copied(RemakeEntries(fs, create, delete_, alters, d), row, create.value.name)
         == Some(d.effective(create.value))
  {
    CreatedAt(fs, create, alters, d);
    hide AllEntries, RemakeEntries, IndexOfCol, DistinctCols;
    EntryFor(fs, create, delete_, alters, d, |fs|);
    hide FreshNames;
  }

  lemma CreatedAt(fs: Fields, create: Option<NamedField>, alters: seq<Alteration>, d: Defaults)
    requires create.Some? && create.value.field.column.dbDefault.None?
    ensures |AllEntries(fs, create, alters, d)| == |fs| + 1
    ensures AllEntries(fs, create, alters, d)[|fs|] == Entry(create.value.name, Constant(d.effective(create.value)))
  {}

  lemma NotCopied(fs: Fields, create: Option<NamedField>, delete_: Option<string>, alters: seq<Alteration>, d: Defaults)
    requires FreshNames(fs, create, delete_, alters) && create.Some? && create.value.field.column.dbDefault.Some?
    ensures IndexOfCol(RemakeEntries(fs, create, delete_, alters, d), create.value.name) < 0
  {
    RemakeIs(fs, create, delete_, alters, d);
    var all := AllEntries(fs, create, alters, d);
    forall i | 0 <= i < |all|
      ensures all[i].col != create.value.name
    {
      AlterOfIn(alters, fs[i].name);
      assert AlterOf(alters, fs[i].name).Some? ==>
        FreshAlteration(fs, create, delete_, AlterOf(alters, fs[i].name).value);
    }
    hide AllEntries, RemakeEntries, FreshNames;
    if delete_.Some? {
      NeverThere(all, delete_.value, create.value.name);
    }
  }

  lemma NeverThere(es: seq<Entry>, gone: string, col: string)
    requires forall i :: 0 <= i < |es| ==> es[i].col != col
    ensures IndexOfCol(RemoveEntry(es, gone), col) < 0
  {
    var p, r := IndexOfCol(es, gone), RemoveEntry(es, gone);
    if p >= 0 {
      assert forall k :: 0 <= k < |r| ==> r[k] == es[if k < p then k else k + 1];
    }
  }

  lemma EntriesAt(fs: Fields, create: Option<NamedField>, alters: seq<Alteration>, d: Defaults, i: nat)
    requires i < |fs|
    ensures i < |AllEntries(fs, create, alters, d)| &&
      AllEntries(fs, create, alters, d)[i] == TargetEntry(fs[i], alters, d)
  {}

  // --- The new table ---

  function BodyField(f: NamedField, alters: seq<Alteration>): NamedField {
    match AlterOf(alters, f.name)
    case Some(a) => a.new_
    case None => f
  }

  function BodyFields(fs: Fields, alters: seq<Alteration>): (r: Fields)
    ensures |r| == |fs|
  {
    seq(|fs|, i requires 0 <= i < |fs| => BodyField(fs[i], alters))
  }

  lemma OwnField(fs: Fields, create: Option<NamedField>, delete_: Option<string>, alters: seq<Alteration>)
    requires FreshNames(fs, create, delete_, alters) && alters != []
    ensures var a, more := alters[|alters| - 1], if create.Some? then [create.value] else [];
      FieldIndex(BodyFields(fs, alters[..|alters| - 1]) + more, a.old_.name) == FieldIndex(fs, a.old_.name)
  {
    var a, front, more := alters[|alters| - 1], alters[..|alters| - 1], if create.Some? then [create.value] else [];
    var before, p := BodyFields(fs, front) + more, FieldIndex(fs, a.old_.name);
    assert FreshAlteration(fs, create, delete_, a);
    forall j | 0 <= j < |fs|
      ensures before[j].name == a.old_.name <==> j == p
    {
      AlterOfIn(front, fs[j].name);
      var b := AlterOf(front, fs[j].name);
      if b.Some? {
        var i :| 0 <= i < |front| && front[i] == b.value;
        assert alters[i] == b.value && FreshAlteration(fs, create, delete_, alters[i]);
        assert b.value.old_.name != a.old_.name;
      }
      assert fs[j].name == a.old_.name <==> j == p;
    }
    FieldIndexIs(before, a.old_.name, p);
  }

  lemma {:induction false} BodyIs(fs: Fields, create: Option<NamedField>, delete_: Option<string>,
      alters: seq<Alteration>)
    requires FreshNames(fs, create, delete_, alters)
    ensures var more := if create.Some? then [create.value] else [];
      BodyAltered(fs + more, alters) == BodyFields(fs, alters) + more
    decreases |alters|
  {
    var more := if create.Some? then [create.value] else [];
    if alters == [] {
      assert BodyFields(fs, []) == fs;
    } else {
      var a, front := alters[|alters| - 1], alters[..|alters| - 1];
      assert FreshNames(fs, create, delete_, front);
      BodyIs(fs, create, delete_, front);
      OwnField(fs, create, delete_, alters);
      assert FreshAlteration(fs, create, delete_, a);
      BodyStep(fs, alters);
      var p := FieldIndex(fs, a.old_.name);
      assert (BodyFields(fs, front) + more)[p := a.new_] == BodyFields(fs, front)[p := a.new_] + more;
    }
  }

  lemma BodyStep(fs: Fields, alters: seq<Alteration>)
    requires DistinctNames(fs) && alters != [] && HasField(fs, alters[|alters| - 1].old_.name)
    ensures var a := alters[|alters| - 1];
      BodyFields(fs, alters) == BodyFields(fs, alters[..|alters| - 1])[FieldIndex(fs, a.old_.name) := a.new_]
  {
    var a := alters[|alters| - 1];
    var p := FieldIndex(fs, a.old_.name);
    assert forall j :: 0 <= j < |fs| && j != p ==> fs[j].name != a.old_.name;
    hide FieldIndex;
  }

  function BodyWithout(body: Fields, gone: string): Fields {
    if HasField(body, gone) then RemoveAt(body, FieldIndex(body, gone)) else body
  }

  function AllFields(fs: Fields, create: Option<NamedField>, alters: seq<Alteration>): Fields {
    BodyFields(fs, alters) + if create.Some? then [create.value] else []
  }

  lemma RemakeBodyIs(fs: Fields, create: Option<NamedField>, delete_: Option<string>, alters: seq<Alteration>)
    requires FreshNames(fs, create, delete_, alters)
    ensures var all := AllFields(fs, create, alters);
      RemakeBody(fs, create, delete_, alters) == if delete_.Some? then BodyWithout(all, delete_.value) else all
  {
    BodyIs(fs, create, delete_, alters);
    assert fs + [] == fs;
  }

  lemma NamesAreCols(fs: Fields, create: Option<NamedField>, alters: seq<Alteration>, d: Defaults, i: nat)
    requires i < |AllEntries(fs, create, alters, d)|
    ensures i < |AllFields(fs, create, alters)| &&
      AllFields(fs, create, alters)[i].name == AllEntries(fs, create, alters, d)[i].col
  {}

  lemma StillInBody(body: Fields, gone: string, i: nat)
    requires i < |body| && body[i].name != gone
    ensures HasField(BodyWithout(body, gone), body[i].name)
  {
    if HasField(body, gone) {
      IndexAfterRemove(body, FieldIndex(body, gone), body[i].name);
    }
  }

  lemma RemoveAtIs<T>(s: seq<T>, i: nat, k: nat)
    requires i < |s| && k < |s| - 1
    ensures RemoveAt(s, i)[k] == s[if k < i then k else k + 1]
  {}

  lemma RemovedAt(all: seq<Entry>, p: nat, k: nat)
    requires DistinctCols(all) && p < |all| && k < |all| - 1 && IndexOfCol(all, all[p].col) == p
    ensures var i := if k < p then k else k + 1;
      RemoveEntry(all, all[p].col)[k] == all[i] && all[i].col != all[p].col
  {
    RemoveAtIs(all, p, k);
    hide RemoveAt;
  }

  /** Every column the copy fills is a column of the new table. */
  lemma CopyFillsNewTable(fs: Fields, create: Option<NamedField>, delete_: Option<string>, alters: seq<Alteration>,
      d: Defaults, k: nat)
    requires FreshNames(fs, create, delete_, alters) && k < |RemakeEntries(fs, create, delete_, alters, d)|
    ensures HasField(RemakeBody(fs, create, delete_, alters), RemakeEntries(fs, create, delete_, alters, d)[k].col)
  {
    RemakeIs(fs, create, delete_, alters, d);
    RemakeBodyIs(fs, create, delete_, alters);
    var all, body, es := AllEntries(fs, create, alters, d), AllFields(fs, create, alters),
      RemakeEntries(fs, create, delete_, alters, d);
    hide AllEntries, AllFields, RemakeEntries, RemakeBody, BodyWithout, IndexOfCol;
    if delete_.Some? {
      var p := DeletedEntry(fs, create, delete_, alters, d);
      hide FreshNames;
      var i := if k < p then k else k + 1;
      RemovedAt(all, p, k);
      NamesAreCols(fs, create, alters, d, i);
      StillInBody(body, delete_.value, i);
    } else {
      NamesAreCols(fs, create, alters, d, k);
    }
  }

  // --- Exactly when the data is kept ---

  /** What the callers remake a table for. */
  datatype Change = Rebuild | Create(field: NamedField) | Delete(name: string) | Alter(alteration: Alteration)

  function CreateOf(c: Change): Option<NamedField> {
    if c.Create? then Some(c.field) else None
  }

  function DeleteOf(c: Change): Option<string> {
    if c.Delete? then Some(c.name) else None
  }

  function AltersOf(c: Change): seq<Alteration> {
    if c.Alter? then [c.alteration] else []
  }

  /** The change is to fields the table has. */
  ghost predicate OnTable(fs: Fields, c: Change) {
    DistinctNames(fs) && (c.Delete? ==> HasField(fs, c.name)) && (c.Alter? ==> HasField(fs, c.alteration.old_.name))
  }

  /** A created or renamed column has a name that no column has. */
  predicate FreshChange(fs: Fields, c: Change) {
    match c
    case Create(f) => !HasField(fs, f.name)
    case Alter(a) => a.new_.name == a.old_.name || !HasField(fs, a.new_.name)
    case _ => true
  }

  function EntriesOf(fs: Fields, c: Change, d: Defaults): seq<Entry> {
    RemakeEntries(fs, CreateOf(c), DeleteOf(c), AltersOf(c), d)
  }

  /** Where the field's values go, and what the copy makes of one of them. */
  function ColumnAfter(f: NamedField, c: Change): string {
    if c.Alter? && c.alteration.old_.name == f.name then c.alteration.new_.name else f.name
  }

  function ValueAfter(f: NamedField, c: Change, d: Defaults, value: Option<string>): Option<string> {
    if c.Alter? && c.alteration.old_.name == f.name && value.None? then
      var a := c.alteration;
      if a.old_.field.nullable && !a.new_.field.nullable then
        if a.new_.field.column.dbDefault.None? then d.effective(a.new_) else d.database(a.new_)
      else None
    else value
  }

  /** Every value of a field that stays arrives, and a created field gets its
      default. */
  ghost predicate Keeps(fs: Fields, c: Change, d: Defaults, row: Row) {
    && (forall i :: 0 <= i < |fs| && DeleteOf(c) != Some(fs[i].name) ==> KeepsField(fs[i], fs, c, d, row))
    && (c.Create? ==>
          Copied(EntriesOf(fs, c, d), row, c.field.name)
            == if c.field.field.column.dbDefault.None? then Some(d.effective(c.field)) else None)
  }

  ghost predicate KeepsField(f: NamedField, fs: Fields, c: Change, d: Defaults, row: Row) {
    f.name in row ==> Copied(EntriesOf(fs, c, d), row, ColumnAfter(f, c)) == Some(ValueAfter(f, c, d, row[f.name]))
  }

  lemma FreshNamesOf(fs: Fields, c: Change)
    requires OnTable(fs, c) && FreshChange(fs, c)
    ensures FreshNames(fs, CreateOf(c), DeleteOf(c), AltersOf(c))
  {}

  lemma AlterOfChange(c: Change, name: string)
    ensures AlterOf(AltersOf(c), name) == if c.Alter? &&
      c.alteration.old_.name == name then Some(c.alteration) else None
  {
    if c.Alter? {
      assert [c.alteration][..0] == [];
    }
  }

  lemma FreshKeeps(fs: Fields, c: Change, d: Defaults, row: Row)
    requires OnTable(fs, c) && FreshChange(fs, c)
    ensures Keeps(fs, c, d, row)
  {
    FreshNamesOf(fs, c);
    hide FreshNames, RemakeEntries, Copied, AlterOf, DistinctCols;
    forall i | 0 <= i < |fs| && DeleteOf(c) != Some(fs[i].name)
      ensures KeepsField(fs[i], fs, c, d, row)
    {
      AlterOfChange(c, fs[i].name);
      if fs[i].name in row {
        RemakeKeepsData(fs, CreateOf(c), DeleteOf(c), AltersOf(c), d, row, i);
      }
    }
    if c.Create? {
      CreatedGetsDefault(fs, CreateOf(c), DeleteOf(c), AltersOf(c), d, row);
    }
  }

  lemma FreshIsDistinct(fs: Fields, c: Change, d: Defaults)
    requires OnTable(fs, c) && FreshChange(fs, c)
    ensures DistinctCols(EntriesOf(fs, c, d))
  {
    FreshNamesOf(fs, c);
    RemakeIs(fs, CreateOf(c), DeleteOf(c), AltersOf(c), d);
    if c.Delete? {
      var p := DeletedEntry(fs, CreateOf(c), DeleteOf(c), AltersOf(c), d);
      var all := AllEntries(fs, CreateOf(c), AltersOf(c), d);
      hide AllEntries, RemakeEntries, FreshNames, IndexOfCol;
      RemovalDistinct(all, p);
    }
  }

  lemma RemovalDistinct(es: seq<Entry>, p: nat)
    requires DistinctCols(es) && p < |es|
    ensures DistinctCols(RemoveAt(es, p))
  {
    var r := RemoveAt(es, p);
    assert forall k :: 0 <= k < |r| ==> r[k] == es[if k < p then k else k + 1];
  }

  lemma CreateEntries(fs: Fields, f: NamedField, d: Defaults)
    ensures EntriesOf(fs, Create(f), d)
         == if f.field.column.dbDefault.None? then SetEntry(FieldEntries(fs), f.name, Constant(d.effective(f)))
           else FieldEntries(fs)
  {
    hide FieldEntries, IndexOfCol;
  }

  lemma AlterEntries(fs: Fields, a: Alteration, d: Defaults)
    ensures EntriesOf(fs, Alter(a), d) == ReplaceEntry(FieldEntries(fs), a.old_.name, a.new_.name, AlterExpr(a, d))
  {
    assert [a][..|[a]| - 1] == [];
    assert WithAltered(FieldEntries(fs), [], d) == FieldEntries(fs);
    hide FieldEntries, IndexOfCol;
  }

  lemma OldEntry(fs: Fields, i: nat, d: Defaults)
    requires DistinctNames(fs) && i < |fs|
    ensures |FieldEntries(fs)| == |fs| && FieldEntries(fs)[i] == Entry(fs[i].name, OldColumn(fs[i].name))
    ensures IndexOfCol(FieldEntries(fs), fs[i].name) == i
  {
    FieldEntriesAre(fs, d);
    var es := FieldEntries(fs);
    assert forall j :: 0 <= j < |es| ==> es[j].col == fs[j].name;
    IndexOfColIs(es, fs[i].name, i);
  }

  lemma SetKeepsPlace(es: seq<Entry>, col: string, expr: Expr)
    requires IndexOfCol(es, col) >= 0
    ensures var r := SetEntry(es, col, expr); IndexOfCol(r, col) == IndexOfCol(es, col) && r[IndexOfCol(es, col)].expr == expr
  {
    IndexOfColIs(SetEntry(es, col, expr), col, IndexOfCol(es, col));
  }

  /** A value that is not the default. */
  function Other(value: Option<string>): Option<string> {
    if value.None? then Some("") else None
  }

  /** The copy for creating a column that exists would overwrite its values, or keep them
      where the database's default is due. */
  lemma CreatedTwice(fs: Fields, f: NamedField, d: Defaults)
    requires DistinctNames(fs) && HasField(fs, f.name)
    ensures !Keeps(fs, Create(f), d, map[f.name := Other(d.effective(f))])
  {
    var row: Row := map[f.name := Other(d.effective(f))];
    var p := FieldIndex(fs, f.name);
    OldEntry(fs, p, d);
    CreateEntries(fs, f, d);
    SetKeepsPlace(FieldEntries(fs), f.name, Constant(d.effective(f)));
    hide FieldIndex, IndexOfCol, FieldEntries, EntriesOf, SetEntry;
    assert KeepsField(fs[p], fs, Create(f), d, row) ==>
      Copied(EntriesOf(fs, Create(f), d), row, f.name) == Some(row[f.name]);
  }

  /** The one for renaming a column to one that exists would fill that one twice. */
  lemma RenamedOnto(fs: Fields, a: Alteration, d: Defaults)
    requires DistinctNames(fs) && HasField(fs, a.old_.name) && HasField(fs, a.new_.name) && a.new_.name != a.old_.name
    ensures !DistinctCols(EntriesOf(fs, Alter(a), d))
  {
    var p, k := FieldIndex(fs, a.old_.name), FieldIndex(fs, a.new_.name);
    OldEntry(fs, p, d);
    OldEntry(fs, k, d);
    AlterEntries(fs, a, d);
    hide FieldIndex, IndexOfCol, FieldEntries, EntriesOf;
    var after := FieldEntries(fs)[p := Entry(a.new_.name, AlterExpr(a, d))];
    assert after[p].col == after[k].col && p != k;
  }

  /** A remake would copy into distinct columns and keep all data exactly when the name
      of a column it creates or renames is not that of another column. */
  lemma KeepsIffFresh(fs: Fields, c: Change, d: Defaults)
    requires OnTable(fs, c)
    ensures DistinctCols(EntriesOf(fs, c, d)) && (forall row :: Keeps(fs, c, d, row)) <==> FreshChange(fs, c)
  {
    hide EntriesOf, Keeps, DistinctCols;
    if FreshChange(fs, c) {
      FreshIsDistinct(fs, c, d);
      forall row
        ensures Keeps(fs, c, d, row)
      {
        FreshKeeps(fs, c, d, row);
      }
    } else if c.Create? {
      CreatedTwice(fs, c.field, d);
    } else {
      RenamedOnto(fs, c.alteration, d);
    }
  }

  lemma RemovalKeepsDistinct(fs: Fields, at: nat)
    requires DistinctNames(fs) && at < |fs|
    ensures DistinctNames(RemoveAt(fs, at))
  {
    var r := RemoveAt(fs, at);
    assert forall j :: 0 <= j < |r| ==> r[j] == fs[if j < at then j else j + 1];
  }

  lemma AdditionDistinct(fs: Fields, f: NamedField)
    requires DistinctNames(fs)
    ensures DistinctNames(fs + [f]) <==> !HasField(fs, f.name)
  {
    if HasField(fs, f.name) {
      assert (fs + [f])[FieldIndex(fs, f.name)].name == (fs + [f])[|fs|].name;
    }
  }

  lemma AlterationDistinct(fs: Fields, p: nat, f: NamedField)
    requires DistinctNames(fs) && p < |fs|
    ensures DistinctNames(fs[p := f]) <==> f.name == fs[p].name || !HasField(fs, f.name)
  {
    if f.name != fs[p].name && HasField(fs, f.name) {
      assert fs[p := f][FieldIndex(fs, f.name)].name == fs[p := f][p].name;
    }
  }

  lemma BodyDistinct(fs: Fields, c: Change)
    requires OnTable(fs, c)
    ensures DistinctNames(RemakeBody(fs, CreateOf(c), DeleteOf(c), AltersOf(c))) <==> FreshChange(fs, c)
  {
    match c
    case Rebuild =>
    case Create(f) =>
      assert AltersOf(c) == [] && CreateOf(c) == Some(f);
      AdditionDistinct(fs, f);
    case Delete(name) => RemovalKeepsDistinct(fs, FieldIndex(fs, name));
    case Alter(a) =>
      assert [a][..|[a]| - 1] == [] && BodyAltered(fs, []) == fs;
      assert BodyAltered(fs, [a]) == fs[FieldIndex(fs, a.old_.name) := a.new_];
      AlterationDistinct(fs, FieldIndex(fs, a.old_.name), a.new_);
  }

  lemma SameNamesThere(fs: Fields, gs: Fields, name: string)
    requires |fs| == |gs| && forall i :: 0 <= i < |fs| ==> fs[i].name == gs[i].name
    ensures HasField(fs, name) <==> HasField(gs, name)
  {
    if HasField(fs, name) {
      assert gs[FieldIndex(fs, name)].name == name;
    }
    if HasField(gs, name) {
      assert fs[FieldIndex(gs, name)].name == name;
    }
  }

  /** The new table has no column twice exactly under the same condition. Without it the
      table cannot be created, so the remake ends before it copies or drops anything. */
  lemma CreatableIffFresh(fs: Fields, c: Change)
    requires OnTable(fs, c)
    ensures var body := RemakeBody(OldFields(fs, CreateOf(c), AltersOf(c)), CreateOf(c), DeleteOf(c), AltersOf(c));
      DistinctNames(body) <==> FreshChange(fs, c)
  {
    var old_ := OldFields(fs, CreateOf(c), AltersOf(c));
    hide RemakeBody, OldFields, HasField;
    forall name
      ensures HasField(fs, name) <==> HasField(old_, name)
    {
      SameNamesThere(fs, old_, name);
    }
    BodyDistinct(old_, c);
  }

  // --- What is in the new table ---

  /** The field, which is no longer the primary key when another one is to be. */
  function Demoted(f: NamedField, another: bool): NamedField {
    if another then f.(field := f.field.(primaryKey := false)) else f
  }

  lemma OldFieldIs(fs: Fields, c: Change, i: nat)
    requires OnTable(fs, c) && FreshChange(fs, c) && i < |fs|
    ensures var g := OldFields(fs, CreateOf(c), AltersOf(c))[i];
      match c
      case Create(f) => g == Demoted(fs[i], f.field.primaryKey)
      case Alter(a) => fs[i].name != a.old_.name ==> g == Demoted(fs[i], a.new_.field.primaryKey)
      case _ => g == fs[i]
  {
    hide FieldIndex;
    match c
    case Alter(a) =>
      assert AltersOf(c)[0] == a;
      assert HasField(fs, fs[i].name) by {
        assert FieldIndex(fs, fs[i].name) >= 0;
      }
    case Create(f) => assert CreateOf(c) == Some(f) && AltersOf(c) == [];
    case _ => assert CreateOf(c) == None && AltersOf(c) == [];
  }

  /** The new table has the old fields without the one deleted or altered, and the one
      created or the new form of the one altered; the old primary key stays one exactly
      when that is none. */
  lemma NewTableIs(fs: Fields, c: Change, g: NamedField)
    requires OnTable(fs, c) && FreshChange(fs, c)
    ensures var body := RemakeBody(OldFields(fs, CreateOf(c), AltersOf(c)), CreateOf(c), DeleteOf(c), AltersOf(c));
      g in body <==>
        match c
        case Rebuild => g in fs
        case Create(f) => g == f || exists h :: h in fs && g == Demoted(h, f.field.primaryKey)
        case Delete(name) => g in fs && g.name != name
        case Alter(a) =>
          g == a.new_ || exists h :: h in fs && h.name != a.old_.name && g == Demoted(h, a.new_.field.primaryKey)
  {
    var old_ := OldFields(fs, CreateOf(c), AltersOf(c));
    forall i | 0 <= i < |fs|
      ensures match c
        case Create(f) => old_[i] == Demoted(fs[i], f.field.primaryKey)
        case Alter(a) => fs[i].name != a.old_.name ==> old_[i] == Demoted(fs[i], a.new_.field.primaryKey)
        case _ => old_[i] == fs[i]
    {
      OldFieldIs(fs, c, i);
    }
    hide OldFields, Demoted;
    match c
    case Rebuild => assert old_ == fs;
    case Create(f) => assert BodyAltered(old_ + [f], []) == old_ + [f];
    case Delete(name) =>
      assert old_ == fs && BodyAltered(fs, []) == fs;
      InRemoved(fs, FieldIndex(fs, name), g);
    case Alter(a) =>
      SameNamesThere(fs, old_, a.old_.name);
      var p := FieldIndex(old_, a.old_.name);
      assert [a][..|[a]| - 1] == [] && BodyAltered(old_, []) == old_ && BodyAltered(old_, [a]) == old_[p := a.new_];
      InUpdated(fs, old_, p, a.new_, g);
  }

  lemma InRemoved(fs: Fields, p: nat, g: NamedField)
    requires DistinctNames(fs) && p < |fs|
    ensures g in RemoveAt(fs, p) <==> g in fs && g.name != fs[p].name
  {
    var r := RemoveAt(fs, p);
    assert forall k :: 0 <= k < |r| ==> r[k] == fs[if k < p then k else k + 1];
    if g in fs && g.name != fs[p].name {
      var i :| 0 <= i < |fs| && fs[i] == g;
      assert r[if i < p then i else i - 1] == g;
    }
  }

  lemma InUpdated(fs: Fields, gs: Fields, p: nat, f: NamedField, g: NamedField)
    requires DistinctNames(fs) && |fs| == |gs| && p < |fs|
    ensures g in gs[p := f] <==> g == f || exists i :: 0 <= i < |fs| && fs[i].name != fs[p].name && gs[i] == g
  {
    if i :| 0 <= i < |fs| && fs[i].name != fs[p].name && gs[i] == g {
      assert gs[p := f][i] == g;
    }
    assert gs[p := f][p] == f;
  }
}
