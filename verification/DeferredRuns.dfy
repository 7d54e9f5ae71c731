/** Queued statements while tables and columns are renamed: they stay spelled with the
    names the database has. */
module DeferredRuns {
  import opened Wrappers
  import opened Digraph
  import opened Names
  import opened References
  import opened Deferred

  ghost predicate AllKnown(cat: Catalog, ps: seq<Template>) {
    forall i :: 0 <= i < |ps| ==> KnownParts(cat, ps[i])
  }

  ghost function BuildAll(ps: seq<Template>, cat: Catalog): (r: seq<Ref>)
    requires AllKnown(cat, ps)
    ensures |r| == |ps|
  {
    seq(|ps|, i requires 0 <= i < |ps| && KnownParts(cat, ps[i]) => Build(ps[i], cat))
  }

  /** Every statement is the one that would be built from its parts with the names of
      the catalog. */
  ghost predicate SpelledWith(ss: seq<Statement>, parts: seq<seq<Template>>, cat: Catalog)
    reads ss
  {
    |ss| == |parts| && forall i :: 0 <= i < |ss| ==> AllKnown(cat, parts[i]) && ss[i].refs == BuildAll(parts[i], cat)
  }

  /** What things are called once the editor has made the rename: a table keeps its name
      where the database takes the two for the same. */
  function Called(cat: Catalog, r: Rename, ignoresCase: bool): Catalog
    requires r.TableTo? ==> r.table in cat.tables
  {
    if r.TableTo? && ignoresCase && EqualFold(cat.tables[r.table], r.name) then cat else After(cat, r)
  }

  /** However tables and columns are called, a statement passes for one about a table or a
      column exactly when one of its parts was built for that. */
  lemma AboutItsParts(ps: seq<Template>, cat: Catalog, t: nat, id: ColumnId)
    requires Unambiguous(cat) && AllKnown(cat, ps) && t in cat.tables && id in cat.columns && id.table in cat.tables
    ensures AnyTable(BuildAll(ps, cat), cat.tables[t]) <==> exists i :: 0 <= i < |ps| && OfTheTable(ps[i], t)
    ensures AnyColumn(BuildAll(ps, cat), cat.tables[id.table], cat.columns[id]) <==>
      exists i :: 0 <= i < |ps| && OfTheColumn(ps[i], id)
  {
    var refs := BuildAll(ps, cat);
    forall i | 0 <= i < |ps|
      ensures ReferencesTable(refs[i], cat.tables[t]) <==> OfTheTable(ps[i], t)
      ensures ReferencesColumn(refs[i], cat.tables[id.table], cat.columns[id]) <==> OfTheColumn(ps[i], id)
    {
      AboutWhatItIsOf(ps[i], cat, t, id);
    }
    hide ReferencesTable, ReferencesColumn, OfTheTable, OfTheColumn, BuildAll;
    if AnyTable(refs, cat.tables[t]) {
      var i :| 0 <= i < |refs| && ReferencesTable(refs[i], cat.tables[t]);
      assert OfTheTable(ps[i], t);
    }
    if i :| 0 <= i < |ps| && OfTheTable(ps[i], t) {
      assert ReferencesTable(refs[i], cat.tables[t]);
    }
    if AnyColumn(refs, cat.tables[id.table], cat.columns[id]) {
      var i :| 0 <= i < |refs| && ReferencesColumn(refs[i], cat.tables[id.table], cat.columns[id]);
      assert OfTheColumn(ps[i], id);
    }
    if i :| 0 <= i < |ps| && OfTheColumn(ps[i], id) {
      assert ReferencesColumn(refs[i], cat.tables[id.table], cat.columns[id]);
    }
  }

  lemma AllFollow(ps: seq<Template>, cat: Catalog, r: Rename)
    requires Unambiguous(cat) && AllKnown(cat, ps) && FreshRename(cat, r)
    ensures AllKnown(After(cat, r), ps)
    ensures r.TableTo? ==> TablesRenamed(BuildAll(ps, cat), cat.tables[r.table], r.name) == BuildAll(ps, After(cat, r))
    ensures r.ColumnTo? ==>
      ColumnsRenamed(BuildAll(ps, cat), cat.tables[r.id.table], cat.columns[r.id], r.name)
        == BuildAll(ps, After(cat, r))
  {
    forall i | 0 <= i < |ps|
      ensures KnownParts(After(cat, r), ps[i]) && Follow(Build(ps[i], cat), cat, r) == Build(ps[i], After(cat, r))
    {
      BuildFollows(ps[i], cat, r);
    }
    hide FreshRename, Unambiguous, KnownParts, Build, RenameTable, RenameColumn, After;
    var now := BuildAll(ps, After(cat, r));
    if r.TableTo? {
      assert TablesRenamed(BuildAll(ps, cat), cat.tables[r.table], r.name) == now;
    } else {
      assert ColumnsRenamed(BuildAll(ps, cat), cat.tables[r.id.table], cat.columns[r.id], r.name) == now;
    }
  }

  lemma StillDistinctNames(cat: Catalog, r: Rename, ignoresCase: bool)
    requires Unambiguous(cat) && FreshRename(cat, r)
    ensures Unambiguous(Called(cat, r, ignoresCase))
  {
    StillUnambiguous(cat, r);
  }

  /** One rename, of a table or of a column, to a name that is free. */
  method RenameOne(ed: Editor, cat: Catalog, r: Rename, sql: string, ghost parts: seq<seq<Template>>) returns (ok: bool)
    requires ed.Valid() && Unambiguous(cat) && FreshRename(cat, r) && SpelledWith(ed.deferred, parts, cat)
    modifies ed`executed, ed.deferred
    ensures ed.Valid() && ed.deferred == old(ed.deferred)
    ensures SpelledWith(ed.deferred, parts, if ok then Called(cat, r, ed.ignoresTableNameCase) else cat)
    ensures !ok ==> !ed.accepts(ed.executed, sql)
  {
    ghost var queue := ed.deferred;
    forall i | 0 <= i < |queue|
      ensures AllKnown(After(cat, r), parts[i])
      ensures r.TableTo? ==>
        TablesRenamed(BuildAll(parts[i], cat), cat.tables[r.table], r.name) == BuildAll(parts[i], After(cat, r))
      ensures r.ColumnTo? ==>
        ColumnsRenamed(BuildAll(parts[i], cat), cat.tables[r.id.table], cat.columns[r.id], r.name)
          == BuildAll(parts[i], After(cat, r))
    {
      AllFollow(parts[i], cat, r);
    }
    assert r.ColumnTo? ==> cat.columns[r.id] != r.name;
    assert r.TableTo? ==> cat.tables[r.table] != r.name;
    hide Unambiguous, AllKnown, TablesRenamed, ColumnsRenamed, BuildAll, After;
    match r
    case TableTo(t, name) => ok := ed.AlterDBTable(cat.tables[t], name, sql);
    case ColumnTo(id, name) => ok := ed.RenameColumnOf(cat.tables[id.table], cat.columns[id], name, sql);
  }

  /** Every rename is to a name that is free when its turn comes. */
  ghost predicate FreeRun(cat: Catalog, rs: seq<Rename>, ignoresCase: bool)
    decreases |rs|
  {
    rs == [] || (FreshRename(cat, rs[0]) && FreeRun(Called(cat, rs[0], ignoresCase), rs[1..], ignoresCase))
  }

  ghost function CalledAfter(cat: Catalog, rs: seq<Rename>, ignoresCase: bool): Catalog
    requires FreeRun(cat, rs, ignoresCase)
    decreases |rs|
  {
    if rs == [] then cat else CalledAfter(Called(cat, rs[0], ignoresCase), rs[1..], ignoresCase)
  }

  /** A migration's renames, up to the first that the database refuses: every queued
      statement reads as if it had been built with the names things have then. */
  method RenameAll(ed: Editor, cat: Catalog, rs: seq<Rename>, sqls: seq<string>, ghost parts: seq<seq<Template>>)
    returns (n: nat)
    requires ed.Valid() && |sqls| == |rs| && FreeRun(cat, rs, ed.ignoresTableNameCase)
    requires Unambiguous(cat) && SpelledWith(ed.deferred, parts, cat)
    modifies ed`executed, ed.deferred
    ensures ed.Valid() && ed.deferred == old(ed.deferred) && n <= |rs| && FreeRun(cat, rs[..n], ed.ignoresTableNameCase)
    ensures SpelledWith(ed.deferred, parts, CalledAfter(cat, rs[..n], ed.ignoresTableNameCase))
    ensures n < |rs| ==> !ed.accepts(ed.executed, sqls[n])
    decreases |rs|
  {
    if rs == [] {
      assert rs[..0] == [];
      return 0;
    }
    var ignores := ed.ignoresTableNameCase;
    var ok := RenameOne(ed, cat, rs[0], sqls[0], parts);
    if !ok {
      assert rs[..0] == [];
      return 0;
    }
    StillDistinctNames(cat, rs[0], ignores);
    var now := Called(cat, rs[0], ignores);
    hide Unambiguous, FreshRename, SpelledWith;
    n := RenameAll(ed, now, rs[1..], sqls[1..], parts);
    n := n + 1;
    OneRenameMore(cat, rs, n, ignores);
  }

  lemma OneRenameMore(cat: Catalog, rs: seq<Rename>, n: nat, ignoresCase: bool)
    requires rs != [] && 0 < n <= |rs| && FreshRename(cat, rs[0])
    requires FreeRun(Called(cat, rs[0], ignoresCase), rs[1..][..n - 1], ignoresCase)
    ensures FreeRun(cat, rs[..n], ignoresCase)
    ensures CalledAfter(cat, rs[..n], ignoresCase)
         == CalledAfter(Called(cat, rs[0], ignoresCase), rs[1..][..n - 1], ignoresCase)
  {
    assert rs[..n][1..] == rs[1..][..n - 1] && rs[..n][0] == rs[0];
  }

  /** Where case counts, the names at the end are those of the renames. */
  lemma {:induction false} CaseCounts(cat: Catalog, rs: seq<Rename>)
    requires FreshRun(cat, rs)
    ensures FreeRun(cat, rs, false) && CalledAfter(cat, rs, false) == AfterAll(cat, rs)
    decreases |rs|
  {
    if rs != [] {
      CaseCounts(After(cat, rs[0]), rs[1..]);
    }
  }
}
