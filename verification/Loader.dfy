/** Building the migration graph from the declared migrations and the recorded
    ones, with squashed migrations standing in for what they replace. */
module Loader {
  import opened Digraph
  import opened Keys
  import opened Wrappers
  import opened Graph
  import opened Contraction
  import opened Declared
  import opened Squashes
  import opened Traversal

  /** order lists the applied keys without repeats. */
  ghost predicate Ledger(applied: set<Key>, order: seq<Key>) {
    Distinct(order) && Lists(order, applied)
  }

  ghost predicate AllResolvedApplied(r: Replacements, k: Key, applied: set<Key>) {
    forall x :: Resolves(r, k, x) ==> x in applied
  }

  predicate Done(progress: map<Key, bool>, k: Key) {
    k in progress && progress[k]
  }

  predicate InProgress(progress: map<Key, bool>, k: Key) {
    k in progress && !progress[k]
  }

  /** The squashes begun and not finished are those of path. */
  ghost predicate Pending(progress: map<Key, bool>, path: seq<Key>) {
    forall k :: InProgress(progress, k) <==> k in path
  }

  lemma PendingBegun(progress: map<Key, bool>, path: seq<Key>, key: Key)
    requires Pending(progress, path) && key !in progress
    ensures Pending(progress[key := false], path + [key]) && key !in path
  {}

  lemma PendingFinished(progress: map<Key, bool>, path: seq<Key>, key: Key)
    requires Pending(progress, path + [key]) && key !in path
    ensures Pending(progress[key := true], path) && InProgress(progress, key)
  {
    assert key in path + [key];
    forall k
      ensures k in path + [key] <==> k in path || k == key
    {}
  }

  /** r holds exactly the declared migrations that replace others. */
  ghost predicate Tables(disk: map<Key, Migration>, r: Replacements) {
    && (forall k :: k in r <==> k in disk && disk[k].squashes != [])
    && (forall k :: k in r ==> r[k] == disk[k])
  }

  /** A finished squash is applied exactly when all it resolves to are, and ranked
      above the squashes it lists; one that is not finished is still a node. */
  ghost predicate FoldingState(disk: map<Key, Migration>, r: Replacements, applied: set<Key>, order: seq<Key>,
                               progress: map<Key, bool>, rank: map<Key, nat>, count: nat, v: set<Key>)
  {
    && Tables(disk, r) && Ledger(applied, order)
    && progress.Keys <= r.Keys
    && SubRanked(r, rank, count)
    && (forall k :: k in rank <==> Done(progress, k))
    && (forall k {:trigger AllResolvedApplied(r, k, applied)} ::
          Done(progress, k) ==> (k in applied <==> AllResolvedApplied(r, k, applied)))
    && (forall k :: k in r && !Done(progress, k) ==> k in v)
  }

  /** Whether they are squashes or not, migrations other than squashes keep their record. */
  ghost predicate SameRecord(r: Replacements, applied: set<Key>, applied': set<Key>) {
    forall x :: x !in r ==> (x in applied <==> x in applied')
  }

  lemma ResolvedKeepsRecord(r: Replacements, k: Key, applied: set<Key>, applied': set<Key>)
    requires SameRecord(r, applied, applied')
    ensures AllResolvedApplied(r, k, applied) <==> AllResolvedApplied(r, k, applied')
  {}

  lemma BegunState(disk: map<Key, Migration>, r: Replacements, applied: set<Key>, order: seq<Key>,
                   progress: map<Key, bool>, rank: map<Key, nat>, count: nat, v: set<Key>, key: Key)
    requires FoldingState(disk, r, applied, order, progress, rank, count, v) && key in r && key !in progress
    ensures FoldingState(disk, r, applied, order, progress[key := false], rank, count, v)
    ensures r.Keys - progress[key := false].Keys < r.Keys - progress.Keys
  {
    assert key in r.Keys - progress.Keys;
    forall k
      ensures Done(progress[key := false], k) <==> Done(progress, k)
    {}
  }

  lemma FinishedState(disk: map<Key, Migration>, r: Replacements, applied: set<Key>, order: seq<Key>,
                      progress: map<Key, bool>, rank: map<Key, nat>, count: nat, v: set<Key>,
                      key: Key, applied': set<Key>, order': seq<Key>, v': set<Key>)
    requires FoldingState(disk, r, applied, order, progress, rank, count, v) && InProgress(progress, key)
    requires Ledger(applied', order') && forall x :: x != key ==> (x in applied <==> x in applied')
    requires key in applied' <==> AllResolvedApplied(r, key, applied')
    requires forall x :: x in r[key].squashes && x in r ==> Done(progress, x)
    requires forall k :: k in v && k !in v' ==> k == key || k in r[key].squashes
    ensures FoldingState(disk, r, applied', order', progress[key := true], rank[key := count], count + 1, v')
  {
    SubRankedMore(r, rank, count, key);
    var p := progress[key := true];
    forall k | Done(p, k)
      ensures k in applied' <==> AllResolvedApplied(r, k, applied')
    {
      ResolvedKeepsRecord(r, k, applied, applied');
      assert k == key || Done(progress, k);
    }
    forall k | k in r && !Done(p, k)
      ensures k in v'
    {
      assert k != key && !Done(progress, k);
    }
  }

  /** A squash stands in for what it replaces when all of that is applied, or none. */
  ghost predicate ShouldStandIn(r: Replacements, k: Key, applied: set<Key>) {
    AllResolvedApplied(r, k, applied) || forall x :: Resolves(r, k, x) ==> x !in applied
  }

  ghost predicate GoodFold(r: Replacements, applied: set<Key>, f: Fold) {
    f.key in r && f.squashes == r[f.key].squashes && (f.standsIn <==> ShouldStandIn(r, f.key, applied))
  }

  /** One fold for each finished squash, in the way its replaced migrations ask for. */
  ghost predicate FoldsAre(r: Replacements, applied: set<Key>, progress: map<Key, bool>, folds: seq<Fold>) {
    && (forall i :: 0 <= i < |folds| ==> GoodFold(r, applied, folds[i]) && Done(progress, folds[i].key))
    && (forall i, j :: 0 <= i < j < |folds| ==> folds[i].key != folds[j].key)
    && (forall k :: Done(progress, k) ==> exists i :: 0 <= i < |folds| && folds[i].key == k)
  }

  lemma GoodFoldIs(r: Replacements, applied: set<Key>, f: Fold)
    requires f.key in r && f.squashes == r[f.key].squashes && (f.standsIn <==> ShouldStandIn(r, f.key, applied))
    ensures GoodFold(r, applied, f)
  {}

  lemma StandInKeepsRecord(r: Replacements, k: Key, applied: set<Key>, applied': set<Key>)
    requires SameRecord(r, applied, applied')
    ensures ShouldStandIn(r, k, applied) <==> ShouldStandIn(r, k, applied')
  {
    ResolvedKeepsRecord(r, k, applied, applied');
  }

  lemma FoldsMore(r: Replacements, applied: set<Key>, applied': set<Key>, progress: map<Key, bool>, folds: seq<Fold>,
      f: Fold)
    requires FoldsAre(r, applied, progress, folds) && SameRecord(r, applied, applied')
    requires InProgress(progress, f.key) && GoodFold(r, applied', f)
    ensures FoldsAre(r, applied', progress[f.key := true], folds + [f])
  {
    var p, all := progress[f.key := true], folds + [f];
    forall i | 0 <= i < |all|
      ensures GoodFold(r, applied', all[i]) && Done(p, all[i].key)
    {
      if i < |folds| {
        assert GoodFold(r, applied, folds[i]);
        StandInKeepsRecord(r, folds[i].key, applied, applied');
      }
    }
    hide GoodFold;
    forall k | Done(p, k)
      ensures exists i :: 0 <= i < |all| && all[i].key == k
    {
      if k == f.key {
        assert all[|folds|].key == k;
      } else {
        assert Done(progress, k);
        var i :| 0 <= i < |folds| && folds[i].key == k;
        assert all[i].key == k;
      }
    }
  }

  /** One fold for each squash, in the way its replaced migrations ask for. */
  ghost predicate FoldsEach(r: Replacements, applied: set<Key>, folds: seq<Fold>) {
    && (forall i :: 0 <= i < |folds| ==> GoodFold(r, applied, folds[i]))
    && (forall i, j :: 0 <= i < j < |folds| ==> folds[i].key != folds[j].key)
    && (forall k :: k in r ==> exists i :: 0 <= i < |folds| && folds[i].key == k)
  }

  lemma FoldsAreEach(r: Replacements, applied: set<Key>, progress: map<Key, bool>, folds: seq<Fold>)
    requires FoldsAre(r, applied, progress, folds) && forall k :: k in r ==> Done(progress, k)
    ensures FoldsEach(r, applied, folds)
  {
    hide GoodFold;
  }

  lemma FoldsBegun(r: Replacements, applied: set<Key>, progress: map<Key, bool>, folds: seq<Fold>, key: Key)
    requires FoldsAre(r, applied, progress, folds) && key !in progress
    ensures FoldsAre(r, applied, progress[key := false], folds)
  {
    hide GoodFold;
    var p := progress[key := false];
    forall i | 0 <= i < |folds|
      ensures GoodFold(r, applied, folds[i]) && Done(p, folds[i].key)
    {
      assert GoodFold(r, applied, folds[i]) && Done(progress, folds[i].key);
    }
    forall k | Done(p, k)
      ensures exists i :: 0 <= i < |folds| && folds[i].key == k
    {
      assert Done(progress, k);
    }
  }

  class Loader {
    var diskMigrations: map<Key, Migration>
    var replacements: map<Key, Migration>
    var applied: set<Key>
    var appliedOrder: seq<Key>
    var progress: map<Key, bool>
    var graph: Graph
    const cfg: Settings
    // the finished squashes, ranked above those they list
    ghost var rank: map<Key, nat>
    ghost var count: nat
    // the graph before any folding, and how the finished squashes were folded
    ghost var base: Shape
    ghost var folds: seq<Fold>

    constructor (cfg: Settings)
      ensures this.cfg == cfg && fresh(graph) && graph.nodeMap == map[]
    {
      this.cfg := cfg;
      diskMigrations, replacements, applied, appliedOrder, progress := map[], map[], {}, [], map[];
      rank, count, base, folds := map[], 0, Shape({}, {}), [];
      graph := new Graph();
    }

    ghost function ShapeNow(): Shape
      reads this`graph, graph, graph.nodeMap.Values
    {
      Shape(graph.nodeMap.Keys, graph.Edges())
    }

    /** What folding squashes into the graph keeps. */
    ghost predicate Folding()
      reads this, graph, graph.nodeMap.Values
    {
      && FoldingState(diskMigrations, replacements, applied, appliedOrder, progress, rank, count, graph.nodeMap.Keys)
      && FoldsAre(replacements, applied, progress, folds) && ShapeNow() == AllFolded(base, folds)
    }

    method MarkApplied(k: Key)
      requires Ledger(applied, appliedOrder)
      modifies this`applied, this`appliedOrder
      ensures Ledger(applied, appliedOrder) && applied == old(applied) + {k}
      ensures appliedOrder == if k in old(applied) then old(appliedOrder) else old(appliedOrder) + [k]
    {
      if k !in applied {
        applied := applied + {k};
        appliedOrder := appliedOrder + [k];
      }
    }

    method UnmarkApplied(k: Key)
      requires Ledger(applied, appliedOrder)
      modifies this`applied, this`appliedOrder
      ensures Ledger(applied, appliedOrder) && applied == old(applied) - {k}
    {
      if k !in applied {
        return;
      }
      applied := applied - {k};
      var i := 0;
      while i < |appliedOrder| && appliedOrder[i] != k
        invariant i <= |appliedOrder| && forall j :: 0 <= j < i ==> appliedOrder[j] != k
      {
        i := i + 1;
      }
      if i < |appliedOrder| {
        CutOut(appliedOrder, i);
        appliedOrder := appliedOrder[..i] + appliedOrder[i + 1..];
      }
    }

    /** The migrations mig replaces once squashes it lists are followed. */
    method ResolveReplacedKeys(mig: Migration, ghost bound: nat) returns (out: set<Key>)
      requires Tables(diskMigrations, replacements) && SubRanked(replacements, rank, count)
      requires forall x :: x in mig.squashes && x in replacements ==> x in rank && rank[x] < bound
      ensures forall y :: y in out <==> exists x :: x in mig.squashes && StandsFor(replacements, x, y)
      decreases bound
    {
      out := {};
      for i := 0 to |mig.squashes|
        invariant forall y :: y in out <==> exists j :: 0 <= j < i && StandsFor(replacements, mig.squashes[j], y)
      {
        var k := mig.squashes[i];
        if k in diskMigrations && diskMigrations[k].squashes != [] {
          var sub := ResolveReplacedKeys(diskMigrations[k], rank[k]);
          forall y
            ensures y in sub <==> StandsFor(replacements, k, y)
          {
            ResolvesThrough(replacements, k, y);
          }
          out := out + sub;
        } else {
          out := out + {k};
        }
      }
    }

    /** What a step of folding leaves alone: the declarations, which squashes are
        finished, and everything recorded about migrations that are no squashes. */
    twostate predicate Onwards()
      reads this, graph
    {
      && graph == old(graph) && graph.nodeMap.Values <= old(graph.nodeMap.Values) && base == old(base)
      && diskMigrations == old(diskMigrations) && replacements == old(replacements)
      && SameRecord(replacements, applied, old(applied))
      && old(progress.Keys) <= progress.Keys
      && forall k :: Done(old(progress), k) ==> Done(progress, k)
    }

    /** Folds one squash into the graph, after the squashes it lists. The marks of
        those begun but not finished make this end on any declarations; path is
        how the squash was come to. */
    method ReplaceMigration(key: Key, ghost path: seq<Key>) returns (err: Option<LoadError>)
      requires graph.Valid() && Folding() && key in replacements
      requires Pending(progress, path) && IsPath(SquashEdges(replacements), path + [key])
      modifies this, graph, graph.nodeMap.Values
      ensures graph.Valid() && Onwards()
      ensures err.Some? ==> err.value.CyclicSquash? && HasCycle(SquashEdges(replacements))
      ensures err.None? ==> Folding() && Pending(progress, path) && Done(progress, key)
      decreases replacements.Keys - progress.Keys, 1
    {
      hide Graph.Valid, FoldingState;
      if key in progress {
        if progress[key] {
          return None;
        }
        ClosesSquashCycle(replacements, path, key);
        return Some(CyclicSquash(key));
      }
      PendingBegun(progress, path, key);
      BegunState(diskMigrations, replacements, applied, appliedOrder, progress, rank, count, graph.nodeMap.Keys, key);
      FoldsBegun(replacements, applied, progress, folds, key);
      progress := progress[key := false];
      var mig := replacements[key];
      err := ReplaceListed(key, mig, path + [key]);
      if err.None? {
        FinishSquash(key, mig, path);
      }
    }

    /** Folds the squashes mig lists. */
    method ReplaceListed(key: Key, mig: Migration, ghost path: seq<Key>) returns (err: Option<LoadError>)
      requires graph.Valid() && Folding() && key in replacements && mig == replacements[key]
      requires Pending(progress, path) && IsPath(SquashEdges(replacements), path) && path[|path| - 1] == key
      modifies this, graph, graph.nodeMap.Values
      ensures graph.Valid() && Onwards()
      ensures err.Some? ==> err.value.CyclicSquash? && HasCycle(SquashEdges(replacements))
      ensures err.None? ==> Folding() && Pending(progress, path)
      ensures err.None? ==> forall x :: x in mig.squashes && x in replacements ==> Done(progress, x)
      decreases replacements.Keys - progress.Keys, 2
    {
      hide Graph.Valid, FoldingState;
      for i := 0 to |mig.squashes|
        invariant graph.Valid() && Onwards() && Folding() && Pending(progress, path)
        invariant forall x :: x in mig.squashes[..i] && x in replacements ==> Done(progress, x)
      {
        var rk := mig.squashes[i];
        if rk in replacements {
          SquashEdge(replacements, key, rk);
          LongerPath(SquashEdges(replacements), path, rk);
          err := ReplaceMigration(rk, path);
          if err.Some? {
            return;
          }
        }
        assert mig.squashes[..i + 1] == mig.squashes[..i] + [rk];
      }
      assert mig.squashes[..|mig.squashes|] == mig.squashes;
      err := None;
    }

    /** The listed squashes being done, decides about the squash itself. */
    method FinishSquash(key: Key, mig: Migration, ghost path: seq<Key>)
      requires graph.Valid() && Folding() && key in replacements && mig == replacements[key]
      requires Pending(progress, path + [key]) && key !in path
      requires forall x :: x in mig.squashes && x in replacements ==> Done(progress, x)
      modifies this, graph, graph.nodeMap.Values
      ensures graph.Valid() && Onwards()
      ensures Folding() && Pending(progress, path) && Done(progress, key)
    {
      hide Graph.Valid, FoldingState, FoldsAre, AllFolded, Folded, GoodFold, Graph.Edges;
      PendingFinished(progress, path, key);
      var standsIn := DecideAndFold(key, mig);
      ghost var f := Fold(key, mig.squashes, standsIn);
      GoodFoldIs(replacements, applied, f);
      FoldsMore(replacements, old(applied), applied, progress, folds, f);
      FoldedMore(base, folds, f);
      FinishedState(diskMigrations, replacements, old(applied), old(appliedOrder), progress, rank, count,
                    old(graph.nodeMap.Keys), key, applied, appliedOrder, graph.nodeMap.Keys);
      progress := progress[key := true];
      rank, count := rank[key := count], count + 1;
      folds := folds + [f];
    }

    method DecideAndFold(key: Key, mig: Migration) returns (standsIn: bool)
      requires graph.Valid() && Folding() && key in replacements && mig == replacements[key] &&
        InProgress(progress, key)
      requires forall x :: x in mig.squashes && x in replacements ==> Done(progress, x)
      modifies this`applied, this`appliedOrder, graph, graph.nodeMap.Values
      ensures graph.Valid() && graph.nodeMap.Values <= old(graph.nodeMap.Values)
      ensures forall k :: k in old(graph.nodeMap) && k !in graph.nodeMap ==> k == key || k in mig.squashes
      ensures Ledger(applied, appliedOrder) && forall x :: x != key ==> (x in old(applied) <==> x in applied)
      ensures key in applied <==> AllResolvedApplied(replacements, key, applied)
      ensures standsIn <==> ShouldStandIn(replacements, key, applied)
      ensures ShapeNow() == Folded(old(ShapeNow()), Fold(key, mig.squashes, standsIn))
    {
      hide Graph.Valid, Graph.Edges, Folded, FoldingState, FoldsAre, AllFolded, AllResolvedApplied, ShouldStandIn,
        Ledger;
      NotItsOwn(key, mig);
      standsIn := Decide(key, mig);
      FoldGraph(key, mig, standsIn);
    }

    lemma NotItsOwn(key: Key, mig: Migration)
      requires Folding() && key in replacements && mig == replacements[key] && InProgress(progress, key)
      requires forall x :: x in mig.squashes && x in replacements ==> Done(progress, x)
      ensures key !in mig.squashes && key in graph.nodeMap
    {}

    /** Marks the squash applied exactly when all it resolves to are; it stands in
        for them when all or none are. */
    method Decide(key: Key, mig: Migration) returns (standsIn: bool)
      requires Folding() && key in replacements && mig == replacements[key] && InProgress(progress, key)
      requires forall x :: x in mig.squashes && x in replacements ==> Done(progress, x)
      modifies this`applied, this`appliedOrder
      ensures Ledger(applied, appliedOrder) && forall x :: x != key ==> (x in old(applied) <==> x in applied)
      ensures key in applied <==> AllResolvedApplied(replacements, key, applied)
      ensures standsIn <==> ShouldStandIn(replacements, key, applied)
    {
      var replaced := ResolveReplacedKeys(mig, count);
      forall y
        ensures y in replaced <==> Resolves(replacements, key, y)
      {
        ResolvesThrough(replacements, key, y);
      }
      var allApplied := forall k :: k in replaced ==> k in applied;
      var someApplied := exists k :: k in replaced && k in applied;
      if allApplied {
        MarkApplied(key);
      } else {
        UnmarkApplied(key);
      }
      standsIn := allApplied || !someApplied;
    }

    /** The missing-node error of the two removals cannot happen. */
    method FoldGraph(key: Key, mig: Migration, standsIn: bool)
      requires graph.Valid() && key in graph.nodeMap && key !in mig.squashes
      modifies graph, graph.nodeMap.Values
      ensures graph.Valid()
      ensures graph.nodeMap == old(graph.nodeMap) - (if standsIn then Elements(mig.squashes) else {key})
      ensures graph.nodeMap.Values <= old(graph.nodeMap.Values)
      ensures ShapeNow() == Folded(old(ShapeNow()), Fold(key, mig.squashes, standsIn))
    {
      hide Graph.Valid, Graph.Edges, Contracted, Unsquashed;
      var err;
      if standsIn {
        err := graph.RemoveReplacedNodes(key, mig.squashes);
      } else {
        err := graph.RemoveReplacementNode(key, mig.squashes);
      }
      assert err.None?;
    }

    /** Folds every squash, in key order. Fails exactly when some squash replaces
        itself, directly or through others. */
    method ReplaceAll() returns (err: Option<LoadError>)
      requires graph.Valid() && Tables(diskMigrations, replacements) && Ledger(applied, appliedOrder)
      requires progress == map[] && rank == map[] && replacements.Keys <= graph.nodeMap.Keys
      requires folds == [] && base == ShapeNow()
      modifies this, graph, graph.nodeMap.Values
      ensures graph.Valid() && Onwards()
      ensures err.Some? <==> HasCycle(SquashEdges(replacements))
      ensures err.Some? ==> err.value.CyclicSquash?
      ensures err.None? ==> Ledger(applied, appliedOrder)
      ensures err.None? ==> MarkedAs(replacements, applied)
      ensures err.None? ==> ShapeNow() == AllFolded(base, folds) && FoldsEach(replacements, applied, folds)
    {
      hide Graph.Valid, Graph.Edges, HasCycle, SquashEdges, AllFolded, FoldsEach, MarkedAs, FoldingState, FoldsAre;
      var ks := ListKeys(diskMigrations.Keys);
      NothingBegun();
      err := ReplaceEach(ks);
      if err.None? {
        EverythingDone(ks);
      }
    }

    lemma NothingBegun()
      requires Tables(diskMigrations, replacements) && Ledger(applied, appliedOrder)
      requires progress == map[] && rank == map[] && replacements.Keys <= graph.nodeMap.Keys
      requires folds == [] && base == ShapeNow()
      ensures Folding() && Pending(progress, [])
    {
      NoneFolded(base);
      hide Graph.Edges, AllFolded;
    }

    lemma EverythingDone(ks: seq<Key>)
      requires Folding() && Lists(ks, diskMigrations.Keys)
      requires forall k :: k in ks && k in replacements ==> Done(progress, k)
      ensures !HasCycle(SquashEdges(replacements)) && Ledger(applied, appliedOrder) && MarkedAs(replacements, applied)
      ensures FoldsEach(replacements, applied, folds)
    {
      hide FoldsAre, FoldsEach, Graph.Edges, AllFolded;
      assert forall k :: k in replacements ==> k in ks;
      AllRankedAcyclic(replacements, rank, count);
      FoldsAreEach(replacements, applied, progress, folds);
      AllAgree(diskMigrations, replacements, applied, appliedOrder, progress, rank, count, graph.nodeMap.Keys);
    }

    method ReplaceEach(ks: seq<Key>) returns (err: Option<LoadError>)
      requires graph.Valid() && Folding() && Pending(progress, [])
      modifies this, graph, graph.nodeMap.Values
      ensures graph.Valid() && Onwards()
      ensures err.Some? ==> err.value.CyclicSquash? && HasCycle(SquashEdges(replacements))
      ensures err.None? ==> Folding() && forall k :: k in ks && k in replacements ==> Done(progress, k)
    {
      hide Graph.Valid, FoldingState;
      for i := 0 to |ks|
        invariant graph.Valid() && Onwards() && Folding() && Pending(progress, [])
        invariant forall k :: k in ks[..i] && k in replacements ==> Done(progress, k)
      {
        if ks[i] in replacements {
          assert [] + [ks[i]] == [ks[i]];
          err := ReplaceMigration(ks[i], []);
          if err.Some? {
            return;
          }
        }
        assert ks[..i + 1] == ks[..i] + [ks[i]];
      }
      assert ks[..|ks|] == ks;
      err := None;
    }

    // --- Building the graph ---

    /** The node a dependency stands for: the app's first or latest migration when
        it names no migration itself, nothing when it can be ignored. */
    method CheckKey(key: Key, currentApp: string) returns (r: Result<Option<Key>, LoadError>)
      requires graph.Valid()
      ensures r == Resolved(ShapeNow(), key, currentApp, cfg)
    {
      graph.KeysAgree();
      if key.name !in {FIRST, LATEST} || graph.Has(key) {
        return Ok(Some(key));
      }
      if key.app == currentApp || key.app in cfg.unmigratedApps {
        return Ok(None);
      }
      if key.app in cfg.migratedApps {
        var nodes := EndNodes(graph, key.app, key.name == FIRST, graph.Edges());
        if nodes == [] {
          if cfg.ignoreNoMigrations {
            return Ok(None);
          }
          return Err(BadDependency(key.app));
        }
        return Ok(Some(nodes[0]));
      }
      return Err(BadDependency(key.app));
    }

    /** Adds an edge, and stand-ins for the ends that are missing. */
    method Depend(mig: Migration, child: Key, parent: Key)
      requires graph.Valid()
      modifies graph, graph.nodeMap.Values
      ensures graph.Valid() && fresh(graph.nodeMap.Values - old(graph.nodeMap.Values))
      ensures ShapeNow() == WithDependency(old(ShapeNow()), child, parent)
    {
      hide Graph.Valid, Graph.Edges;
      var _ := graph.AddDependency(mig.name, child, parent, true);
    }

    /** Links a migration to the ones of its own app it depends on. */
    method AddInternalDependencies(key: Key, mig: Migration)
      requires graph.Valid()
      modifies graph, graph.nodeMap.Values
      ensures graph.Valid() && fresh(graph.nodeMap.Values - old(graph.nodeMap.Values))
      ensures ShapeNow() == WithInternal(old(ShapeNow()), key, mig.dependencies)
    {
      hide Graph.Valid, Graph.Edges;
      for i := 0 to |mig.dependencies|
        invariant graph.Valid() && fresh(graph.nodeMap.Values - old(graph.nodeMap.Values))
        invariant ShapeNow() == WithInternal(old(ShapeNow()), key, mig.dependencies[..i])
      {
        var parent := mig.dependencies[i];
        assert mig.dependencies[..i + 1][..i] == mig.dependencies[..i];
        if parent.app == key.app && parent.name != FIRST {
          Depend(mig, key, parent);
        }
      }
      assert mig.dependencies[..|mig.dependencies|] == mig.dependencies;
    }

    /** Links a migration to those of other apps it depends on. */
    method AddParents(key: Key, mig: Migration) returns (err: Option<LoadError>)
      requires graph.Valid()
      modifies graph, graph.nodeMap.Values
      ensures graph.Valid() && fresh(graph.nodeMap.Values - old(graph.nodeMap.Values))
      ensures err.None? ==> WithExternal(old(ShapeNow()), key, mig.dependencies, cfg) == Ok(ShapeNow())
      ensures err.Some? ==> WithExternal(old(ShapeNow()), key, mig.dependencies, cfg) == Err(err.value)
    {
      hide Graph.Valid, Graph.Edges, Resolved, WithDependency;
      ghost var start := ShapeNow();
      for i := 0 to |mig.dependencies|
        invariant graph.Valid() && fresh(graph.nodeMap.Values - old(graph.nodeMap.Values))
        invariant WithExternal(start, key, mig.dependencies[..i], cfg) == Ok(ShapeNow())
      {
        assert mig.dependencies[..i + 1][..i] == mig.dependencies[..i];
        if mig.dependencies[i].app != key.app {
          var p := CheckKey(mig.dependencies[i], key.app);
          if p.Err? {
            ExternalFails(start, key, mig.dependencies, cfg, i + 1);
            return Some(p.error);
          }
          if p.value.Some? {
            Depend(mig, key, p.value.value);
          }
        }
      }
      assert mig.dependencies[..|mig.dependencies|] == mig.dependencies;
      err := None;
    }

    /** Links it to those it has to precede. */
    method AddChildren(key: Key, mig: Migration) returns (err: Option<LoadError>)
      requires graph.Valid()
      modifies graph, graph.nodeMap.Values
      ensures graph.Valid() && fresh(graph.nodeMap.Values - old(graph.nodeMap.Values))
      ensures err.None? ==> WithRunBefore(old(ShapeNow()), key, mig.runBefore, cfg) == Ok(ShapeNow())
      ensures err.Some? ==> WithRunBefore(old(ShapeNow()), key, mig.runBefore, cfg) == Err(err.value)
    {
      hide Graph.Valid, Graph.Edges, Resolved, WithDependency;
      ghost var start := ShapeNow();
      for i := 0 to |mig.runBefore|
        invariant graph.Valid() && fresh(graph.nodeMap.Values - old(graph.nodeMap.Values))
        invariant WithRunBefore(start, key, mig.runBefore[..i], cfg) == Ok(ShapeNow())
      {
        assert mig.runBefore[..i + 1][..i] == mig.runBefore[..i];
        var c := CheckKey(mig.runBefore[i], key.app);
        if c.Err? {
          RunBeforeFails(start, key, mig.runBefore, cfg, i + 1);
          return Some(c.error);
        }
        if c.value.Some? {
          Depend(mig, c.value.value, key);
        }
      }
      assert mig.runBefore[..|mig.runBefore|] == mig.runBefore;
      err := None;
    }

    method AddExternalDependencies(key: Key, mig: Migration) returns (err: Option<LoadError>)
      requires graph.Valid()
      modifies graph, graph.nodeMap.Values
      ensures graph.Valid() && fresh(graph.nodeMap.Values - old(graph.nodeMap.Values))
      ensures err.None? ==> WithOthers(old(ShapeNow()), key, mig, cfg) == Ok(ShapeNow())
      ensures err.Some? ==> WithOthers(old(ShapeNow()), key, mig, cfg) == Err(err.value)
    {
      hide Graph.Valid, Graph.Edges;
      err := AddParents(key, mig);
      if err.None? {
        err := AddChildren(key, mig);
      }
    }

    /** Records the applied migrations in the order they were recorded. */
    method ReadApplied(recorded: seq<Key>)
      modifies this`applied, this`appliedOrder
      ensures Ledger(applied, appliedOrder) && applied == Elements(recorded)
    {
      applied, appliedOrder := {}, [];
      for i := 0 to |recorded|
        invariant Ledger(applied, appliedOrder) && applied == Elements(recorded[..i])
      {
        assert recorded[..i + 1] == recorded[..i] + [recorded[i]];
        MarkApplied(recorded[i]);
      }
      assert recorded[..|recorded|] == recorded;
    }

    /** Adds a node for every declared migration and collects the squashes. */
    method AddNodes(ks: seq<Key>)
      requires graph.Valid() && graph.nodeMap.Keys == {} && replacements == map[]
      requires Distinct(ks) && Lists(ks, diskMigrations.Keys)
      modifies this`replacements, graph
      ensures graph.Valid() && fresh(graph.nodeMap.Values - old(graph.nodeMap.Values))
      ensures graph.nodeMap.Keys == diskMigrations.Keys && graph.Edges() == old(graph.Edges())
      ensures Tables(diskMigrations, replacements)
    {
      hide Graph.Valid, Graph.Edges;
      for i := 0 to |ks|
        invariant graph.Valid() && fresh(graph.nodeMap.Values - old(graph.nodeMap.Values))
        invariant graph.nodeMap.Keys == Elements(ks[..i]) && graph.Edges() == old(graph.Edges())
        invariant forall k :: k in replacements <==> k in ks[..i] && diskMigrations[k].squashes != []
        invariant forall k :: k in replacements ==> replacements[k] == diskMigrations[k]
      {
        var k := ks[i];
        assert ks[..i + 1] == ks[..i] + [k];
        var mig := diskMigrations[k];
        graph.AddNode(k, mig);
        if mig.squashes != [] {
          replacements := replacements[k := mig];
        }
      }
      assert ks[..|ks|] == ks;
    }

    method AddAllInternal(ks: seq<Key>)
      requires graph.Valid() && forall k :: k in ks ==> k in diskMigrations
      modifies graph, graph.nodeMap.Values
      ensures graph.Valid() && fresh(graph.nodeMap.Values - old(graph.nodeMap.Values))
      ensures ShapeNow() == AllInternal(old(ShapeNow()), diskMigrations, ks)
    {
      hide Graph.Valid, Graph.Edges;
      for i := 0 to |ks|
        invariant graph.Valid() && fresh(graph.nodeMap.Values - old(graph.nodeMap.Values))
        invariant ShapeNow() == AllInternal(old(ShapeNow()), diskMigrations, ks[..i])
      {
        assert ks[..i + 1][..i] == ks[..i] && ks[i] in ks;
        AddInternalDependencies(ks[i], diskMigrations[ks[i]]);
      }
      assert ks[..|ks|] == ks;
    }

    method AddAllExternal(ks: seq<Key>) returns (err: Option<LoadError>)
      requires graph.Valid() && forall k :: k in ks ==> k in diskMigrations
      modifies graph, graph.nodeMap.Values
      ensures graph.Valid() && fresh(graph.nodeMap.Values - old(graph.nodeMap.Values))
      ensures err.None? ==> AllOthers(old(ShapeNow()), diskMigrations, ks, cfg) == Ok(ShapeNow())
      ensures err.Some? ==> AllOthers(old(ShapeNow()), diskMigrations, ks, cfg) == Err(err.value)
    {
      hide Graph.Valid, Graph.Edges, WithOthers;
      ghost var start := ShapeNow();
      for i := 0 to |ks|
        invariant graph.Valid() && fresh(graph.nodeMap.Values - old(graph.nodeMap.Values))
        invariant AllOthers(start, diskMigrations, ks[..i], cfg) == Ok(ShapeNow())
      {
        assert ks[..i + 1][..i] == ks[..i] && ks[i] in ks;
        err := AddExternalDependencies(ks[i], diskMigrations[ks[i]]);
        if err.Some? {
          OthersFail(start, diskMigrations, ks, cfg, i + 1);
          return;
        }
      }
      assert ks[..|ks|] == ks;
      err := None;
    }

    /** The graph of the declarations, before any folding. */
    method BuildDeclared() returns (err: Option<LoadError>)
      requires replacements == map[]
      modifies this`replacements, this`graph
      ensures graph.Valid() && fresh(graph) && fresh(graph.nodeMap.Values)
      ensures Tables(diskMigrations, replacements)
      ensures err.None? ==> Declaring(diskMigrations, cfg) == Ok(ShapeNow())
      ensures err.Some? ==> Declaring(diskMigrations, cfg) == Err(err.value)
    {
      var ks := SortKeys(diskMigrations.Keys);
      DeclaringIs(diskMigrations, cfg, ks);
      assert WithAll(Shape(diskMigrations.Keys, {}), ks) == Declaring(diskMigrations, cfg);
      hide Graph.Valid, Graph.Edges, Tables, Sorted, Declaring, Distinct, Lists, WithAll;
      NewGraph(ks);
      err := AddAllDependencies(ks);
    }

    ghost function WithAll(sh: Shape, ks: seq<Key>): Result<Shape, LoadError>
      requires forall k :: k in ks ==> k in diskMigrations
      reads this`diskMigrations
    {
      AllOthers(AllInternal(sh, diskMigrations, ks), diskMigrations, ks, cfg)
    }

    method AddAllDependencies(ks: seq<Key>) returns (err: Option<LoadError>)
      requires graph.Valid() && forall k :: k in ks ==> k in diskMigrations
      modifies graph, graph.nodeMap.Values
      ensures graph.Valid() && fresh(graph.nodeMap.Values - old(graph.nodeMap.Values))
      ensures WithAll(old(ShapeNow()), ks) == if err.None? then Ok(ShapeNow()) else Err(err.value)
    {
      hide Graph.Valid, Graph.Edges, AllOthers, AllInternal;
      AddAllInternal(ks);
      err := AddAllExternal(ks);
    }

    method NewGraph(ks: seq<Key>)
      requires replacements == map[] && Distinct(ks) && Lists(ks, diskMigrations.Keys)
      modifies this`replacements, this`graph
      ensures graph.Valid() && fresh(graph) && fresh(graph.nodeMap.Values)
      ensures ShapeNow() == Shape(diskMigrations.Keys, {}) && Tables(diskMigrations, replacements)
    {
      graph := new Graph();
      hide Graph.Valid, Graph.Edges, Tables;
      AddNodes(ks);
    }

    /** A graph that is built has the declared dependencies, as folding the squashes
        leaves them; it holds no stand-in and no cycle, and each error has its reason.
        The ledger lists the applied keys once each, and a folded squash counts as
        applied exactly when everything it resolves to was recorded. */
    method BuildGraph(disk: map<Key, Migration>, recorded: seq<Key>, replaceMigrations: bool)
      returns (err: Option<LoadError>)
      modifies this
      ensures err.None? ==> graph.Valid() && !graph.HasDummy() && Acyclic(graph)
      ensures err.None? ==> Tables(disk, replacements) && Ledger(applied, appliedOrder)
      ensures err.None? ==> Declaring(disk, cfg) == Ok(base) && ShapeNow() == AllFolded(base, folds)
      ensures err.None? ==> if replaceMigrations then FoldsEach(replacements, applied, folds) else folds == []
      ensures err.None? && replaceMigrations ==> !HasCycle(SquashEdges(replacements))
      ensures err.None? && replaceMigrations ==>
        forall k :: k in applied <==> if k in replacements then AllResolvedApplied(replacements, k, Elements(recorded))
          else k in recorded
      ensures err.None? && !replaceMigrations ==> applied == Elements(recorded)
      ensures err.Some? && err.value.BadDependency? ==> Declaring(disk, cfg) == Err(err.value)
      ensures err.Some? && err.value.CyclicSquash? ==> replaceMigrations && HasCycle(SquashEdges(replacements))
      ensures err.Some? && err.value.Failed? ==>
        && graph.Valid() && (graph.HasDummy() || HasCycle(graph.Edges()))
        && Declaring(disk, cfg) == Ok(base) && ShapeNow() == AllFolded(base, folds)
      ensures Declaring(disk, cfg).Err? ==> err.Some? && err.value == Declaring(disk, cfg).error
    {
      hide Graph.Valid, Graph.Edges, AllResolvedApplied, HasCycle, Acyclic, Declaring, FoldsEach, Ledger, AllFolded,
        SquashEdges, Tables,
        MarkedAs, SameRecord;
      err := Begin(disk, recorded);
      if err.Some? {
        return;
      }
      if replaceMigrations {
        err := ReplaceAll();
        if err.Some? {
          return;
        }
        RecordDecides(replacements, applied, Elements(recorded));
      }
      err := Check();
    }

    /** Start over with the declarations and the record. */
    method Begin(disk: map<Key, Migration>, recorded: seq<Key>) returns (err: Option<LoadError>)
      modifies this
      ensures fresh(graph) && graph.Valid() && fresh(graph.nodeMap.Values)
      ensures diskMigrations == disk && progress == map[] && rank == map[] && folds == []
      ensures Tables(disk, replacements) && Ledger(applied, appliedOrder) && applied == Elements(recorded)
      ensures err.None? ==> Declaring(disk, cfg) == Ok(base) && base == ShapeNow() && base == AllFolded(base, [])
      ensures err.None? ==> replacements.Keys <= graph.nodeMap.Keys
      ensures err.Some? ==> Declaring(disk, cfg) == Err(err.value) && err.value.BadDependency?
    {
      hide Graph.Valid, Graph.Edges, Declaring, Ledger, AllFolded, Tables;
      diskMigrations, replacements, progress := disk, map[], map[];
      rank, count, folds := map[], 0, [];
      ReadApplied(recorded);
      err := BuildDeclared();
      base := ShapeNow();
      NoneFolded(base);
      SquashesDeclared(disk, replacements);
    }

    method Check() returns (err: Option<LoadError>)
      requires graph.Valid()
      ensures err.None? ==> !graph.HasDummy() && Acyclic(graph)
      ensures err.Some? ==> err.value.Failed? && (graph.HasDummy() || HasCycle(graph.Edges()))
    {
      var inconsistent := graph.ValidateConsistency();
      if inconsistent.Some? {
        return Some(Failed(inconsistent.value));
      }
      var cyclic := EnsureNotCyclic(graph);
      if cyclic.Some? {
        return Some(Failed(cyclic.value));
      }
      err := None;
    }
  }

  /** What a squash resolves to is no squash, so the marks do not depend on each other. */
  lemma RecordDecides(r: Replacements, applied: set<Key>, recorded: set<Key>)
    requires SameRecord(r, applied, recorded)
    requires MarkedAs(r, applied)
    ensures forall k :: k in applied <==> if k in r then AllResolvedApplied(r, k, recorded) else k in recorded
  {
    forall k | k in r
      ensures AllResolvedApplied(r, k, applied) <==> AllResolvedApplied(r, k, recorded)
    {
      ResolvedKeepsRecord(r, k, applied, recorded);
    }
  }

  lemma SquashesDeclared(disk: map<Key, Migration>, r: Replacements)
    requires Tables(disk, r)
    ensures r.Keys <= disk.Keys
  {}

  /** A squash counts as applied exactly when everything it resolves to does. */
  ghost predicate MarkedAs(r: Replacements, applied: set<Key>) {
    forall k :: k in r ==> (k in applied <==> AllResolvedApplied(r, k, applied))
  }

  lemma AllAgree(disk: map<Key, Migration>, r: Replacements, applied: set<Key>, order: seq<Key>,
                 progress: map<Key, bool>, rank: map<Key, nat>, count: nat, v: set<Key>)
    requires FoldingState(disk, r, applied, order, progress, rank, count, v)
    requires forall k :: k in r ==> Done(progress, k)
    ensures MarkedAs(r, applied)
  {}

  lemma CutOut(s: seq<Key>, i: nat)
    requires i < |s| && Distinct(s)
    ensures var t := s[..i] + s[i + 1..];
      Distinct(t) && forall k :: k in t <==> k in s && k != s[i]
  {
    var t := s[..i] + s[i + 1..];
    assert s == s[..i] + [s[i]] + s[i + 1..];
    forall a, b | 0 <= a < b < |t|
      ensures t[a] != t[b]
    {
      assert t[a] == s[if a < i then a else a + 1] && t[b] == s[if b < i then b else b + 1];
    }
    forall k
      ensures k in t <==> k in s && k != s[i]
    {
      if k in t {
        var a :| 0 <= a < |t| && t[a] == k;
        assert t[a] == s[if a < i then a else a + 1];
      }
    }
  }

  lemma LongerPath(e: set<(Key, Key)>, path: seq<Key>, next: Key)
    requires IsPath(e, path) && (path[|path| - 1], next) in e
    ensures IsPath(e, path + [next])
  {
    var q := path + [next];
    forall i | 0 <= i < |q| - 1
      ensures (q[i], q[i + 1]) in e
    {
      if i < |path| - 1 {
        assert (path[i], path[i + 1]) in e;
      }
    }
  }

  /** Coming back to a squash that is on the path closes a cycle. */
  lemma ClosesSquashCycle(r: Replacements, path: seq<Key>, key: Key)
    requires IsPath(SquashEdges(r), path + [key]) && key in path
    ensures HasCycle(SquashEdges(r))
  {
    var p := path + [key];
    var i :| 0 <= i < |path| && path[i] == key;
    var c := path[i..];
    forall j | 0 <= j < |c| - 1
      ensures (c[j], c[j + 1]) in SquashEdges(r)
    {
      assert c[j] == p[i + j] && c[j + 1] == p[i + j + 1];
    }
    assert (p[|p| - 2], p[|p| - 1]) in SquashEdges(r);
    assert IsCycle(SquashEdges(r), c);
  }
}
