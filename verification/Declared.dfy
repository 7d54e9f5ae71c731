/** The graph the declarations ask for, and what folding squashes makes of it. */
module Declared {
  import opened Digraph
  import opened Keys
  import opened Wrappers
  import opened Graph
  import opened Contraction
  import opened Traversal

  datatype LoadError =
    | CyclicSquash(at: Key)
    | BadDependency(app: string)
    | Failed(error: GraphError)

  /** A graph as its nodes and its edges, from parent to child. */
  datatype Shape = Shape(nodes: set<Key>, edges: set<(Key, Key)>)

  datatype Settings = Settings(unmigratedApps: set<string>, migratedApps: set<string>, ignoreNoMigrations: bool)

  /** The node a dependency of an app stands for, in the graph as it is. */
  ghost function Resolved(sh: Shape, key: Key, currentApp: string, cfg: Settings): (r: Result<Option<Key>, LoadError>)
    ensures r.Err? ==> r.error.BadDependency?
  {
    if key.name !in {FIRST, LATEST} || key in sh.nodes then Ok(Some(key))
    else if key.app == currentApp || key.app in cfg.unmigratedApps then Ok(None)
    else if key.app in cfg.migratedApps then
      var ends := Sorted(EndsOf(StepsOf(sh.edges, key.name == FIRST), sh.nodes, key.app));
      if ends != [] then Ok(Some(ends[0])) else if cfg.ignoreNoMigrations then Ok(None) else Err(BadDependency(key.app))
    else Err(BadDependency(key.app))
  }

  function WithDependency(sh: Shape, child: Key, parent: Key): Shape {
    Shape(sh.nodes + {child, parent}, sh.edges + {(parent, child)})
  }

  /** The dependencies of key on migrations of its own app. */
  function WithInternal(sh: Shape, key: Key, parents: seq<Key>): (r: Shape)
    ensures sh.nodes <= r.nodes
  {
    if parents == [] then sh
    else
      var before, parent := WithInternal(sh, key, parents[..|parents| - 1]), parents[|parents| - 1];
      if parent.app == key.app && parent.name != FIRST then WithDependency(before, key, parent) else before
  }

  /** Its dependencies on migrations of other apps. */
  ghost function WithExternal(sh: Shape, key: Key, parents: seq<Key>, cfg: Settings): (r: Result<Shape, LoadError>)
    ensures if r.Ok? then sh.nodes <= r.value.nodes else r.error.BadDependency?
  {
    if parents == [] then Ok(sh)
    else
      match WithExternal(sh, key, parents[..|parents| - 1], cfg)
      case Err(e) => Err(e)
      case Ok(before) =>
        var parent := parents[|parents| - 1];
        if parent.app == key.app then Ok(before)
        else
          match Resolved(before, parent, key.app, cfg)
          case Err(e) => Err(e)
          case Ok(None) => Ok(before)
          case Ok(Some(p)) => Ok(WithDependency(before, key, p))
  }

  /** The migrations it has to run before. */
  ghost function WithRunBefore(sh: Shape, key: Key, children: seq<Key>, cfg: Settings): (r: Result<Shape, LoadError>)
    ensures if r.Ok? then sh.nodes <= r.value.nodes else r.error.BadDependency?
  {
    if children == [] then Ok(sh)
    else
      match WithRunBefore(sh, key, children[..|children| - 1], cfg)
      case Err(e) => Err(e)
      case Ok(before) =>
        match Resolved(before, children[|children| - 1], key.app, cfg)
        case Err(e) => Err(e)
        case Ok(None) => Ok(before)
        case Ok(Some(c)) => Ok(WithDependency(before, c, key))
  }

  ghost function WithOthers(sh: Shape, key: Key, mig: Migration, cfg: Settings): (r: Result<Shape, LoadError>)
    ensures if r.Ok? then sh.nodes <= r.value.nodes else r.error.BadDependency?
  {
    match WithExternal(sh, key, mig.dependencies, cfg)
    case Err(e) => Err(e)
    case Ok(before) => WithRunBefore(before, key, mig.runBefore, cfg)
  }

  function AllInternal(sh: Shape, disk: map<Key, Migration>, ks: seq<Key>): (r: Shape)
    requires forall k :: k in ks ==> k in disk
    ensures sh.nodes <= r.nodes
  {
    if ks == [] then sh
    else
      var k := ks[|ks| - 1];
      WithInternal(AllInternal(sh, disk, ks[..|ks| - 1]), k, disk[k].dependencies)
  }

  ghost function AllOthers(sh: Shape, disk: map<Key, Migration>, ks: seq<Key>, cfg: Settings): (r: Result<Shape,
      LoadError>)
    requires forall k :: k in ks ==> k in disk
    ensures if r.Ok? then sh.nodes <= r.value.nodes else r.error.BadDependency?
  {
    if ks == [] then Ok(sh)
    else
      match AllOthers(sh, disk, ks[..|ks| - 1], cfg)
      case Err(e) => Err(e)
      case Ok(before) =>
        var k := ks[|ks| - 1];
        WithOthers(before, k, disk[k], cfg)
  }

  /** The graph of all declared migrations and their dependencies: first those within
      apps, then the others, each in key order. */
  ghost function Declaring(disk: map<Key, Migration>, cfg: Settings): (r: Result<Shape, LoadError>)
    ensures if r.Ok? then disk.Keys <= r.value.nodes else r.error.BadDependency?
  {
    SortedLists(disk.Keys);
    AllOthers(AllInternal(Shape(disk.Keys, {}), disk, Sorted(disk.Keys)), disk, Sorted(disk.Keys), cfg)
  }

  lemma DeclaringIs(disk: map<Key, Migration>, cfg: Settings, ks: seq<Key>)
    requires ks == Sorted(disk.Keys)
    ensures Distinct(ks) && Lists(ks, disk.Keys) && forall k :: k in ks ==> k in disk
    ensures Declaring(disk, cfg) == AllOthers(AllInternal(Shape(disk.Keys, {}), disk, ks), disk, ks, cfg)
  {
    SortedLists(disk.Keys);
  }

  /** Once it has failed, it fails. */
  lemma {:induction false} ExternalFails(sh: Shape, key: Key, parents: seq<Key>, cfg: Settings, i: nat)
    requires i <= |parents| && WithExternal(sh, key, parents[..i], cfg).Err?
    ensures WithExternal(sh, key, parents, cfg) == WithExternal(sh, key, parents[..i], cfg)
    decreases |parents| - i
  {
    if i < |parents| {
      assert parents[..i + 1][..i] == parents[..i];
      ExternalFails(sh, key, parents, cfg, i + 1);
    } else {
      assert parents[..i] == parents;
    }
  }

  lemma {:induction false} RunBeforeFails(sh: Shape, key: Key, children: seq<Key>, cfg: Settings, i: nat)
    requires i <= |children| && WithRunBefore(sh, key, children[..i], cfg).Err?
    ensures WithRunBefore(sh, key, children, cfg) == WithRunBefore(sh, key, children[..i], cfg)
    decreases |children| - i
  {
    if i < |children| {
      assert children[..i + 1][..i] == children[..i];
      RunBeforeFails(sh, key, children, cfg, i + 1);
    } else {
      assert children[..i] == children;
    }
  }

  lemma {:induction false} OthersFail(sh: Shape, disk: map<Key, Migration>, ks: seq<Key>, cfg: Settings, i: nat)
    requires i <= |ks| && (forall k :: k in ks ==> k in disk) && AllOthers(sh, disk, ks[..i], cfg).Err?
    ensures AllOthers(sh, disk, ks, cfg) == AllOthers(sh, disk, ks[..i], cfg)
    decreases |ks| - i
  {
    if i < |ks| {
      assert ks[..i + 1][..i] == ks[..i];
      OthersFail(sh, disk, ks, cfg, i + 1);
    } else {
      assert ks[..i] == ks;
    }
  }

  // --- Folding squashes ---

  /** One squash, and whether it stands in for what it replaces or gives way to it. */
  datatype Fold = Fold(key: Key, squashes: seq<Key>, standsIn: bool)

  ghost function Folded(sh: Shape, f: Fold): Shape {
    if f.standsIn then Shape(sh.nodes - Elements(f.squashes), Contracted(sh.edges, Elements(f.squashes), f.key))
    else Shape(sh.nodes - {f.key}, Unsquashed(sh.edges, f.key, Elements(f.squashes) * (sh.nodes - {f.key})))
  }

  ghost function AllFolded(sh: Shape, fs: seq<Fold>): Shape {
    if fs == [] then sh else Folded(AllFolded(sh, fs[..|fs| - 1]), fs[|fs| - 1])
  }

  lemma NoneFolded(sh: Shape)
    ensures AllFolded(sh, []) == sh
  {}

  lemma FoldedMore(sh: Shape, fs: seq<Fold>, f: Fold)
    ensures AllFolded(sh, fs + [f]) == Folded(AllFolded(sh, fs), f)
  {
    assert (fs + [f])[..|fs|] == fs;
  }
}
