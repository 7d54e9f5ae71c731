/** The dependency graph of a project's migrations: nodes with parent and child
    sets that mirror each other, contracted in place by squashed migrations. */
module Graph {
  import opened Digraph
  import opened Keys
  import opened Wrappers
  import opened Contraction

  /** What a migration declares about its place among the others. */
  datatype Migration = Migration(
    app: string, name: string, dependencies: seq<Key>, runBefore: seq<Key>, squashes: seq<Key>)

  datatype GraphError =
    | NodeNotFound(node: Key, origin: string)
    | CircularDependency(cycle: seq<Key>)

  class Node {
    const key: Key
    const dummy: bool
    const origin: string
    var children: set<Node>
    var parents: set<Node>

    constructor (key: Key, dummy: bool, origin: string)
      ensures this.key == key && this.dummy == dummy && this.origin == origin
      ensures children == {} && parents == {}
    {
      this.key, this.dummy, this.origin := key, dummy, origin;
      children, parents := {}, {};
    }
  }

  class Graph {
    var nodeMap: map<Key, Node>
    var nodes: map<Key, Option<Migration>>

    /** Every node sits under its own key, no link leaves the graph, and a is
        among the parents of b exactly when b is among the children of a. */
    ghost predicate Valid()
      reads this, nodeMap.Values
    {
      && nodes.Keys == nodeMap.Keys
      && (forall k :: k in nodeMap ==> NodeOk(k))
      && (forall a, b :: a in nodeMap && b in nodeMap ==>
            (nodeMap[b] in nodeMap[a].children <==> nodeMap[a] in nodeMap[b].parents))
    }

    ghost predicate NodeOk(k: Key)
      requires k in nodeMap && k in nodes
      reads this, nodeMap.Values
    {
      && nodeMap[k].key == k
      && (nodes[k].None? <==> nodeMap[k].dummy)
      && nodeMap[k].children <= nodeMap.Values
      && nodeMap[k].parents <= nodeMap.Values
    }

    ghost predicate Linked(a: Key, b: Key)
      reads this, nodeMap.Values
    {
      a in nodeMap && b in nodeMap && nodeMap[b] in nodeMap[a].children
    }

    /** The edges, from parent to child. */
    ghost function Edges(): (e: set<(Key, Key)>)
      reads this, nodeMap.Values
      ensures forall a, b :: (a, b) in e <==> Linked(a, b)
    {
      set a, b | a in nodeMap && b in nodeMap && Linked(a, b) :: (a, b)
    }

    lemma EdgesAre(e: set<(Key, Key)>)
      requires forall a, b :: Linked(a, b) <==> (a, b) in e
      ensures Edges() == e
    {
      forall d: (Key, Key)
        ensures d in Edges() <==> d in e
      {
        assert d == (d.0, d.1);
      }
    }

    ghost predicate HasDummy()
      reads this, nodeMap.Values
    {
      exists k :: k in nodeMap && nodeMap[k].dummy
    }

    constructor ()
      ensures Valid() && nodeMap == map[] && nodes == map[] && Edges() == {}
    {
      nodeMap, nodes := map[], map[];
    }

    /** Adding a node without links keeps the graph valid and its edges as they are. */
    twostate lemma NewNodeKeepsLinks(new n: Node)
      requires old(Valid()) && n.key !in old(nodeMap) && nodeMap == old(nodeMap)[n.key := n]
      requires n.children == {} && n.parents == {} && nodes.Keys == nodeMap.Keys
      requires nodes == old(nodes)[n.key := nodes[n.key]] && (nodes[n.key].None? <==> n.dummy)
      requires unchanged(old(nodeMap.Values))
      ensures Valid() && Edges() == old(Edges())
    {
      assert forall k :: k in old(nodeMap) ==> nodeMap[k] == old(nodeMap[k]) && unchanged(nodeMap[k]);
      assert forall k :: k in nodeMap ==> NodeOk(k);
      EdgesAre(old(Edges()));
    }

    method AddNode(k: Key, mig: Migration)
      requires Valid() && k !in nodeMap
      modifies this
      ensures Valid() && Edges() == old(Edges())
      ensures k in nodeMap && nodeMap == old(nodeMap)[k := nodeMap[k]] && nodes == old(nodes)[k := Some(mig)]
      ensures fresh(nodeMap[k]) && !nodeMap[k].dummy
    {
      var n := new Node(k, false, "");
      nodeMap, nodes := nodeMap[k := n], nodes[k := Some(mig)];
      NewNodeKeepsLinks(n);
    }

    method AddDummyNode(k: Key, origin: string)
      requires Valid() && k !in nodeMap
      modifies this
      ensures Valid() && Edges() == old(Edges())
      ensures k in nodeMap && nodeMap == old(nodeMap)[k := nodeMap[k]] && nodes == old(nodes)[k := None]
      ensures fresh(nodeMap[k]) && nodeMap[k].dummy
    {
      var n := new Node(k, true, origin);
      nodeMap, nodes := nodeMap[k := n], nodes[k := None];
      NewNodeKeepsLinks(n);
    }

    /** Puts stand-ins where a node is missing, then links parent and child. */
    method AddDependency(origin: string, child: Key, parent: Key, skipValidation: bool)
      returns (err: Option<GraphError>)
      requires Valid()
      modifies this, nodeMap.Values
      ensures Valid() && child in nodeMap && parent in nodeMap
      ensures nodeMap == old(nodeMap)[child := nodeMap[child]][parent := nodeMap[parent]]
      ensures nodes == old(nodes)[child := nodes[child]][parent := nodes[parent]]
      ensures Edges() == old(Edges()) + {(parent, child)}
      ensures NewOrKept(child) && NewOrKept(parent)
      ensures fresh(nodeMap.Values - old(nodeMap.Values))
      ensures err.Some? <==> !skipValidation && HasDummy()
    {
      EnsureNodes(origin, child, parent);
      Link(parent, child);
      err := None;
      if !skipValidation {
        err := ValidateConsistency();
      }
    }

    method EnsureNodes(origin: string, child: Key, parent: Key)
      requires Valid()
      modifies this
      ensures Valid() && Edges() == old(Edges()) && child in nodeMap && parent in nodeMap
      ensures nodeMap == old(nodeMap)[child := nodeMap[child]][parent := nodeMap[parent]]
      ensures nodes == old(nodes)[child := nodes[child]][parent := nodes[parent]]
      ensures NewOrKept(child) && NewOrKept(parent)
      ensures fresh(nodeMap.Values - old(nodeMap.Values))
    {
      EnsureNode(child, origin);
      EnsureNode(parent, origin);
    }

    /** The node under k is a fresh stand-in, or the one it was. */
    twostate predicate NewOrKept(k: Key)
      reads this, nodeMap.Values
      requires k in nodeMap && k in nodes
    {
      if k in old(nodeMap) && k in old(nodes) then nodeMap[k] == old(nodeMap[k]) && nodes[k] == old(nodes[k])
      else nodeMap[k].dummy && nodes[k].None? && fresh(nodeMap[k])
    }

    twostate lemma OnlyFreshNodes(k: Key)
      requires k in nodeMap && nodeMap == old(nodeMap)[k := nodeMap[k]]
      requires k in old(nodeMap) ==> nodeMap[k] == old(nodeMap[k])
      requires k !in old(nodeMap) ==> fresh(nodeMap[k])
      ensures fresh(nodeMap.Values - old(nodeMap.Values))
    {
      forall j | j in nodeMap
        ensures nodeMap[j] in old(nodeMap.Values) || fresh(nodeMap[j])
      {
        if j in old(nodeMap) {
          assert nodeMap[j] == old(nodeMap)[j];
        }
      }
    }

    /** Puts a stand-in under k when there is no node. */
    method EnsureNode(k: Key, origin: string)
      requires Valid()
      modifies this
      ensures Valid() && Edges() == old(Edges()) && k in nodeMap
      ensures nodeMap == old(nodeMap)[k := nodeMap[k]] && nodes == old(nodes)[k := nodes[k]]
      ensures NewOrKept(k)
      ensures fresh(nodeMap.Values - old(nodeMap.Values))
    {
      if k !in nodes {
        AddDummyNode(k, origin);
      }
      OnlyFreshNodes(k);
    }

    method Link(parent: Key, child: Key)
      requires Valid() && parent in nodeMap && child in nodeMap
      modifies nodeMap.Values
      ensures Valid() && Edges() == old(Edges()) + {(parent, child)}
    {
      var c, p := nodeMap[child], nodeMap[parent];
      c.parents := c.parents + {p};
      p.children := p.children + {c};
      assert forall k :: k in nodeMap ==> NodeOk(k);
      assert forall a, b :: a in nodeMap && b in nodeMap ==>
        (nodeMap[b] in nodeMap[a].children <==> old(nodeMap[b] in nodeMap[a].children) || (a == parent && b == child));
      EdgesAre(old(Edges()) + {(parent, child)});
    }

    /** Reports the first stand-in node, in key order. */
    method ValidateConsistency() returns (err: Option<GraphError>)
      requires Valid()
      ensures err.Some? <==> HasDummy()
      ensures err.Some? ==>
        && err.value.NodeNotFound? && err.value.node in nodeMap && nodeMap[err.value.node].dummy
        && err.value.origin == nodeMap[err.value.node].origin
        && forall k :: k in nodeMap && nodeMap[k].dummy ==> k == err.value.node || Less(err.value.node, k)
    {
      var ks := SortKeys(nodeMap.Keys);
      SortedLists(nodeMap.Keys);
      var i := FirstDummy(ks);
      if i == |ks| {
        forall k | k in nodeMap
          ensures !nodeMap[k].dummy
        {
          assert k in ks;
        }
        return None;
      }
      LeastDummy(ks, i);
      var n := nodeMap[ks[i]];
      return Some(NodeNotFound(n.key, n.origin));
    }

    method FirstDummy(ks: seq<Key>) returns (i: nat)
      requires forall k :: k in ks ==> k in nodeMap
      ensures i <= |ks| && (forall j :: 0 <= j < i ==> !nodeMap[ks[j]].dummy)
      ensures i < |ks| ==> nodeMap[ks[i]].dummy
    {
      i := 0;
      while i < |ks| && !nodeMap[ks[i]].dummy
        invariant i <= |ks| && forall j :: 0 <= j < i ==> !nodeMap[ks[j]].dummy
      {
        i := i + 1;
      }
    }

    lemma LeastDummy(ks: seq<Key>, i: nat)
      requires ks == Sorted(nodeMap.Keys) && i < |ks|
      requires forall j :: 0 <= j < i ==> ks[j] in nodeMap && !nodeMap[ks[j]].dummy
      ensures forall k :: k in nodeMap && nodeMap[k].dummy ==> k == ks[i] || Less(ks[i], k)
    {
      SortedLists(nodeMap.Keys);
      forall k | k in nodeMap && nodeMap[k].dummy
        ensures k == ks[i] || Less(ks[i], k)
      {
        assert k in ks;
        var j :| 0 <= j < |ks| && ks[j] == k;
        if i < j {
          SortedBefore(nodeMap.Keys, i, j);
        }
      }
    }

    /** Whether k is a migration node. */
    predicate Has(k: Key)
      reads this
    {
      k in nodes
    }

    // --- Squashed migrations: contraction in place ---

    /** Cuts node off from its children; those outside the replaced set become
        children of its replacement. */
    static method HandChildren(node: Node, rn: Node, replaced: set<Key>, ghost all: set<Node>)
      requires {node, rn} <= all && node.children <= all && rn != node
      modifies all
      ensures forall n :: n in all ==> n.children == Gaining(old(n.children), n == rn, old(node.children), replaced)
      ensures forall n :: n in all ==> n.parents == Rewired(old(n.parents), n in old(node.children), n, node, rn,
        replaced)
    {
      var todo := node.children;
      ghost var cs := node.children;
      while todo != {}
        invariant todo <= cs
        invariant forall n :: n in all ==> n.children == Gaining(old(n.children), n == rn, cs - todo, replaced)
        invariant forall n :: n in all ==> n.parents == Rewired(old(n.parents), n in cs - todo, n, node, rn, replaced)
        decreases todo
      {
        var child :| child in todo;
        todo := todo - {child};
        child.parents := child.parents - {node};
        if child.key !in replaced {
          rn.children := rn.children + {child};
          child.parents := child.parents + {rn};
        }
      }
    }

    /** The same for its parents. */
    static method HandParents(node: Node, rn: Node, replaced: set<Key>, ghost all: set<Node>)
      requires {node, rn} <= all && node.parents <= all && rn != node
      modifies all
      ensures forall n :: n in all ==> n.parents == Gaining(old(n.parents), n == rn, old(node.parents), replaced)
      ensures forall n :: n in all ==> n.children == Rewired(old(n.children), n in old(node.parents), n, node, rn,
        replaced)
    {
      var todo := node.parents;
      ghost var ps := node.parents;
      while todo != {}
        invariant todo <= ps
        invariant forall n :: n in all ==> n.parents == Gaining(old(n.parents), n == rn, ps - todo, replaced)
        invariant forall n :: n in all ==> n.children == Rewired(old(n.children), n in ps - todo, n, node, rn, replaced)
        decreases todo
      {
        var parent :| parent in todo;
        todo := todo - {parent};
        parent.children := parent.children - {node};
        if parent.key !in replaced {
          rn.parents := rn.parents + {parent};
          parent.children := parent.children + {rn};
        }
      }
    }

    /** The links of the replacement grow by the neighbours outside the replaced set. */
    static ghost function Gaining(links: set<Node>, gains: bool, ns: set<Node>, replaced: set<Key>): set<Node> {
      if gains then links + set n | n in ns && n.key !in replaced else links
    }

    /** The links of n once node is gone: rn stands in for it unless n goes too. */
    static ghost function Rewired(links: set<Node>, linked: bool, n: Node, node: Node, rn: Node,
        replaced: set<Key>): set<Node> {
      if !linked then links
      else if n.key in replaced then links - {node}
      else links - {node} + {rn}
    }

    /** The nodes of m, each under its own key, with mirrored links between them. */
    static ghost predicate Mirrored(m: map<Key, Node>, e: set<(Key, Key)>)
      reads m.Values
    {
      && (forall k :: k in m ==> m[k].key == k && m[k].children <= m.Values && m[k].parents <= m.Values)
      && (forall a, b :: a in m && b in m ==> ((a, b) in e <==> m[b] in m[a].children))
      && (forall a, b :: a in m && b in m ==> ((a, b) in e <==> m[a] in m[b].parents))
    }

    lemma KeysAgree()
      requires Valid()
      ensures nodes.Keys == nodeMap.Keys
    {}

    lemma EdgesWithin()
      ensures Within(Edges(), nodeMap.Keys)
    {}

    lemma ValidMirrors()
      requires Valid()
      ensures Mirrored(nodeMap, Edges()) && Within(Edges(), nodeMap.Keys)
    {}

    /** Folds one replaced node into its replacement. */
    method Absorb(k: Key, replacement: Key, replaced: set<Key>)
      requires Valid() && k in nodeMap && replacement in nodeMap
      requires k in replaced && replacement !in replaced
      modifies this, nodeMap.Values
      ensures Valid() && nodeMap == old(nodeMap) - {k} && nodes == old(nodes) - {k}
      ensures Edges() == Folding(old(Edges()), replaced, {k}, replacement)
    {
      hide Edges, Mirrored, Absorbed, HalfWay, Contraction.Folding;
      ghost var m, e := nodeMap, Edges();
      ValidMirrors();
      var node, rn := nodeMap[k], nodeMap[replacement];
      nodes := nodes - {k};
      nodeMap := nodeMap - {k};
      AbsorbChildren(node, rn, replaced, m, e);
      AbsorbParents(node, rn, replaced, m, e);
      AbsorbedValid(m, e, k, replacement, replaced);
      AbsorbedEdges(m, e, k, replacement, replaced);
    }

    lemma AbsorbedValid(m: map<Key, Node>, e: set<(Key, Key)>, k: Key, r: Key, replaced: set<Key>)
      requires k in m && nodeMap == m - {k} && nodes.Keys == nodeMap.Keys
      requires forall j :: j in m ==> m[j].key == j
      requires forall j :: j in nodeMap ==> (nodes[j].None? <==> nodeMap[j].dummy)
      requires Absorbed(m, e, k, r, replaced)
      ensures Valid()
    {
      ValuesWithout(m, k);
      forall a, b | a in nodeMap && b in nodeMap
        ensures nodeMap[b] in nodeMap[a].children <==> nodeMap[a] in nodeMap[b].parents
      {
        assert m[b] in m[a].children <==> FoldedStep(e, replaced, r, k, a, b);
      }
      forall j | j in nodeMap
        ensures NodeOk(j)
      {
        assert nodeMap[j] == m[j];
      }
    }

    /** Away from node k, all links are those of the folded edges. */
    static ghost predicate Absorbed(m: map<Key, Node>, e: set<(Key, Key)>, k: Key, r: Key, replaced: set<Key>)
      requires k in m
      reads m.Values
    {
      && (forall a, b :: a in m && b in m && a != k && b != k ==>
            (m[b] in m[a].children <==> FoldedStep(e, replaced, r, k, a, b)))
      && (forall a, b :: a in m && b in m && a != k && b != k ==>
            (m[a] in m[b].parents <==> FoldedStep(e, replaced, r, k, a, b)))
      && (forall j :: j in m && j != k ==> LinksAvoid(m, j, k))
    }

    /** The links of j stay inside m and away from k. */
    static ghost predicate LinksAvoid(m: map<Key, Node>, j: Key, k: Key)
      requires j in m && k in m
      reads m.Values
    {
      m[j].children <= m.Values - {m[k]} && m[j].parents <= m.Values - {m[k]}
    }

    static lemma ValuesWithout(m: map<Key, Node>, k: Key)
      requires k in m && forall j :: j in m ==> m[j].key == j
      ensures (m - {k}).Values == m.Values - {m[k]}
    {
      forall n | n in m.Values - {m[k]}
        ensures n in (m - {k}).Values
      {
        assert n.key in m - {k} && (m - {k})[n.key] == n;
      }
    }

    lemma AbsorbedEdges(m: map<Key, Node>, e: set<(Key, Key)>, k: Key, r: Key, replaced: set<Key>)
      requires k in m && r in m && k in replaced && r !in replaced && Within(e, m.Keys) && nodeMap == m - {k}
      requires Absorbed(m, e, k, r, replaced)
      ensures Edges() == Folding(e, replaced, {k}, r)
    {
      forall a, b
        ensures Linked(a, b) <==> (a, b) in Folding(e, replaced, {k}, r)
      {
        if a in nodeMap && b in nodeMap {
          FoldingOne(e, replaced, r, k, a, b);
        } else if (a, b) in Folding(e, replaced, {k}, r) {
          FoldingLeavesOut(e, replaced, r, k, (a, b));
        }
      }
      EdgesAre(Folding(e, replaced, {k}, r));
    }

    /** The links half way: children are handed over, parents not yet. */
    static ghost predicate HalfWay(m: map<Key, Node>, e: set<(Key, Key)>, k: Key, r: Key, replaced: set<Key>)
      reads m.Values
    {
      && (forall a, b :: a in m && b in m ==>
            (m[b] in m[a].children <==> (a, b) in e || (a == r && (k, b) in e && b !in replaced)))
      && (forall a, b :: a in m && b in m ==>
            (m[a] in m[b].parents <==>
              ((a, b) in e && !(a == k && (k, b) in e)) || (a == r && (k, b) in e && b !in replaced)))
    }

    static method AbsorbChildren(node: Node, rn: Node, replaced: set<Key>, ghost m: map<Key, Node>,
        ghost e: set<(Key, Key)>)
      requires node in m.Values && rn in m.Values && node.key in replaced && rn.key !in replaced && Mirrored(m, e)
      modifies m.Values
      ensures HalfWay(m, e, node.key, rn.key, replaced)
      ensures forall k :: k in m ==> m[k].children <= m.Values && m[k].parents <= m.Values
    {
      HandChildren(node, rn, replaced, m.Values);
    }

    static method AbsorbParents(node: Node, rn: Node, replaced: set<Key>, ghost m: map<Key, Node>,
        ghost e: set<(Key, Key)>)
      requires node in m.Values && rn in m.Values && node.key in replaced && rn.key !in replaced
      requires forall k :: k in m ==> m[k].key == k && m[k].children <= m.Values && m[k].parents <= m.Values
      requires HalfWay(m, e, node.key, rn.key, replaced)
      modifies m.Values
      ensures Absorbed(m, e, node.key, rn.key, replaced)
    {
      HandParents(node, rn, replaced, m.Values);
      ghost var k, r := node.key, rn.key;
      assert forall a, b :: a in m && b in m && a != k && b != k ==>
        (m[b] in m[a].children <==> FoldedStep(e, replaced, r, k, a, b));
      assert forall a, b :: a in m && b in m && a != k && b != k ==>
        (m[a] in m[b].parents <==> FoldedStep(e, replaced, r, k, a, b));
      forall j | j in m && j != k
        ensures LinksAvoid(m, j, k)
      {
        assert m[j].children == Rewired(old(m[j].children), m[j] in old(node.parents), m[j], node, rn, replaced);
        assert m[j].parents == Gaining(old(m[j].parents), m[j] == rn, old(node.parents), replaced);
      }
    }

    /** Removes the replaced nodes and repoints their links to the replacement. A list
        that names the replacement itself never gets here: the loader refuses such a
        squash as cyclic before it folds (Loader.Loader.NotItsOwn). The source would
        then delete the replacement's node too, and leave other nodes linked to a node
        outside the graph. */
    method RemoveReplacedNodes(replacement: Key, replaced: seq<Key>) returns (err: Option<GraphError>)
      requires Valid() && replacement !in replaced
      modifies this, nodeMap.Values
      ensures Valid()
      ensures err.Some? <==> replacement !in old(nodeMap)
      ensures err.Some? ==> nodeMap == old(nodeMap) && nodes == old(nodes) && Edges() == old(Edges())
      ensures err.None? ==> nodeMap == old(nodeMap) - Elements(replaced) && nodes == old(nodes) - Elements(replaced)
      ensures err.None? ==> Edges() == Contracted(old(Edges()), Elements(replaced), replacement)
    {
      hide Valid, Edges, Contraction.Folding;
      EdgesWithin();
      var replacedSet := Elements(replaced);
      if replacement !in nodeMap {
        return Some(NodeNotFound(replacement, ""));
      }
      var ks := ListKeys(replacedSet);
      ghost var e := Edges();
      ghost var m, ns, folded := nodeMap, nodes, {};
      FoldingNone(e, replacedSet, replacement);
      assert m - {} == m && ns - {} == ns;
      for i := 0 to |ks|
        invariant Valid() && replacement in nodeMap
        invariant folded <= replacedSet && forall j :: i <= j < |ks| ==> ks[j] !in folded
        invariant forall j :: 0 <= j < i ==> ks[j] in folded
        invariant nodeMap == m - folded && nodes == ns - folded && nodeMap.Values <= m.Values
        invariant Edges() == Folding(e, replacedSet, folded, replacement)
      {
        assert ks[i] in replacedSet;
        AbsorbIfPresent(ks[i], replacement, replacedSet, e, m.Keys, folded);
        MinusOneMore(m, folded, ks[i]);
        MinusOneMore(ns, folded, ks[i]);
        folded := folded + {ks[i]};
      }
      assert folded == replacedSet;
      err := None;
    }

    static lemma MinusOneMore<K, V>(m: map<K, V>, s: set<K>, k: K)
      ensures m - s - {k} == m - (s + {k})
    {}

    method AbsorbIfPresent(k: Key, replacement: Key, replaced: set<Key>,
                           ghost e: set<(Key, Key)>, ghost v: set<Key>, ghost folded: set<Key>)
      requires Valid() && replacement in nodeMap && k in replaced && replacement !in replaced
      requires folded <= replaced && k !in folded && Within(e, v) && nodeMap.Keys == v - folded
      requires Edges() == Folding(e, replaced, folded, replacement)
      modifies this, nodeMap.Values
      ensures Valid() && nodeMap == old(nodeMap) - {k} && nodes == old(nodes) - {k}
      ensures Edges() == Folding(e, replaced, folded + {k}, replacement)
    {
      if k in nodeMap {
        Absorb(k, replacement, replaced);
        FoldingStep(e, replaced, folded, replacement, k);
      } else {
        FoldingAbsent(e, replaced, folded, replacement, k);
      }
    }

    /** Removes the replacement and hangs its children on the replaced nodes
        that are no parent of another replaced one. */
    method RemoveReplacementNode(replacement: Key, replaced: seq<Key>) returns (err: Option<GraphError>)
      requires Valid()
      modifies this, nodeMap.Values
      ensures Valid()
      ensures err.Some? <==> replacement !in old(nodeMap)
      ensures err.Some? ==> nodeMap == old(nodeMap) && nodes == old(nodes) && Edges() == old(Edges())
      ensures err.None? ==> nodeMap == old(nodeMap) - {replacement} && nodes == old(nodes) - {replacement}
      ensures err.None? ==> Edges() == Unsquashed(old(Edges()), replacement, Elements(replaced) * nodeMap.Keys)
    {
      hide Edges, Mirrored, Dropped, Unsquashed;
      ghost var m, e := nodeMap, Edges();
      ValidMirrors();
      nodes := nodes - {replacement};
      if replacement !in nodeMap {
        return Some(NodeNotFound(replacement, ""));
      }
      var rn := nodeMap[replacement];
      nodeMap := nodeMap - {replacement};
      ghost var present := Elements(replaced) * nodeMap.Keys;
      var tips := TipNodes(replaced, m, e, replacement);
      Unsquash(rn, tips, m, e, present);
      UnsquashedValid(m, e, replacement, Tips(e, present));
      UnsquashedEdges(m, e, replacement, present);
      err := None;
    }

    /** The replaced nodes that are present and not among the parents of one of them. */
    method TipNodes(replaced: seq<Key>, ghost m: map<Key, Node>, ghost e: set<(Key, Key)>, ghost r: Key)
      returns (tips: set<Node>)
      requires Mirrored(m, e) && nodeMap == m - {r}
      ensures tips <= nodeMap.Values
      ensures forall k :: k in nodeMap ==> (nodeMap[k] in tips <==> k in Tips(e, Elements(replaced) * nodeMap.Keys))
    {
      var replacedNodes, replacedParents: set<Node> := {}, {};
      for i := 0 to |replaced|
        invariant replacedNodes <= nodeMap.Values
        invariant forall k :: k in nodeMap ==> (nodeMap[k] in replacedNodes <==> k in replaced[..i])
        invariant forall k :: k in nodeMap ==>
          (nodeMap[k] in replacedParents <==> exists j :: 0 <= j < i && replaced[j] in nodeMap && (k, replaced[j]) in e)
      {
        var k := replaced[i];
        if k in nodeMap {
          replacedNodes := replacedNodes + {nodeMap[k]};
          replacedParents := replacedParents + nodeMap[k].parents;
        }
      }
      assert replaced[..|replaced|] == replaced;
      tips := replacedNodes - replacedParents;
    }

    static method Unsquash(rn: Node, tips: set<Node>, ghost m: map<Key, Node>, ghost e: set<(Key, Key)>,
        ghost present: set<Key>)
      requires rn in m.Values && rn !in tips && tips <= m.Values && Mirrored(m, e) && rn.key !in present
      requires forall k :: k in m ==> (m[k] in tips <==> k in Tips(e, present))
      modifies m.Values
      ensures Dropped(m, e, rn.key, Tips(e, present))
    {
      AdoptInto(rn, tips, m, e, Tips(e, present));
      CutOff(rn, m, e, Tips(e, present));
    }

    static method AdoptInto(rn: Node, tips: set<Node>, ghost m: map<Key, Node>, ghost e: set<(Key, Key)>,
        ghost ts: set<Key>)
      requires rn in m.Values && tips <= m.Values && Mirrored(m, e)
      requires forall k :: k in m ==> (m[k] in tips <==> k in ts)
      modifies m.Values
      ensures Adopted(m, e, rn.key, ts)
    {
      AdoptChildren(rn, tips, m.Values);
    }

    /** Hangs the children of rn on the tips instead. */
    static method AdoptChildren(rn: Node, tips: set<Node>, ghost all: set<Node>)
      requires rn in all && rn.children <= all && tips <= all
      modifies all
      ensures forall n :: n in all ==> n.children == WithIf(old(n.children), n in tips, old(rn.children))
      ensures forall n :: n in all ==>
        n.parents == if n in old(rn.children) then old(n.parents) - {rn} + tips else old(n.parents)
    {
      ghost var cs := rn.children;
      var todo := rn.children;
      while todo != {}
        invariant todo <= cs
        invariant forall n :: n in all ==> n.children == WithIf(old(n.children), n in tips, cs - todo)
        invariant forall n :: n in all ==>
          n.parents == if n in cs - todo then old(n.parents) - {rn} + tips else old(n.parents)
        decreases todo
      {
        var child :| child in todo;
        todo := todo - {child};
        child.parents := child.parents - {rn};
        AddChild(tips, child, all);
      }
    }

    static ghost function WithIf<T>(s: set<T>, gains: bool, t: set<T>): set<T> {
      if gains then s + t else s
    }

    static method AddChild(tips: set<Node>, child: Node, ghost all: set<Node>)
      requires tips <= all && child in all
      modifies all
      ensures forall n :: n in all ==> n.parents == WithIf(old(n.parents), n == child, tips)
      ensures forall n :: n in all ==> n.children == WithIf(old(n.children), n in tips, {child})
    {
      var todo := tips;
      while todo != {}
        invariant todo <= tips
        invariant forall n :: n in all ==> n.parents == WithIf(old(n.parents), n == child, tips - todo)
        invariant forall n :: n in all ==> n.children == WithIf(old(n.children), n in tips - todo, {child})
        decreases todo
      {
        var n :| n in todo;
        todo := todo - {n};
        n.children := n.children + {child};
        child.parents := child.parents + {n};
      }
    }

    /** The links when the children have been adopted and rn still hangs on its parents. */
    static ghost predicate Adopted(m: map<Key, Node>, e: set<(Key, Key)>, r: Key, tips: set<Key>)
      reads m.Values
    {
      && (forall k :: k in m ==> m[k].children <= m.Values && m[k].parents <= m.Values)
      && (forall a, b :: a in m && b in m ==>
            (m[b] in m[a].children <==> (a, b) in e || (a in tips && (r, b) in e)))
      && (forall a, b :: a in m && b in m ==>
            (m[a] in m[b].parents <==> ((a, b) in e && !(a == r && (r, b) in e)) || (a in tips && (r, b) in e)))
    }

    static method CutOff(rn: Node, ghost m: map<Key, Node>, ghost e: set<(Key, Key)>, ghost tips: set<Key>)
      requires rn in m.Values && rn.key !in tips && Adopted(m, e, rn.key, tips)
      requires forall k :: k in m ==> m[k].key == k
      modifies m.Values
      ensures Dropped(m, e, rn.key, tips)
    {
      CutFromParents(rn, m.Values);
    }

    /** Takes rn out of the children of its parents. */
    static method CutFromParents(rn: Node, ghost all: set<Node>)
      requires rn in all && rn.parents <= all
      modifies all
      ensures forall n :: n in all ==> n.children == if n in old(rn.parents) then old(n.children) - {rn}
        else old(n.children)
      ensures forall n :: n in all ==> n.parents == old(n.parents)
    {
      ghost var ps := rn.parents;
      var todo := rn.parents;
      while todo != {}
        invariant todo <= ps
        invariant forall n :: n in all ==> n.children == if n in ps - todo then old(n.children) - {rn}
          else old(n.children)
        invariant forall n :: n in all ==> n.parents == old(n.parents)
        decreases todo
      {
        var parent :| parent in todo;
        todo := todo - {parent};
        parent.children := parent.children - {rn};
      }
    }

    /** Away from r, all links are those of the edges without it. */
    static ghost predicate Dropped(m: map<Key, Node>, e: set<(Key, Key)>, r: Key, tips: set<Key>)
      requires r in m
      reads m.Values
    {
      && (forall a, b :: a in m && b in m && a != r && b != r ==>
            (m[b] in m[a].children <==> UnsquashedStep(e, r, tips, a, b)))
      && (forall a, b :: a in m && b in m && a != r && b != r ==>
            (m[a] in m[b].parents <==> UnsquashedStep(e, r, tips, a, b)))
      && (forall j :: j in m && j != r ==> LinksAvoid(m, j, r))
    }

    lemma UnsquashedValid(m: map<Key, Node>, e: set<(Key, Key)>, r: Key, tips: set<Key>)
      requires r in m && nodeMap == m - {r} && nodes.Keys == nodeMap.Keys
      requires forall j :: j in m ==> m[j].key == j
      requires forall j :: j in nodeMap ==> (nodes[j].None? <==> nodeMap[j].dummy)
      requires Dropped(m, e, r, tips)
      ensures Valid()
    {
      ValuesWithout(m, r);
      forall a, b | a in nodeMap && b in nodeMap
        ensures nodeMap[b] in nodeMap[a].children <==> nodeMap[a] in nodeMap[b].parents
      {
        assert m[b] in m[a].children <==> UnsquashedStep(e, r, tips, a, b);
      }
      forall j | j in nodeMap
        ensures NodeOk(j)
      {
        assert nodeMap[j] == m[j];
      }
    }

    lemma UnsquashedEdges(m: map<Key, Node>, e: set<(Key, Key)>, r: Key, present: set<Key>)
      requires r in m && r !in present && present <= m.Keys && Within(e, m.Keys) && nodeMap == m - {r}
      requires Dropped(m, e, r, Tips(e, present))
      ensures Edges() == Unsquashed(e, r, present)
    {
      forall a, b
        ensures Linked(a, b) <==> (a, b) in Unsquashed(e, r, present)
      {
        UnsquashedHas(e, r, present, a, b);
      }
      EdgesAre(Unsquashed(e, r, present));
    }
  }
}