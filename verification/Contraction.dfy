/** What folding a set of nodes into one node does to the edges of a graph. */
module Contraction {
  import opened Digraph

  ghost function Image<T>(replaced: set<T>, rep: T, x: T): T {
    if x in replaced then rep else x
  }

  ghost function ImageEdge<T>(replaced: set<T>, rep: T, d: (T, T)): (T, T) {
    (Image(replaced, rep, d.0), Image(replaced, rep, d.1))
  }

  /** The images of the edges that do not lie wholly inside the replaced set. */
  ghost function Contracted<T(!new)>(e: set<(T, T)>, replaced: set<T>, rep: T): (c: set<(T, T)>) {
    Folding(e, replaced, replaced, rep)
  }

  /** An edge is gone once one of its ends has been folded and both are replaced. */
  ghost predicate Survives<T>(replaced: set<T>, folded: set<T>, d: (T, T)) {
    !(d.0 in replaced && d.1 in replaced && (d.0 in folded || d.1 in folded))
  }

  /** The edges when only the nodes in folded have been folded so far. */
  ghost function Folding<T>(e: set<(T, T)>, replaced: set<T>, folded: set<T>, rep: T): set<(T, T)> {
    set d | d in e && Survives(replaced, folded, d) :: ImageEdge(folded, rep, d)
  }

  lemma FoldingHas<T>(e: set<(T, T)>, replaced: set<T>, folded: set<T>, rep: T, d: (T, T))
    requires d in e && Survives(replaced, folded, d)
    ensures ImageEdge(folded, rep, d) in Folding(e, replaced, folded, rep)
  {}

  lemma FoldingNone<T>(e: set<(T, T)>, replaced: set<T>, rep: T)
    ensures Folding(e, replaced, {}, rep) == e
  {
    forall d | d in e
      ensures d in Folding(e, replaced, {}, rep)
    {
      FoldingHas(e, replaced, {}, rep, d);
      assert ImageEdge({}, rep, d) == d;
    }
  }

  /** A node without edges folds away silently. */
  lemma FoldingAbsent<T>(e: set<(T, T)>, replaced: set<T>, folded: set<T>, rep: T, k: T)
    requires forall d :: d in e ==> d.0 != k && d.1 != k
    ensures Folding(e, replaced, folded + {k}, rep) == Folding(e, replaced, folded, rep)
  {
    var f, g := Folding(e, replaced, folded, rep), Folding(e, replaced, folded + {k}, rep);
    forall d | d in e
      ensures Survives(replaced, folded, d) <==> Survives(replaced, folded + {k}, d)
      ensures ImageEdge(folded, rep, d) == ImageEdge(folded + {k}, rep, d)
    {}
    forall x | x in f ensures x in g {
      var d :| d in e && Survives(replaced, folded, d) && x == ImageEdge(folded, rep, d);
      FoldingHas(e, replaced, folded + {k}, rep, d);
    }
    forall x | x in g ensures x in f {
      var d :| d in e && Survives(replaced, folded + {k}, d) && x == ImageEdge(folded + {k}, rep, d);
      FoldingHas(e, replaced, folded, rep, d);
    }
  }

  /** Folding one node more. */
  lemma FoldingStep<T>(e: set<(T, T)>, replaced: set<T>, folded: set<T>, rep: T, k: T)
    requires folded <= replaced && k in replaced && k !in folded && rep !in replaced
    ensures Folding(Folding(e, replaced, folded, rep), replaced, {k}, rep)
         == Folding(e, replaced, folded + {k}, rep)
  {
    var f := Folding(e, replaced, folded, rep);
    var l, r := Folding(f, replaced, {k}, rep), Folding(e, replaced, folded + {k}, rep);
    forall x | x in l ensures x in r {
      var y :| y in f && Survives(replaced, {k}, y) && x == ImageEdge({k}, rep, y);
      var d :| d in e && Survives(replaced, folded, d) && y == ImageEdge(folded, rep, d);
      FoldingTwice(replaced, folded, rep, k, d);
      FoldingHas(e, replaced, folded + {k}, rep, d);
    }
    forall x | x in r ensures x in l {
      var d :| d in e && Survives(replaced, folded + {k}, d) && x == ImageEdge(folded + {k}, rep, d);
      FoldingTwice(replaced, folded, rep, k, d);
      FoldingHas(e, replaced, folded, rep, d);
      FoldingHas(f, replaced, {k}, rep, ImageEdge(folded, rep, d));
    }
  }

  lemma FoldingTwice<T>(replaced: set<T>, folded: set<T>, rep: T, k: T, d: (T, T))
    requires folded <= replaced && k in replaced && k !in folded && rep !in replaced
    ensures ImageEdge({k}, rep, ImageEdge(folded, rep, d)) == ImageEdge(folded + {k}, rep, d)
    ensures Survives(replaced, folded + {k}, d)
       <==> Survives(replaced, folded, d) && Survives(replaced, {k}, ImageEdge(folded, rep, d))
  {}

  /** What folding the single node k makes of the step from a to b. */
  ghost predicate FoldedStep<T>(e: set<(T, T)>, replaced: set<T>, rep: T, k: T, a: T, b: T) {
    || (a, b) in e
    || (a == rep && (k, b) in e && b !in replaced)
    || (b == rep && (a, k) in e && a !in replaced)
  }

  lemma FoldingOne<T>(e: set<(T, T)>, replaced: set<T>, rep: T, k: T, a: T, b: T)
    requires k in replaced && rep !in replaced && a != k && b != k
    ensures (a, b) in Folding(e, replaced, {k}, rep) <==> FoldedStep(e, replaced, rep, k, a, b)
  {
    if (a, b) in e {
      FoldingHas(e, replaced, {k}, rep, (a, b));
    }
    if a == rep && (k, b) in e && b !in replaced {
      FoldingHas(e, replaced, {k}, rep, (k, b));
    }
    if b == rep && (a, k) in e && a !in replaced {
      FoldingHas(e, replaced, {k}, rep, (a, k));
    }
  }

  lemma FoldingLeavesOut<T>(e: set<(T, T)>, replaced: set<T>, rep: T, k: T, d: (T, T))
    requires rep != k && d in Folding(e, replaced, {k}, rep)
    ensures d.0 != k && d.1 != k
    ensures d.0 == rep || exists x :: x in e && x.0 == d.0
    ensures d.1 == rep || exists x :: x in e && x.1 == d.1
  {}

  /** All steps between the nodes of s. */
  ghost function Clique<T>(s: set<T>): set<(T, T)> {
    set a, b | a in s && b in s :: (a, b)
  }

  lemma CliqueHas<T>(s: set<T>, a: T, b: T)
    requires a in s && b in s
    ensures (a, b) in Clique(s)
  {}

  /** Contraction keeps exactly the paths there are once the replaced nodes and
      their replacement count as one place. In particular every path between
      surviving nodes is kept. */
  lemma ContractionPaths<T(!new)>(e: set<(T, T)>, replaced: set<T>, rep: T, a: T, b: T)
    requires rep !in replaced
    ensures Reaches(Contracted(e, replaced, rep), Image(replaced, rep, a), Image(replaced, rep, b))
       <==> Reaches(e + Clique(replaced + {rep}), a, b)
    ensures Reaches(e, a, b) ==> Reaches(Contracted(e, replaced, rep), Image(replaced, rep, a), Image(replaced, rep, b))
  {
    if Reaches(e + Clique(replaced + {rep}), a, b) {
      var p: seq<T> :| PathBetween(e + Clique(replaced + {rep}), p, a, b);
      PathProjects(e, replaced, rep, p);
    }
    if Reaches(e, a, b) {
      var p: seq<T> :| PathBetween(e, p, a, b);
      PathProjects(e, replaced, rep, p);
    }
    var a', b' := Image(replaced, rep, a), Image(replaced, rep, b);
    if Reaches(Contracted(e, replaced, rep), a', b') {
      var p: seq<T> :| PathBetween(Contracted(e, replaced, rep), p, a', b');
      PathLifts(e, replaced, rep, p, a, b);
    }
  }

  lemma {:induction false} PathProjects<T(!new)>(e: set<(T, T)>, replaced: set<T>, rep: T, p: seq<T>)
    requires rep !in replaced && IsPath(e + Clique(replaced + {rep}), p)
    ensures Reaches(Contracted(e, replaced, rep), Image(replaced, rep, p[0]), Image(replaced, rep, p[|p| - 1]))
    decreases |p|
  {
    var c, n := Contracted(e, replaced, rep), |p|;
    if n == 1 {
      ReachesSelf(c, Image(replaced, rep, p[0]));
    } else {
      PathProjects(e, replaced, rep, p[..n - 1]);
      var d := (p[n - 2], p[n - 1]);
      assert d in e + Clique(replaced + {rep});
      var d' := ImageEdge(replaced, rep, d);
      if d'.0 == d'.1 {
      } else {
        assert d in e;
        FoldingHas(e, replaced, replaced, rep, d);
        ReachesEdge(c, d'.0, d'.1);
        ReachesTrans(c, Image(replaced, rep, p[0]), d'.0, d'.1);
      }
    }
  }

  lemma {:induction false} PathLifts<T(!new)>(e: set<(T, T)>, replaced: set<T>, rep: T, p: seq<T>, a: T, b: T)
    requires rep !in replaced
    requires PathBetween(Contracted(e, replaced, rep), p, Image(replaced, rep, a), Image(replaced, rep, b))
    ensures Reaches(e + Clique(replaced + {rep}), a, b)
    decreases |p|
  {
    var c, n, g := Contracted(e, replaced, rep), |p|, e + Clique(replaced + {rep});
    if n == 1 {
      SamePlace(e, replaced, rep, a, b);
    } else {
      assert (p[n - 2], p[n - 1]) in c;
      var d :| d in e && Survives(replaced, replaced, d) && ImageEdge(replaced, rep, d) == (p[n - 2], p[n - 1]);
      assert PathBetween(c, p[..n - 1], Image(replaced, rep, a), Image(replaced, rep, d.0));
      PathLifts(e, replaced, rep, p[..n - 1], a, d.0);
      assert d == (d.0, d.1) && d in g;
      ReachesEdge(g, d.0, d.1);
      ReachesTrans(g, a, d.0, d.1);
      SamePlace(e, replaced, rep, d.1, b);
      ReachesTrans(g, a, d.1, b);
    }
  }

  lemma SamePlace<T(!new)>(e: set<(T, T)>, replaced: set<T>, rep: T, a: T, b: T)
    requires Image(replaced, rep, a) == Image(replaced, rep, b)
    ensures Reaches(e + Clique(replaced + {rep}), a, b)
  {
    var g := e + Clique(replaced + {rep});
    if a == b {
      ReachesSelf(g, a);
    } else {
      CliqueHas(replaced + {rep}, a, b);
      ReachesEdge(g, a, b);
    }
  }

  // --- Giving up a replacement ---

  /** The replaced nodes that are present and no parent of another one. */
  ghost function Tips<T>(e: set<(T, T)>, present: set<T>): set<T> {
    set n | n in present && forall m :: m in present ==> (n, m) !in e
  }

  /** The edges once the replacement is dropped and its children hang on the tips. */
  ghost function Unsquashed<T(!new)>(e: set<(T, T)>, rep: T, present: set<T>): (r: set<(T, T)>) {
    (set d | d in e && d.0 != rep && d.1 != rep)
    + (set n, c | n in Tips(e, present) && c in Succ(e, rep) && c != rep :: (n, c))
  }

  /** What dropping the replacement makes of the step from a to b. */
  ghost predicate UnsquashedStep<T(!new)>(e: set<(T, T)>, rep: T, tips: set<T>, a: T, b: T) {
    (a, b) in e || (a in tips && (rep, b) in e)
  }

  lemma UnsquashedHas<T(!new)>(e: set<(T, T)>, rep: T, present: set<T>, a: T, b: T)
    requires rep !in present
    ensures (a, b) in Unsquashed(e, rep, present)
       <==> a != rep && b != rep && UnsquashedStep(e, rep, Tips(e, present), a, b)
  {}
}
