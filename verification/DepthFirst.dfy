/** The order in which a depth-first traversal of an acyclic graph finishes its
    nodes. An edge (a, b) of the steps says that b has to come before a. */
module DepthFirst {
  import opened Digraph
  import opened Keys

  type Steps = set<(Key, Key)>

  /** Steps go down in rank. */
  ghost predicate Descends(e: Steps, rank: map<Key, nat>) {
    forall a, b :: (a, b) in e ==> a in rank && b in rank && rank[b] < rank[a]
  }

  /** Finishes n: what it needs first, in reverse key order, then n itself. */
  ghost function Visit(e: Steps, rank: map<Key, nat>, n: Key, out: seq<Key>): seq<Key>
    requires Descends(e, rank) && n in rank
    decreases rank[n], 1, 0
  {
    SortedLists(Succ(e, n));
    if n in out then out
    else VisitAll(e, rank, Sorted(Succ(e, n)), out, rank[n]) + [n]
  }

  /** Finishes the nodes of ns, the last one first. */
  ghost function VisitAll(e: Steps, rank: map<Key, nat>, ns: seq<Key>, out: seq<Key>, bound: nat): seq<Key>
    requires Descends(e, rank) && forall x :: x in ns ==> x in rank && rank[x] < bound
    decreases bound, 0, |ns|
  {
    if ns == [] then out
    else VisitAll(e, rank, ns[..|ns| - 1], Visit(e, rank, ns[|ns| - 1], out), bound)
  }

  /** No repeats, and every node comes after all it needs. */
  ghost predicate GoodOrder(e: Steps, out: seq<Key>) {
    Distinct(out) && forall i, b :: 0 <= i < |out| && (out[i], b) in e ==> b in out[..i]
  }

  ghost predicate Extends(out: seq<Key>, r: seq<Key>) {
    |out| <= |r| && r[..|out|] == out
  }

  /** Everything r has beyond out is reached from n, and ranks no higher. */
  ghost predicate ReachedFrom(e: Steps, rank: map<Key, nat>, n: Key, out: seq<Key>, r: seq<Key>)
    requires n in rank
  {
    forall x :: x in r && x !in out ==> x in rank && rank[x] <= rank[n] && Reaches(e, n, x)
  }

  lemma {:induction false} VisitCorrect(e: Steps, rank: map<Key, nat>, n: Key, out: seq<Key>)
    requires Descends(e, rank) && n in rank && GoodOrder(e, out)
    ensures var r := Visit(e, rank, n, out);
      GoodOrder(e, r) && Extends(out, r) && n in r && ReachedFrom(e, rank, n, out, r)
    decreases rank[n], 1, 0
  {
    if n !in out {
      var ns := Sorted(Succ(e, n));
      SortedLists(Succ(e, n));
      VisitAllCorrect(e, rank, ns, out, n);
      var r := VisitAll(e, rank, ns, out, rank[n]);
      AppendGood(e, r, n);
      ReachesSelf(e, n);
    }
  }

  lemma AppendGood(e: Steps, r: seq<Key>, n: Key)
    requires GoodOrder(e, r) && n !in r && forall b :: (n, b) in e ==> b in r
    ensures GoodOrder(e, r + [n])
  {
    var s := r + [n];
    forall i, b | 0 <= i < |s| && (s[i], b) in e
      ensures b in s[..i]
    {
      assert s[..i] == if i < |r| then r[..i] else r;
    }
  }

  lemma {:induction false} VisitAllCorrect(e: Steps, rank: map<Key, nat>, ns: seq<Key>, out: seq<Key>, n: Key)
    requires Descends(e, rank) && n in rank && GoodOrder(e, out)
    requires forall x :: x in ns ==> (n, x) in e
    ensures var r := VisitAll(e, rank, ns, out, rank[n]);
      && GoodOrder(e, r) && Extends(out, r) && (forall x :: x in ns ==> x in r)
      && ReachedFrom(e, rank, n, out, r) && (n in r ==> n in out)
    decreases rank[n], 0, |ns|
  {
    if ns != [] {
      var m, rest := ns[|ns| - 1], ns[..|ns| - 1];
      VisitCorrect(e, rank, m, out);
      var mid := Visit(e, rank, m, out);
      forall x | x in mid && x !in out
        ensures x in rank && rank[x] < rank[n] && Reaches(e, n, x)
      {
        ReachesEdge(e, n, m);
        ReachesTrans(e, n, m, x);
      }
      VisitAllCorrect(e, rank, rest, mid, n);
      assert ns == rest + [m];
      ExtendsKeeps(mid, VisitAll(e, rank, rest, mid, rank[n]));
      ExtendsKeeps(out, mid);
      ExtendsTrans(out, mid, VisitAll(e, rank, rest, mid, rank[n]));
    }
  }

  lemma ExtendsKeeps(out: seq<Key>, r: seq<Key>)
    requires Extends(out, r)
    ensures forall x :: x in out ==> x in r
  {
    forall x | x in out
      ensures x in r
    {
      assert x in r[..|out|];
    }
  }

  lemma ExtendsTrans(a: seq<Key>, b: seq<Key>, c: seq<Key>)
    requires Extends(a, b) && Extends(b, c)
    ensures Extends(a, c)
  {
    assert c[..|a|] == c[..|b|][..|a|];
  }

  // --- The traversal from one node ---

  ghost function RankOf(e: Steps, v: set<Key>): (rank: map<Key, nat>)
    requires Within(e, v) && !HasCycle(e)
    ensures Descends(e, rank) && rank.Keys == v
  {
    DescendingRankExists(e, v);
    var rank: map<Key, nat> :| Descends(e, rank) && rank.Keys == v;
    rank
  }

  lemma DescendingRankExists(e: Steps, v: set<Key>)
    requires Within(e, v) && !HasCycle(e)
    ensures exists rank: map<Key, nat> :: Descends(e, rank) && rank.Keys == v
  {
    var up := AcyclicCanBeRanked(e, v);
    var down := FlipRank(e, v, up);
    forall a, b | (a, b) in e
      ensures a in down && b in down && down[b] < down[a]
    {
      FlipHas(e, b, a);
      assert (b, a) in Flip(e);
    }
  }

  lemma FlipAcyclic(e: Steps, v: set<Key>)
    requires Within(e, v) && !HasCycle(e)
    ensures Within(Flip(e), v) && !HasCycle(Flip(e))
  {
    var rank := AcyclicCanBeRanked(e, v);
    var r := FlipRank(e, v, rank);
    RankedHasNoCycle(Flip(e), r);
    forall d | d in Flip(e)
      ensures d.0 in v && d.1 in v
    {
      FlipHas(e, d.0, d.1);
      assert d == (d.0, d.1) && (d.1, d.0) in e;
    }
  }

  ghost function FinishOrder(e: Steps, v: set<Key>, n: Key): seq<Key>
    requires Within(e, v) && !HasCycle(e) && n in v
  {
    Visit(e, RankOf(e, v), n, [])
  }

  /** The traversal lists exactly what n reaches, once each, every node after all
      it needs, and ends with n. */
  lemma FinishOrderCorrect(e: Steps, v: set<Key>, n: Key)
    requires Within(e, v) && !HasCycle(e) && n in v
    ensures var r := FinishOrder(e, v, n);
      && GoodOrder(e, r) && r != [] && r[|r| - 1] == n
      && (forall x :: x in r <==> Reaches(e, n, x))
      && (forall x :: x in r ==> x in v)
  {
    var r, rank := FinishOrder(e, v, n), RankOf(e, v);
    VisitCorrect(e, rank, n, []);
    forall x | Reaches(e, n, x)
      ensures x in r
    {
      var p: seq<Key> :| PathBetween(e, p, n, x);
      GoodOrderClosed(e, r);
      ClosedHoldsReachable(e, Elements(r), p);
    }
  }

  lemma GoodOrderClosed(e: Steps, r: seq<Key>)
    requires GoodOrder(e, r)
    ensures forall d :: d in e && d.0 in Elements(r) ==> d.1 in Elements(r)
  {
    forall d | d in e && d.0 in Elements(r)
      ensures d.1 in Elements(r)
    {
      var i :| 0 <= i < |r| && r[i] == d.0;
      assert d == (r[i], d.1);
      assert d.1 in r[..i];
    }
  }

  // --- The explicit stack ---

  datatype Frame = Frame(n: Key, processed: bool)

  /** What the traversal still makes of a stack whose top is its last element. */
  ghost function Finish(e: Steps, rank: map<Key, nat>, stack: seq<Frame>, out: seq<Key>): seq<Key>
    requires Descends(e, rank) && forall f :: f in stack ==> f.n in rank
    decreases |stack|
  {
    if stack == [] then out
    else
      var f, rest := stack[|stack| - 1], stack[..|stack| - 1];
      Finish(e, rank, rest,
             if f.n in out then out else if f.processed then out + [f.n] else Visit(e, rank, f.n, out))
  }

  function Pushed(ns: seq<Key>): seq<Frame> {
    seq(|ns|, i requires 0 <= i < |ns| => Frame(ns[i], false))
  }

  lemma FinishTop(e: Steps, rank: map<Key, nat>, s: seq<Frame>, n: Key, out: seq<Key>)
    requires Descends(e, rank) && n in rank && forall f :: f in s ==> f.n in rank
    ensures Finish(e, rank, s + [Frame(n, false)], out) == Finish(e, rank, s, Visit(e, rank, n, out))
  {
    var t := s + [Frame(n, false)];
    assert t[..|t| - 1] == s;
  }

  lemma FinishPop(e: Steps, rank: map<Key, nat>, s: seq<Frame>, f: Frame, out: seq<Key>)
    requires Descends(e, rank) && f.n in rank && forall f :: f in s ==> f.n in rank
    requires f.n in out || f.processed
    ensures Finish(e, rank, s + [f], out) == Finish(e, rank, s, if f.n in out then out else out + [f.n])
  {
    var t := s + [f];
    assert t[..|t| - 1] == s;
  }

  lemma {:induction false} FinishPushed(e: Steps, rank: map<Key, nat>, s: seq<Frame>, ns: seq<Key>, out: seq<Key>,
      bound: nat)
    requires Descends(e, rank) && forall f :: f in s ==> f.n in rank
    requires forall x :: x in ns ==> x in rank && rank[x] < bound
    ensures Finish(e, rank, s + Pushed(ns), out) == Finish(e, rank, s, VisitAll(e, rank, ns, out, bound))
    decreases |ns|
  {
    if ns == [] {
      assert s + Pushed(ns) == s;
    } else {
      var m, rest := ns[|ns| - 1], ns[..|ns| - 1];
      assert s + Pushed(ns) == (s + Pushed(rest)) + [Frame(m, false)];
      FinishTop(e, rank, s + Pushed(rest), m, out);
      FinishPushed(e, rank, s, rest, Visit(e, rank, m, out), bound);
    }
  }

  lemma {:induction false} VisitBelow(e: Steps, rank: map<Key, nat>, n: Key, out: seq<Key>)
    requires Descends(e, rank) && n in rank
    ensures forall x :: x in Visit(e, rank, n, out) ==> x in out || (x in rank && rank[x] <= rank[n])
    decreases rank[n], 1, 0
  {
    if n !in out {
      SortedLists(Succ(e, n));
      VisitAllBelow(e, rank, Sorted(Succ(e, n)), out, rank[n]);
    }
  }

  lemma {:induction false} VisitAllBelow(e: Steps, rank: map<Key, nat>, ns: seq<Key>, out: seq<Key>, bound: nat)
    requires Descends(e, rank) && forall x :: x in ns ==> x in rank && rank[x] < bound
    ensures forall x :: x in VisitAll(e, rank, ns, out, bound) ==> x in out || (x in rank && rank[x] < bound)
    decreases bound, 0, |ns|
  {
    if ns != [] {
      VisitBelow(e, rank, ns[|ns| - 1], out);
      VisitAllBelow(e, rank, ns[..|ns| - 1], Visit(e, rank, ns[|ns| - 1], out), bound);
    }
  }

  /** Replacing an unfinished node by its processed mark with what it needs on
      top does not change the outcome. */
  lemma ExpandTop(e: Steps, rank: map<Key, nat>, rest: seq<Frame>, n: Key, out: seq<Key>)
    requires Descends(e, rank) && n in rank && forall f :: f in rest ==> f.n in rank
    requires n !in out
    ensures var s := rest + [Frame(n, true)] + Pushed(Sorted(Succ(e, n)));
      && (forall f :: f in s ==> f.n in rank)
      && Finish(e, rank, rest + [Frame(n, false)], out) == Finish(e, rank, s, out)
  {
    var ns := Sorted(Succ(e, n));
    SortedLists(Succ(e, n));
    var t, u := rest + [Frame(n, false)], rest + [Frame(n, true)];
    assert t[..|t| - 1] == rest && u[..|u| - 1] == rest;
    FinishPushed(e, rank, u, ns, out, rank[n]);
    VisitAllBelow(e, rank, ns, out, rank[n]);
  }
}
