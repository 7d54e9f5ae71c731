/** Finite directed graphs as sets of edges: paths, cycles and rankings.
    An edge (a, b) leads from a to b. */
module Digraph {

  /** p is a walk along edges of e; a single node is a walk too. */
  ghost predicate IsPath<T>(e: set<(T, T)>, p: seq<T>) {
    |p| > 0 && forall i :: 0 <= i < |p| - 1 ==> (p[i], p[i + 1]) in e
  }

  ghost predicate PathBetween<T>(e: set<(T, T)>, p: seq<T>, a: T, b: T) {
    IsPath(e, p) && p[0] == a && p[|p| - 1] == b
  }

  /** b can be reached from a in zero or more steps. */
  ghost predicate Reaches<T(!new)>(e: set<(T, T)>, a: T, b: T) {
    exists p: seq<T> :: PathBetween(e, p, a, b)
  }

  /** Every node of c has an edge to the next one, and the last to the first. */
  ghost predicate IsCycle<T>(e: set<(T, T)>, c: seq<T>) {
    IsPath(e, c) && (c[|c| - 1], c[0]) in e
  }

  ghost predicate HasCycle<T(!new)>(e: set<(T, T)>) {
    exists c: seq<T> :: IsCycle(e, c)
  }

  /** rank numbers the end points of every edge so that edges go upwards. */
  ghost predicate Ranked<T>(e: set<(T, T)>, rank: map<T, nat>) {
    forall d :: d in e ==> d.0 in rank && d.1 in rank && rank[d.0] < rank[d.1]
  }

  ghost predicate Within<T>(e: set<(T, T)>, v: set<T>) {
    forall d :: d in e ==> d.0 in v && d.1 in v
  }

  ghost function Flip<T>(e: set<(T, T)>): (f: set<(T, T)>) {
    set d | d in e :: (d.1, d.0)
  }

  /** The nodes one step away from a. */
  ghost function Succ<T(!new)>(e: set<(T, T)>, a: T): (s: set<T>)
    ensures forall b :: b in s <==> (a, b) in e
  {
    set d | d in e && d.0 == a :: d.1
  }

  lemma FlipHas<T>(e: set<(T, T)>, a: T, b: T)
    ensures (a, b) in Flip(e) <==> (b, a) in e
  {
    if (b, a) in e {
      assert ((b, a).1, (b, a).0) in Flip(e);
    }
  }

  lemma FlipFlip<T>(e: set<(T, T)>)
    ensures Flip(Flip(e)) == e
  {
    forall d: (T, T) | d in e || d in Flip(Flip(e))
      ensures d in Flip(Flip(e)) <==> d in e
    {
      FlipHas(e, d.1, d.0);
      FlipHas(Flip(e), d.0, d.1);
    }
  }

  lemma ReachesSelf<T(!new)>(e: set<(T, T)>, a: T)
    ensures Reaches(e, a, a)
  {
    assert PathBetween(e, [a], a, a);
  }

  lemma ReachesEdge<T(!new)>(e: set<(T, T)>, a: T, b: T)
    requires (a, b) in e
    ensures Reaches(e, a, b)
  {
    assert PathBetween(e, [a, b], a, b);
  }

  lemma ReachesTrans<T(!new)>(e: set<(T, T)>, a: T, b: T, c: T)
    requires Reaches(e, a, b) && Reaches(e, b, c)
    ensures Reaches(e, a, c)
  {
    var p: seq<T> :| PathBetween(e, p, a, b);
    var q: seq<T> :| PathBetween(e, q, b, c);
    var r := p + q[1..];
    forall i | 0 <= i < |r| - 1
      ensures (r[i], r[i + 1]) in e
    {
      if i >= |p| - 1 {
        assert r[i] == q[i - |p| + 1];
        assert r[i + 1] == q[i - |p| + 2];
      }
    }
    assert PathBetween(e, r, a, c);
  }

  lemma ReachesFirstStep<T(!new)>(e: set<(T, T)>, a: T, c: T) returns (b: T)
    requires Reaches(e, a, c) && a != c
    ensures (a, b) in e && Reaches(e, b, c)
  {
    var p: seq<T> :| PathBetween(e, p, a, c);
    b := p[1];
    var q := p[1..];
    forall i | 0 <= i < |q| - 1
      ensures (q[i], q[i + 1]) in e
    {
      assert q[i] == p[i + 1] && q[i + 1] == p[i + 2];
    }
    assert PathBetween(e, q, b, c);
  }

  lemma ReachesFlip<T(!new)>(e: set<(T, T)>, a: T, b: T)
    ensures Reaches(Flip(e), a, b) <==> Reaches(e, b, a)
  {
    if Reaches(e, b, a) {
      ReachesFlipped(e, b, a);
    }
    if Reaches(Flip(e), a, b) {
      ReachesFlipped(Flip(e), a, b);
      FlipFlip(e);
    }
  }

  lemma ReachesFlipped<T(!new)>(e: set<(T, T)>, a: T, b: T)
    requires Reaches(e, a, b)
    ensures Reaches(Flip(e), b, a)
  {
    var p: seq<T> :| PathBetween(e, p, a, b);
    var q := seq(|p|, i requires 0 <= i < |p| => p[|p| - 1 - i]);
    forall i | 0 <= i < |q| - 1
      ensures (q[i], q[i + 1]) in Flip(e)
    {
      FlipHas(e, q[i], q[i + 1]);
      assert (p[|p| - 2 - i], p[|p| - 2 - i + 1]) in e;
    }
    assert PathBetween(Flip(e), q, b, a);
  }

  /** A closed set of nodes holds everything its members reach. */
  lemma {:induction false} ClosedHoldsReachable<T(!new)>(e: set<(T, T)>, s: set<T>, p: seq<T>)
    requires forall d :: d in e && d.0 in s ==> d.1 in s
    requires IsPath(e, p) && p[0] in s
    ensures p[|p| - 1] in s
    decreases |p|
  {
    if |p| > 1 {
      assert (p[0], p[1]) in e;
      var q := p[1..];
      forall i | 0 <= i < |q| - 1
        ensures (q[i], q[i + 1]) in e
      {
        assert q[i] == p[i + 1] && q[i + 1] == p[i + 2];
      }
      ClosedHoldsReachable(e, s, q);
    }
  }

  // --- Rankings and cycles exclude each other ---

  lemma {:induction false} RankGrowsAlongPath<T>(e: set<(T, T)>, rank: map<T, nat>, p: seq<T>)
    requires Ranked(e, rank) && IsPath(e, p) && |p| > 1
    ensures p[0] in rank && p[|p| - 1] in rank && rank[p[0]] < rank[p[|p| - 1]]
    decreases |p|
  {
    var n := |p|;
    assert (p[n - 2], p[n - 1]) in e;
    if n > 2 {
      RankGrowsAlongPath(e, rank, p[..n - 1]);
    }
  }

  lemma RankedIsNoCycle<T>(e: set<(T, T)>, rank: map<T, nat>, c: seq<T>)
    requires Ranked(e, rank)
    ensures !IsCycle(e, c)
  {
    if IsPath(e, c) && |c| > 1 {
      RankGrowsAlongPath(e, rank, c);
    }
  }

  lemma RankedHasNoCycle<T(!new)>(e: set<(T, T)>, rank: map<T, nat>)
    requires Ranked(e, rank)
    ensures !HasCycle(e)
  {
    forall c: seq<T> {
      RankedIsNoCycle(e, rank, c);
    }
  }

  function Elements<T>(s: seq<T>): (r: set<T>) {
    set x | x in s
  }

  ghost predicate Distinct<T>(s: seq<T>) {
    forall i, j :: 0 <= i < j < |s| ==> s[i] != s[j]
  }

  lemma {:induction false} DistinctFitsIn<T>(s: seq<T>, v: set<T>)
    requires Distinct(s) && forall x :: x in s ==> x in v
    ensures |s| <= |v|
    decreases |s|
  {
    if |s| > 0 {
      var n := |s| - 1;
      DistinctFitsIn(s[..n], v - {s[n]});
    }
  }

  ghost predicate HasPredIn<T>(e: set<(T, T)>, s: set<T>, b: T) {
    exists a :: a in s && (a, b) in e
  }

  /** A walk backwards along edges inside s, as long as asked for. */
  lemma {:induction false} WalkBack<T>(e: set<(T, T)>, s: set<T>, n: nat) returns (p: seq<T>)
    requires s != {}
    requires forall b :: b in s ==> HasPredIn(e, s, b)
    ensures |p| == n + 1 && IsPath(e, p) && forall x :: x in p ==> x in s
    decreases n
  {
    if n == 0 {
      var a :| a in s;
      p := [a];
    } else {
      var q := WalkBack(e, s, n - 1);
      assert q[0] in s;
      assert HasPredIn(e, s, q[0]);
      var a :| a in s && (a, q[0]) in e;
      p := [a] + q;
      forall i | 0 <= i < |p| - 1
        ensures (p[i], p[i + 1]) in e
      {
        if i > 0 {
          assert p[i] == q[i - 1] && p[i + 1] == q[i];
        }
      }
    }
  }

  /** Nodes that all have a predecessor among themselves lie on a cycle. */
  lemma NoSourceMeansCycle<T(!new)>(e: set<(T, T)>, s: set<T>)
    requires s != {}
    requires forall b :: b in s ==> HasPredIn(e, s, b)
    ensures HasCycle(e)
  {
    var p := WalkBack(e, s, |s|);
    if Distinct(p) {
      DistinctFitsIn(p, s);
    }
    var i, j :| 0 <= i < j < |p| && p[i] == p[j];
    var c := p[i..j];
    forall k | 0 <= k < |c| - 1
      ensures (c[k], c[k + 1]) in e
    {
      assert c[k] == p[i + k] && c[k + 1] == p[i + k + 1];
    }
    assert (p[j - 1], p[j]) in e;
    assert IsCycle(e, c);
  }

  /** An acyclic relation can be ranked: peel off a node without predecessors. */
  lemma {:induction false} AcyclicCanBeRanked<T(!new)>(e: set<(T, T)>, v: set<T>) returns (rank: map<T, nat>)
    requires Within(e, v) && !HasCycle(e)
    ensures Ranked(e, rank) && rank.Keys == v
    decreases v
  {
    if v == {} {
      rank := map[];
    } else {
      if forall b :: b in v ==> HasPredIn(e, v, b) {
        NoSourceMeansCycle(e, v);
      }
      var b :| b in v && !HasPredIn(e, v, b);
      var f := set d | d in e && d.0 != b;
      forall c: seq<T> | IsCycle(f, c)
        ensures false
      {
        assert IsCycle(e, c);
      }
      assert Within(f, v - {b});
      var r := AcyclicCanBeRanked(f, v - {b});
      rank := map x | x in v :: if x == b then 0 else r[x] + 1;
      forall d | d in e
        ensures d.0 in rank && d.1 in rank && rank[d.0] < rank[d.1]
      {
        assert d == (d.0, d.1);
        assert d.1 != b;
        if d.0 != b {
          assert d in f;
        }
      }
    }
  }

  lemma FlippedIsNoCycle<T(!new)>(e: set<(T, T)>, rank: map<T, nat>, c: seq<T>)
    requires Ranked(e, rank)
    ensures !IsCycle(Flip(e), c)
  {
    if IsCycle(Flip(e), c) {
      var d := seq(|c|, i requires 0 <= i < |c| => c[|c| - 1 - i]);
      forall i | 0 <= i < |d| - 1
        ensures (d[i], d[i + 1]) in e
      {
        assert (c[|c| - 2 - i], c[|c| - 2 - i + 1]) in Flip(e);
        FlipHas(e, d[i + 1], d[i]);
      }
      FlipHas(e, d[0], d[|d| - 1]);
      RankedIsNoCycle(e, rank, d);
    }
  }

  /** The reversed graph can be ranked too. */
  lemma FlipRank<T(!new)>(e: set<(T, T)>, v: set<T>, rank: map<T, nat>) returns (r: map<T, nat>)
    requires Ranked(e, rank) && Within(e, v)
    ensures Ranked(Flip(e), r) && r.Keys == v
  {
    forall c: seq<T> {
      FlippedIsNoCycle(e, rank, c);
    }
    forall d | d in Flip(e)
      ensures d.0 in v && d.1 in v
    {
      FlipHas(e, d.0, d.1);
      assert d == (d.0, d.1);
      assert (d.1, d.0) in e;
    }
    r := AcyclicCanBeRanked(Flip(e), v);
  }

  // --- Listings in which every node follows its predecessors ---

  ghost predicate InOrder<T(!new)>(e: set<(T, T)>, q: seq<T>) {
    forall i, a :: 0 <= i < |q| && (a, q[i]) in e ==> a in q[..i]
  }

  lemma InOrderSnoc<T(!new)>(e: set<(T, T)>, q: seq<T>, b: T)
    requires InOrder(e, q) && forall a :: (a, b) in e ==> a in q
    ensures InOrder(e, q + [b])
  {
    forall i, a | 0 <= i < |q + [b]| && (a, (q + [b])[i]) in e
      ensures a in (q + [b])[..i]
    {
      assert (q + [b])[..i] == q[..i];
      assert q[..|q|] == q;
    }
  }

  /** The position of the first x in q. */
  ghost function FirstAt<T>(q: seq<T>, x: T): (i: nat)
    requires x in q
    ensures i < |q| && q[i] == x && forall j :: 0 <= j < i ==> q[j] != x
  {
    if q[0] == x then 0 else 1 + FirstAt(q[1..], x)
  }

  lemma InOrderHasNoCycle<T(!new)>(e: set<(T, T)>, q: seq<T>)
    requires InOrder(e, q) && forall d :: d in e ==> d.1 in q
    ensures !HasCycle(e)
  {
    var rank: map<T, nat> := map x | x in Elements(q) :: FirstAt(q, x);
    forall d | d in e
      ensures d.0 in rank && d.1 in rank && rank[d.0] < rank[d.1]
    {
      var i := FirstAt(q, d.1);
      assert (d.0, q[i]) in e && d.0 in q[..i];
      var j :| 0 <= j < i && q[j] == d.0;
      assert FirstAt(q, d.0) <= j;
    }
    RankedHasNoCycle(e, rank);
  }

  // --- Adding edges that only lead to new nodes ---

  ghost function From<T(!new)>(e: set<(T, T)>, s: set<T>): set<(T, T)> {
    set d | d in e && d.0 in s
  }

  lemma CycleStays<T(!new)>(e: set<(T, T)>, s: set<T>, c: seq<T>, i: nat)
    requires IsCycle(e, c) && i < |c| && c[i] in s && forall d :: d in e && d.0 in s ==> d.1 in s
    ensures forall j :: 0 <= j < |c| ==> c[j] in s
  {
    StaysIn(e, s, c, i);
    assert (c[|c| - 1], c[0]) in e;
    StaysIn(e, s, c, 0);
  }

  lemma {:induction false} StaysIn<T(!new)>(e: set<(T, T)>, s: set<T>, c: seq<T>, i: nat)
    requires IsPath(e, c) && i < |c| && c[i] in s && forall d :: d in e && d.0 in s ==> d.1 in s
    ensures forall j :: i <= j < |c| ==> c[j] in s
    decreases |c| - i
  {
    if i + 1 < |c| {
      assert (c[i], c[i + 1]) in e;
      StaysIn(e, s, c, i + 1);
    }
  }

  lemma CycleEither<T(!new)>(e0: set<(T, T)>, e1: set<(T, T)>, s: set<T>, c: seq<T>)
    requires IsCycle(e0 + e1, c)
    requires forall d :: d in e0 ==> d.0 !in s && d.1 !in s
    requires forall d :: d in e1 ==> d.1 in s
    ensures IsCycle(e0, c) || IsCycle(From(e1, s), c)
  {
    var e := e0 + e1;
    if i :| 0 <= i < |c| && c[i] in s {
      CycleStays(e, s, c, i);
      assert forall d :: d in e && d.0 in s ==> d in From(e1, s);
      assert forall j :: 0 <= j < |c| - 1 ==> (c[j], c[j + 1]) in From(e1, s);
    } else {
      forall j | 0 <= j < |c| - 1
        ensures (c[j], c[j + 1]) in e0
      {
        assert (c[j], c[j + 1]) in e && c[j + 1] !in s;
      }
    }
  }

  /** Edges into a set s, added to an acyclic graph that does not touch s, make no
      cycle unless those inside s do. */
  lemma AddedEdgesNoCycle<T(!new)>(e0: set<(T, T)>, e1: set<(T, T)>, s: set<T>)
    requires !HasCycle(e0) && !HasCycle(From(e1, s))
    requires forall d :: d in e0 ==> d.0 !in s && d.1 !in s
    requires forall d :: d in e1 ==> d.1 in s
    ensures !HasCycle(e0 + e1)
  {
    forall c: seq<T> | IsCycle(e0 + e1, c)
      ensures IsCycle(e0, c) || IsCycle(From(e1, s), c)
    {
      CycleEither(e0, e1, s, c);
    }
  }

  // --- Adding edges that lead strictly upwards ---

  /** Every edge of e leads to a level at least as high, those of f to a higher one. */
  ghost predicate Levelled<T>(e: set<(T, T)>, f: set<(T, T)>, level: map<T, nat>) {
    && (forall d :: d in e ==> d.0 in level && d.1 in level && level[d.0] <= level[d.1])
    && (forall d :: d in f ==> d.0 in level && d.1 in level && level[d.0] < level[d.1])
  }

  lemma {:induction false} LevelAlong<T>(e: set<(T, T)>, f: set<(T, T)>, level: map<T, nat>, p: seq<T>, i: nat, j: nat)
    requires Levelled(e, f, level) && IsPath(e + f, p) && i < j < |p|
    ensures p[i] in level && p[j] in level && level[p[i]] <= level[p[j]]
    decreases j
  {
    assert (p[j - 1], p[j]) in e + f;
    if i < j - 1 {
      LevelAlong(e, f, level, p, i, j - 1);
    }
  }

  /** Round a cycle the level cannot rise, so it has no edge of f. */
  lemma LevelRound<T>(e: set<(T, T)>, f: set<(T, T)>, level: map<T, nat>, c: seq<T>, i: nat)
    requires Levelled(e, f, level) && IsCycle(e + f, c) && i < |c| - 1
    ensures (c[i], c[i + 1]) in e
  {
    assert (c[i], c[i + 1]) in e + f && (c[|c| - 1], c[0]) in e + f;
    if i > 0 {
      LevelAlong(e, f, level, c, 0, i);
    }
    if i + 1 < |c| - 1 {
      LevelAlong(e, f, level, c, i + 1, |c| - 1);
    }
  }

  lemma LevelledHasNoCycle<T(!new)>(e: set<(T, T)>, f: set<(T, T)>, level: map<T, nat>)
    requires Levelled(e, f, level) && !HasCycle(e)
    ensures !HasCycle(e + f)
  {
    forall c: seq<T> | IsCycle(e + f, c)
      ensures IsCycle(e, c)
    {
      forall i | 0 <= i < |c| - 1
        ensures (c[i], c[i + 1]) in e
      {
        LevelRound(e, f, level, c, i);
      }
      assert (c[|c| - 1], c[0]) in e + f;
      if |c| > 1 {
        LevelAlong(e, f, level, c, 0, |c| - 1);
      }
    }
  }

  lemma {:induction false} RankAlong<T(!new)>(e: set<(T, T)>, rank: map<T, nat>, a: T, b: T)
    requires Ranked(e, rank) && Reaches(e, a, b) && a in rank
    ensures b in rank && rank[a] <= rank[b]
  {
    var p: seq<T> :| PathBetween(e, p, a, b);
    if |p| > 1 {
      RankGrowsAlongPath(e, rank, p);
    }
  }

  ghost function EndPoints<T(!new)>(e: set<(T, T)>): (v: set<T>)
    ensures Within(e, v)
  {
    (set d | d in e :: d.0) + (set d | d in e :: d.1)
  }
}
