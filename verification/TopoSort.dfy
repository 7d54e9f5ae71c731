/** The sorter of generated operations: Kahn's algorithm over nodes whose edges
    may have been added several times. A node stands for one operation of a
    queue, by its position there. */
module TopoSort {
  import opened Wrappers
  import opened Digraph

  type Node = nat

  datatype TopoInfo = TopoInfo(npred: int, successors: seq<Node>)

  /** The successor lists without the counters. */
  ghost function Lists(info: map<Node, TopoInfo>): map<Node, seq<Node>> {
    map n | n in info :: info[n].successors
  }

  /** The dependencies recorded, each counted once. */
  ghost function EdgesOf(succ: map<Node, seq<Node>>): set<(Node, Node)> {
    set p, n | p in succ && n in succ[p] :: (p, n)
  }

  /** How many recorded edges lead to n from the nodes of ns outside done,
      repeated edges counted as often as they were added. */
  ghost function InDegree(ns: seq<Node>, succ: map<Node, seq<Node>>, done: set<Node>, n: Node): nat
    decreases |ns|
  {
    if ns == [] then 0
    else
      var p := ns[|ns| - 1];
      InDegree(ns[..|ns| - 1], succ, done, n) + if p in done || p !in succ then 0 else multiset(succ[p])[n]
  }

  lemma {:induction false} InDegreeSame(ns: seq<Node>, a: map<Node, seq<Node>>, b: map<Node, seq<Node>>,
      done: set<Node>, n: Node)
    requires forall p :: p in ns ==> (p in a <==> p in b) && (p in a ==> multiset(a[p])[n] == multiset(b[p])[n])
    ensures InDegree(ns, a, done, n) == InDegree(ns, b, done, n)
    decreases |ns|
  {
    if ns != [] {
      assert ns[|ns| - 1] in ns;
      InDegreeSame(ns[..|ns| - 1], a, b, done, n);
    }
  }

  lemma InDegreeSnoc(ns: seq<Node>, p: Node, succ: map<Node, seq<Node>>, done: set<Node>, n: Node)
    ensures InDegree(ns + [p], succ, done, n)
         == InDegree(ns, succ, done, n) + if p in done || p !in succ then 0 else multiset(succ[p])[n]
  {
    assert (ns + [p])[..|ns|] == ns;
  }

  /** One more edge p -> m. */
  lemma {:induction false} InDegreeAdd(ns: seq<Node>, succ: map<Node, seq<Node>>, p: Node, m: Node, n: Node)
    requires Distinct(ns) && p in succ
    ensures InDegree(ns, succ[p := succ[p] + [m]], {}, n)
         == InDegree(ns, succ, {}, n) + if p in ns && n == m then 1 else 0
    decreases |ns|
  {
    if ns != [] {
      var front, last := ns[..|ns| - 1], ns[|ns| - 1];
      assert ns == front + [last] && Distinct(front) && last !in front;
      InDegreeAdd(front, succ, p, m, n);
    }
  }

  lemma {:induction false} InDegreeDone(ns: seq<Node>, succ: map<Node, seq<Node>>, done: set<Node>, p: Node, n: Node)
    requires Distinct(ns) && p in succ && p !in done
    ensures InDegree(ns, succ, done, n)
         == InDegree(ns, succ, done + {p}, n) + if p in ns then multiset(succ[p])[n] else 0
    decreases |ns|
  {
    if ns != [] {
      var front, last := ns[..|ns| - 1], ns[|ns| - 1];
      assert ns == front + [last] && Distinct(front) && last !in front;
      InDegreeDone(front, succ, done, p, n);
    }
  }

  ghost predicate HasOpenPred(ns: seq<Node>, succ: map<Node, seq<Node>>, done: set<Node>, n: Node) {
    exists p :: p in ns && p !in done && p in succ && n in succ[p]
  }

  lemma {:induction false} InDegreeZero(ns: seq<Node>, succ: map<Node, seq<Node>>, done: set<Node>, n: Node)
    ensures InDegree(ns, succ, done, n) > 0 <==> HasOpenPred(ns, succ, done, n)
    decreases |ns|
  {
    if ns != [] {
      var front, last := ns[..|ns| - 1], ns[|ns| - 1];
      InDegreeZero(front, succ, done, n);
      assert forall p :: p in ns <==> p in front || p == last;
      if last in succ && n in succ[last] {
        assert multiset(succ[last])[n] > 0;
      }
    }
  }

  // --- Releasing the successors of one node ---

  /** The successors whose last outstanding edge is met while walking s, in the
      order in which that happens. */
  ghost function Freed(s: seq<Node>, left: map<Node, int>): seq<Node>
    decreases |s|
  {
    if s == [] then []
    else
      var front, last := s[..|s| - 1], s[|s| - 1];
      Freed(front, left) + if last in left && left[last] == multiset(s)[last] then [last] else []
  }

  ghost predicate Ascending(s: seq<Node>) {
    forall i, j :: 0 <= i < j < |s| ==> s[i] <= s[j]
  }

  ghost predicate StrictlyAscending(s: seq<Node>) {
    forall i, j :: 0 <= i < j < |s| ==> s[i] < s[j]
  }

  lemma MultisetSnoc(front: seq<Node>, last: Node, s: seq<Node>)
    requires s == front + [last]
    ensures multiset(s) == multiset(front) + multiset{last}
  {}

  lemma {:induction false} FreedCorrect(s: seq<Node>, left: map<Node, int>)
    requires forall n :: n in s ==> n in left && multiset(s)[n] <= left[n]
    ensures Distinct(Freed(s, left))
    ensures forall n :: n in Freed(s, left) <==> n in s && left[n] == multiset(s)[n]
    decreases |s|
  {
    if s != [] {
      var front, last := s[..|s| - 1], s[|s| - 1];
      assert s == front + [last];
      MultisetSnoc(front, last, s);
      forall n | n in front
        ensures n in left && multiset(front)[n] <= left[n]
      {
        assert n in s;
      }
      FreedCorrect(front, left);
      assert last in s && (last in front ==> multiset(front)[last] < left[last]);
      assert last !in Freed(front, left);
      forall n
        ensures n in Freed(s, left) <==> n in s && left[n] == multiset(s)[n]
      {
        assert n in s <==> n in front || n == last;
        if n != last {
          assert multiset(s)[n] == multiset(front)[n];
        }
      }
    }
  }

  lemma AscendingSnoc(s: seq<Node>, n: Node)
    requires StrictlyAscending(s) && forall m :: m in s ==> m < n
    ensures StrictlyAscending(s + [n])
  {
    assert forall i :: 0 <= i < |s| ==> s[i] in s;
  }

  lemma AscendingFront(s: seq<Node>, front: seq<Node>, last: Node)
    requires Ascending(s) && s == front + [last]
    ensures Ascending(front) && forall n :: n in front ==> n <= last
  {
    assert forall i :: 0 <= i < |front| ==> front[i] == s[i];
    assert s[|front|] == last;
  }

  lemma {:induction false} FreedAscends(s: seq<Node>, left: map<Node, int>)
    requires forall n :: n in s ==> n in left && multiset(s)[n] <= left[n]
    requires Ascending(s)
    ensures StrictlyAscending(Freed(s, left))
    decreases |s|
  {
    if s != [] {
      hide Ascending, StrictlyAscending, Distinct;
      var front, last := s[..|s| - 1], s[|s| - 1];
      assert s == front + [last];
      MultisetSnoc(front, last, s);
      AscendingFront(s, front, last);
      forall n | n in front
        ensures n in left && multiset(front)[n] <= left[n]
      {
        assert n in s;
      }
      assert last in s && multiset(front)[last] < left[last];
      FreedCorrect(front, left);
      FreedAscends(front, left);
      forall m | m in Freed(front, left)
        ensures m < last
      {
        assert m in front && m != last;
      }
      AscendingSnoc(Freed(front, left), last);
      assert Freed(front, left) + [] == Freed(front, left);
    }
  }

  // --- The order produced ---

  ghost predicate HasPred(e: set<(Node, Node)>, n: Node) {
    exists p :: (p, n) in e
  }

  /** The nodes without a predecessor, in the order of ns. */
  ghost function Sources(e: set<(Node, Node)>, ns: seq<Node>): seq<Node>
    decreases |ns|
  {
    if ns == [] then []
    else
      var last := ns[|ns| - 1];
      Sources(e, ns[..|ns| - 1]) + if HasPred(e, last) then [] else [last]
  }

  lemma {:induction false} SourcesCorrect(e: set<(Node, Node)>, ns: seq<Node>)
    requires Distinct(ns)
    ensures Distinct(Sources(e, ns)) && forall n :: n in Sources(e, ns) <==> n in ns && !HasPred(e, n)
    decreases |ns|
  {
    if ns != [] {
      var front, last := ns[..|ns| - 1], ns[|ns| - 1];
      assert ns == front + [last] && Distinct(front) && last !in front;
      SourcesCorrect(e, front);
    }
  }

  /** The node at i was queued while the one at r, the last of its predecessors,
      was handled. */
  ghost predicate ReleasedBy(e: set<(Node, Node)>, q: seq<Node>, i: nat, r: nat)
    requires i < |q|
  {
    r < i && (q[r], q[i]) in e && forall p :: (p, q[i]) in e ==> p in q[..r + 1]
  }

  /** First the nodes without predecessors, in the order they were added; then
      every other node in the order in which its last predecessor comes.
      release[i] is the position of the last predecessor of q[i]. */
  ghost predicate KahnOrder(e: set<(Node, Node)>, ns: seq<Node>, q: seq<Node>, release: seq<nat>) {
    var r := |Sources(e, ns)|;
    && Distinct(q) && (forall n :: n in q ==> n in ns)
    && Sources(e, ns) <= q && |release| == |q|
    && (forall i :: r <= i < |q| ==> ReleasedBy(e, q, i, release[i]))
    && (forall i, j :: r <= i < j < |q| ==> release[i] <= release[j])
  }

  /** Nodes released together keep the order of their numbers. */
  ghost predicate TiesAscend(r: nat, q: seq<Node>, release: seq<nat>)
    requires |release| == |q|
  {
    forall i, j :: r <= i < j < |q| && release[i] == release[j] ==> q[i] < q[j]
  }

  /** Every operation comes after all its predecessors. */
  lemma KahnOrderFollows(e: set<(Node, Node)>, ns: seq<Node>, q: seq<Node>, release: seq<nat>, i: nat, p: Node)
    requires KahnOrder(e, ns, q, release) && Distinct(ns) && i < |q| && (p, q[i]) in e
    ensures i >= |Sources(e, ns)|
    ensures exists k :: 0 <= k <= release[i] && release[i] < i && q[k] == p
  {
    SourcesCorrect(e, ns);
    assert HasPred(e, q[i]);
    assert forall k :: 0 <= k < |Sources(e, ns)| ==> Sources(e, ns)[k] == q[k] && Sources(e, ns)[k] in Sources(e, ns);
    assert ReleasedBy(e, q, i, release[i]) && p in q[..release[i] + 1];
  }

  lemma KahnOrderHasNoCycle(e: set<(Node, Node)>, ns: seq<Node>, q: seq<Node>, release: seq<nat>)
    requires KahnOrder(e, ns, q, release) && Distinct(ns)
    requires forall d :: d in e ==> d.0 in q && d.1 in q
    ensures !HasCycle(e)
  {
    var rank: map<Node, nat> := map n | n in q :: IndexIn(q, n);
    forall d | d in e
      ensures d.0 in rank && d.1 in rank && rank[d.0] < rank[d.1]
    {
      var i := IndexIn(q, d.1);
      KahnOrderFollows(e, ns, q, release, i, d.0);
      var k :| 0 <= k <= release[i] && release[i] < i && q[k] == d.0;
      assert k == IndexIn(q, d.0);
    }
    RankedHasNoCycle(e, rank);
  }

  ghost function IndexIn(q: seq<Node>, n: Node): (i: nat)
    requires n in q
    ensures i < |q| && q[i] == n
  {
    var i :| 0 <= i < |q| && q[i] == n;
    i
  }

  // --- Levels ---

  /** The group the node at i is emitted in. */
  ghost function LevelAt(r: nat, release: seq<nat>, i: nat): nat
    requires i < |release| && forall k :: r <= k < |release| ==> release[k] < k
  {
    if i < r then 0 else 1 + LevelAt(r, release, release[i])
  }

  lemma {:induction false} LevelsAscend(r: nat, release: seq<nat>, i: nat, j: nat)
    requires i <= j < |release| && forall k :: r <= k < |release| ==> release[k] < k
    requires forall k, l :: r <= k < l < |release| ==> release[k] <= release[l]
    ensures LevelAt(r, release, i) <= LevelAt(r, release, j)
    decreases j
  {
    if r <= i < j {
      LevelsAscend(r, release, release[i], release[j]);
    }
  }

  /** Some chain of dependencies ending at n has len steps, and none has more. */
  ghost predicate LongestChain(e: set<(Node, Node)>, n: Node, len: nat) {
    && (exists c: seq<Node> :: IsPath(e, c) && c[|c| - 1] == n && |c| == len + 1)
    && (forall c: seq<Node> :: IsPath(e, c) && c[|c| - 1] == n ==> |c| <= len + 1)
  }

  lemma {:induction false} ChainOfLevel(e: set<(Node, Node)>, ns: seq<Node>, q: seq<Node>, release: seq<nat>, i: nat)
      returns (c: seq<Node>)
    requires KahnOrder(e, ns, q, release) && i < |q|
    requires forall k :: |Sources(e, ns)| <= k < |release| ==> release[k] < k
    ensures IsPath(e, c) && c[|c| - 1] == q[i] && |c| == LevelAt(|Sources(e, ns)|, release, i) + 1
    decreases i
  {
    if i < |Sources(e, ns)| {
      c := [q[i]];
    } else {
      assert ReleasedBy(e, q, i, release[i]);
      var b := ChainOfLevel(e, ns, q, release, release[i]);
      c := b + [q[i]];
    }
  }

  lemma {:induction false} NoLongerChain(e: set<(Node, Node)>, ns: seq<Node>, q: seq<Node>, release: seq<nat>, i: nat,
      c: seq<Node>)
    requires KahnOrder(e, ns, q, release) && Distinct(ns) && i < |q|
    requires forall k :: |Sources(e, ns)| <= k < |release| ==> release[k] < k
    requires IsPath(e, c) && c[|c| - 1] == q[i]
    ensures |c| <= LevelAt(|Sources(e, ns)|, release, i) + 1
    decreases |c|
  {
    var n := |c|;
    if n > 1 {
      assert (c[n - 2], c[n - 1]) in e;
      KahnOrderFollows(e, ns, q, release, i, c[n - 2]);
      var k :| 0 <= k <= release[i] && release[i] < i && q[k] == c[n - 2];
      assert IsPath(e, c[..n - 1]);
      NoLongerChain(e, ns, q, release, k, c[..n - 1]);
      LevelsAscend(|Sources(e, ns)|, release, k, release[i]);
    }
  }

  /** The operations come in the order of their groups, and the group of each is
      the length of the longest chain of dependencies leading to it. */
  lemma KahnGroups(e: set<(Node, Node)>, ns: seq<Node>, q: seq<Node>, release: seq<nat>)
    requires KahnOrder(e, ns, q, release) && Distinct(ns)
    ensures forall k :: |Sources(e, ns)| <= k < |release| ==> release[k] < k
    ensures forall i :: 0 <= i < |q| ==> LongestChain(e, q[i], LevelAt(|Sources(e, ns)|, release, i))
    ensures forall i, j :: 0 <= i <= j < |q| ==>
      LevelAt(|Sources(e, ns)|, release, i) <= LevelAt(|Sources(e, ns)|, release, j)
  {
    var r := |Sources(e, ns)|;
    forall k | r <= k < |release|
      ensures release[k] < k
    {
      assert ReleasedBy(e, q, k, release[k]);
    }
    forall i | 0 <= i < |q|
      ensures LongestChain(e, q[i], LevelAt(r, release, i))
    {
      var c := ChainOfLevel(e, ns, q, release, i);
      forall d: seq<Node> | IsPath(e, d) && d[|d| - 1] == q[i]
        ensures |d| <= LevelAt(r, release, i) + 1
      {
        NoLongerChain(e, ns, q, release, i, d);
      }
    }
    forall i, j | 0 <= i <= j < |q|
      ensures LevelAt(r, release, i) <= LevelAt(r, release, j)
    {
      LevelsAscend(r, release, i, j);
    }
  }

  // --- Handling one node of the queue ---

  ghost function NPred(info: map<Node, TopoInfo>): map<Node, int> {
    map n | n in info :: info[n].npred
  }

  /** Every counter is the number of edges from nodes not handled yet, and the
      nodes with none are exactly those queued. */
  ghost predicate Counted(ns: seq<Node>, succ: map<Node, seq<Node>>, npred: map<Node, int>, q: seq<Node>,
      done: set<Node>) {
    && npred.Keys == succ.Keys
    && forall n :: n in ns ==> n in npred && npred[n] == InDegree(ns, succ, done, n) && (n in q <==> npred[n] == 0)
  }

  /** The nodes and their successors, without the counters. */
  ghost predicate Recorded(ns: seq<Node>, succ: map<Node, seq<Node>>) {
    && Distinct(ns) && succ.Keys == Elements(ns)
    && forall p, n :: p in succ && n in succ[p] ==> n in succ
  }

  ghost function Repeat(r: nat, n: nat): (s: seq<nat>)
    ensures |s| == n && forall i :: 0 <= i < n ==> s[i] == r
  {
    seq(n, _ => r)
  }

  lemma CountedStep(ns: seq<Node>, succ: map<Node, seq<Node>>, npred: map<Node, int>, after: map<Node, int>,
      q: seq<Node>, done: set<Node>, p: Node)
    requires Recorded(ns, succ) && Counted(ns, succ, npred, q, done) && p in ns && p !in done
    requires after.Keys == npred.Keys && forall n :: n in npred ==> after[n] == npred[n] - multiset(succ[p])[n]
    ensures forall n :: n in succ[p] ==> n in npred && multiset(succ[p])[n] <= npred[n]
    ensures Counted(ns, succ, after, q + Freed(succ[p], npred), done + {p})
    ensures forall n :: n in Freed(succ[p], npred) ==> n in ns && n !in q && !HasOpenPred(ns, succ, done + {p}, n)
    ensures Distinct(Freed(succ[p], npred))
  {
    hide Distinct;
    forall n | n in ns
      ensures npred[n] == InDegree(ns, succ, done + {p}, n) + multiset(succ[p])[n]
    {
      InDegreeDone(ns, succ, done, p, n);
    }
    forall n | n in succ[p]
      ensures n in npred && multiset(succ[p])[n] <= npred[n] && n in ns
    {
      assert n in Elements(ns);
    }
    FreedCorrect(succ[p], npred);
    var f := Freed(succ[p], npred);
    forall n | n in ns
      ensures n in npred && after[n] == InDegree(ns, succ, done + {p}, n) && (n in q + f <==> after[n] == 0)
    {
      assert n in Elements(ns);
      assert n in q + f <==> n in q || n in f;
      assert n in succ[p] <==> multiset(succ[p])[n] > 0;
    }
    forall n | n in f
      ensures n in ns && n !in q && !HasOpenPred(ns, succ, done + {p}, n)
    {
      InDegreeZero(ns, succ, done + {p}, n);
    }
  }

  lemma EdgesOfHas(succ: map<Node, seq<Node>>, p: Node, n: Node)
    ensures (p, n) in EdgesOf(succ) <==> p in succ && n in succ[p]
  {}

  lemma StillReleased(e: set<(Node, Node)>, q: seq<Node>, f: seq<Node>, i: nat, r: nat)
    requires i < |q| && ReleasedBy(e, q, i, r)
    ensures ReleasedBy(e, q + f, i, r)
  {
    assert (q + f)[..r + 1] == q[..r + 1];
  }

  lemma NowReleased(ns: seq<Node>, succ: map<Node, seq<Node>>, q: seq<Node>, c: nat, f: seq<Node>, k: nat)
    requires Recorded(ns, succ) && c < |q| && k < |f| && q[c] in succ && f[k] in succ[q[c]]
    requires !HasOpenPred(ns, succ, Elements(q[..c]) + {q[c]}, f[k])
    ensures ReleasedBy(EdgesOf(succ), q + f, |q| + k, c)
  {
    var e, q' := EdgesOf(succ), q + f;
    EdgesOfHas(succ, q[c], f[k]);
    assert q'[|q| + k] == f[k] && q'[..c + 1] == q[..c] + [q[c]];
    forall p | (p, f[k]) in e
      ensures p in q'[..c + 1]
    {
      EdgesOfHas(succ, p, f[k]);
      assert p in Elements(ns);
      assert p in Elements(q[..c]) + {q[c]};
    }
  }

  lemma DistinctJoin(q: seq<Node>, f: seq<Node>)
    requires Distinct(q) && Distinct(f) && forall n :: n in f ==> n !in q
    ensures Distinct(q + f)
  {
    assert forall j :: 0 <= j < |f| ==> f[j] in f;
    assert forall i :: 0 <= i < |q| ==> q[i] in q;
  }

  /** A node freed while q[c] is handled goes to the end of the queue. */
  lemma OrderStep(ns: seq<Node>, succ: map<Node, seq<Node>>, q: seq<Node>, release: seq<nat>, c: nat, f: seq<Node>)
    requires Recorded(ns, succ) && c < |q| && KahnOrder(EdgesOf(succ), ns, q, release)
    requires forall i :: |Sources(EdgesOf(succ), ns)| <= i < |q| ==> release[i] < c
    requires Distinct(f) && forall n :: n in f ==> n in succ[q[c]] && n in ns && n !in q
    requires forall n :: n in f ==> !HasOpenPred(ns, succ, Elements(q[..c]) + {q[c]}, n)
    requires q[c] in succ
    ensures KahnOrder(EdgesOf(succ), ns, q + f, release + Repeat(c, |f|))
    ensures forall i :: |Sources(EdgesOf(succ), ns)| <= i < |q + f| ==> (release + Repeat(c, |f|))[i] < c + 1
  {
    hide ReleasedBy, HasOpenPred, Recorded, EdgesOf, Sources, Elements;
    var e, q', release' := EdgesOf(succ), q + f, release + Repeat(c, |f|);
    var r := |Sources(e, ns)|;
    forall i | r <= i < |q'|
      ensures ReleasedBy(e, q', i, release'[i])
    {
      if i < |q| {
        StillReleased(e, q, f, i, release[i]);
      } else {
        assert f[i - |q|] in f;
        NowReleased(ns, succ, q, c, f, i - |q|);
      }
    }
    DistinctJoin(q, f);
    hide Distinct;
    assert forall n :: n in q' ==> n in ns;
  }

  lemma TiesStep(r: nat, q: seq<Node>, release: seq<nat>, c: nat, f: seq<Node>)
    requires |release| == |q| && TiesAscend(r, q, release) && StrictlyAscending(f) && r <= |q|
    requires forall i :: r <= i < |q| ==> release[i] < c
    ensures TiesAscend(r, q + f, release + Repeat(c, |f|))
  {}

  // --- The sorter ---

  /** The counters hold every recorded edge, and k edges into n more. */
  ghost predicate CountsUp(ns: seq<Node>, info: map<Node, TopoInfo>, n: Node, k: nat) {
    && Recorded(ns, Lists(info))
    && forall m :: m in ns ==> m in info && info[m].npred == InDegree(ns, Lists(info), {}, m) + if m == n then k else 0
  }

  lemma NewNode(ns: seq<Node>, info: map<Node, TopoInfo>, p: Node, n: Node, k: nat)
    requires CountsUp(ns, info, n, k) && p !in info && (n in info || k == 0)
    ensures CountsUp(ns + [p], info[p := TopoInfo(0, [])], n, k)
    ensures EdgesOf(Lists(info[p := TopoInfo(0, [])])) == EdgesOf(Lists(info))
  {
    hide InDegree, EdgesOf;
    var more := info[p := TopoInfo(0, [])];
    assert p !in Elements(ns);
    assert Lists(more).Keys == Lists(info).Keys + {p} && Elements(ns + [p]) == Elements(ns) + {p};
    forall m | m in ns + [p]
      ensures m in more && more[m].npred == InDegree(ns + [p], Lists(more), {}, m) + if m == n then k else 0
    {
      InDegreeSnoc(ns, p, Lists(more), {}, m);
      InDegreeSame(ns, Lists(info), Lists(more), {}, m);
      InDegreeZero(ns, Lists(info), {}, m);
    }
    forall d
      ensures d in EdgesOf(Lists(more)) <==> d in EdgesOf(Lists(info))
    {
      EdgesOfHas(Lists(more), d.0, d.1);
      EdgesOfHas(Lists(info), d.0, d.1);
    }
  }

  lemma NewEdge(ns: seq<Node>, info: map<Node, TopoInfo>, p: Node, n: Node, k: nat)
    requires CountsUp(ns, info, n, k + 1) && p in info && n in info
    ensures var more := info[p := info[p].(successors := info[p].successors + [n])];
      CountsUp(ns, more, n, k) && EdgesOf(Lists(more)) == EdgesOf(Lists(info)) + {(p, n)}
  {
    hide InDegree, EdgesOf;
    var more := info[p := info[p].(successors := info[p].successors + [n])];
    var succ := Lists(info);
    assert Lists(more) == succ[p := succ[p] + [n]];
    assert p in Elements(ns);
    forall m | m in ns
      ensures m in more && more[m].npred == InDegree(ns, Lists(more), {}, m) + if m == n then k else 0
    {
      InDegreeAdd(ns, succ, p, n, m);
    }
    forall d
      ensures d in EdgesOf(Lists(more)) <==> d in EdgesOf(succ) || d == (p, n)
    {
      EdgesOfHas(Lists(more), d.0, d.1);
      EdgesOfHas(succ, d.0, d.1);
    }
  }

  /** Every successor list is in order, with no number above n. */
  ghost predicate ListsUpTo(info: map<Node, TopoInfo>, n: Node) {
    forall p :: p in info ==> Ascending(info[p].successors) && forall m :: m in info[p].successors ==> m <= n
  }

  lemma ListsUpToGrow(info: map<Node, TopoInfo>, p: Node, n: Node)
    requires ListsUpTo(info, n)
    ensures p !in info ==> ListsUpTo(info[p := TopoInfo(0, [])], n)
    ensures p in info ==> ListsUpTo(info[p := info[p].(successors := info[p].successors + [n])], n)
    ensures forall c: int :: n in info ==> ListsUpTo(info[n := info[n].(npred := c)], n)
  {
    if p in info {
      var s := info[p].successors;
      assert forall i :: 0 <= i < |s| ==> s[i] in s;
      assert Ascending(s + [n]);
    }
  }

  lemma Raised(ns: seq<Node>, info: map<Node, TopoInfo>, n: Node, k: nat)
    requires CountsUp(ns, info, n, 0) && n in info
    ensures CountsUp(ns, info[n := info[n].(npred := info[n].npred + k)], n, k)
    ensures Lists(info[n := info[n].(npred := info[n].npred + k)]) == Lists(info)
  {
    assert Lists(info[n := info[n].(npred := info[n].npred + k)]) == Lists(info);
  }

  /** The edges that make n wait for each of ps. */
  ghost function Into(ps: seq<Node>, n: Node): set<(Node, Node)> {
    set p | p in ps :: (p, n)
  }

  lemma IntoSnoc(ps: seq<Node>, p: Node, n: Node)
    ensures Into(ps + [p], n) == Into(ps, n) + {(p, n)} && Into([], n) == {}
  {
    forall d
      ensures d in Into(ps + [p], n) <==> d in Into(ps, n) || d == (p, n)
    {}
  }

  lemma ElementsSnoc(s: seq<Node>, n: Node)
    ensures Elements(s + [n]) == Elements(s) + {n}
    ensures n in s <==> n in Elements(s)
  {}

  // --- The run of the sort ---

  /** q is the queue so far, of which the first c nodes have been handled. */
  ghost predicate Running(ns: seq<Node>, succ: map<Node, seq<Node>>, npred: map<Node, int>, q: seq<Node>,
      release: seq<nat>, c: nat, ascends: bool) {
    && Recorded(ns, succ) && c <= |q|
    && Counted(ns, succ, npred, q, Elements(q[..c]))
    && KahnOrder(EdgesOf(succ), ns, q, release)
    && (forall i :: |Sources(EdgesOf(succ), ns)| <= i < |q| ==> release[i] < c)
    && (ascends ==> TiesAscend(|Sources(EdgesOf(succ), ns)|, q, release) && forall p :: p in succ ==>
      Ascending(succ[p]))
  }

  lemma FirstReady(ns: seq<Node>, info: map<Node, TopoInfo>, i: nat)
    requires CountsUp(ns, info, 0, 0) && i < |ns|
    ensures ns[i] in info
    ensures Sources(EdgesOf(Lists(info)), ns[..i + 1])
         == Sources(EdgesOf(Lists(info)), ns[..i]) + if info[ns[i]].npred == 0 then [ns[i]] else []
  {
    NoPredIffZero(ns, info, ns[i]);
    assert ns[..i + 1][..i] == ns[..i];
  }

  lemma NoPredIffZero(ns: seq<Node>, info: map<Node, TopoInfo>, n: Node)
    requires CountsUp(ns, info, 0, 0) && n in ns
    ensures n in info && (info[n].npred == 0 <==> !HasPred(EdgesOf(Lists(info)), n))
  {
    var succ := Lists(info);
    InDegreeZero(ns, succ, {}, n);
    if HasPred(EdgesOf(succ), n) {
      var p :| (p, n) in EdgesOf(succ);
      EdgesOfHas(succ, p, n);
      assert p in Elements(ns);
    }
    if HasOpenPred(ns, succ, {}, n) {
      var p :| p in ns && p in succ && n in succ[p];
      EdgesOfHas(succ, p, n);
    }
  }

  lemma Start(ns: seq<Node>, info: map<Node, TopoInfo>, ready: seq<Node>, release: seq<nat>, ascends: bool)
    requires CountsUp(ns, info, 0, 0) && ready == Sources(EdgesOf(Lists(info)), ns) && |release| == |ready|
    requires ascends ==> exists n :: ListsUpTo(info, n)
    ensures Running(ns, Lists(info), NPred(info), ready, release, 0, ascends)
  {
    var e := EdgesOf(Lists(info));
    SourcesCorrect(e, ns);
    assert Counted(ns, Lists(info), NPred(info), ready, Elements(ready[..0])) by {
      hide InDegree, EdgesOf, Sources;
      NoElements(ready[..0]);
      assert NPred(info).Keys == Lists(info).Keys;
      forall n | n in ns
        ensures n in NPred(info) && NPred(info)[n] == InDegree(ns, Lists(info), {}, n) &&
          (n in ready <==> NPred(info)[n] == 0)
      {
        NoPredIffZero(ns, info, n);
      }
    }
    hide Counted, InDegree, EdgesOf, Elements;
  }

  lemma BeforeRelease(ns: seq<Node>, succ: map<Node, seq<Node>>, info: map<Node, TopoInfo>, q: seq<Node>,
      release: seq<nat>, c: nat, ascends: bool)
    requires Running(ns, succ, NPred(info), q, release, c, ascends) && c < |q| && Lists(info) == succ
    ensures q[c] in info && q[c] in succ && info[q[c]].successors == succ[q[c]]
    ensures AllIn(succ[q[c]], info.Keys)
  {
    hide KahnOrder, TiesAscend, Sources, InDegree;
    var p := q[c];
    assert p in ns && p in Elements(ns) by { KahnOrderWithin(EdgesOf(succ), ns, q, release, c); }
    forall n | n in succ[p]
      ensures n in info
    {
      assert n in Lists(info);
    }
  }

  lemma KahnOrderWithin(e: set<(Node, Node)>, ns: seq<Node>, q: seq<Node>, release: seq<nat>, c: nat)
    requires KahnOrder(e, ns, q, release) && c < |q|
    ensures q[c] in ns && q[c] !in q[..c]
  {}

  lemma RunningStep(ns: seq<Node>, succ: map<Node, seq<Node>>, npred: map<Node, int>, after: map<Node, int>,
      q: seq<Node>, release: seq<nat>, c: nat, ascends: bool)
    requires Running(ns, succ, npred, q, release, c, ascends) && c < |q| && q[c] in succ
    requires after == LoweredBy(npred, succ[q[c]])
    ensures var f := Freed(succ[q[c]], npred);
      Running(ns, succ, after, q + f, release + Repeat(c, |f|), c + 1, ascends)
  {
    hide InDegree, KahnOrder, TiesAscend, Sources, Freed, EdgesOf, Distinct, Recorded, Counted, Ascending,
      StrictlyAscending, LoweredBy;
    var p := q[c];
    KahnOrderWithin(EdgesOf(succ), ns, q, release, c);
    var done := Elements(q[..c]);
    assert p !in done;
    CountedStep(ns, succ, npred, after, q, done, p);
    var f := Freed(succ[p], npred);
    ElementsSnoc(q[..c], p);
    assert (q + f)[..c + 1] == q[..c] + [p];
    FreedIn(succ[p], npred);
    OrderStep(ns, succ, q, release, c, f);
    if ascends {
      FreedAscends(succ[p], npred);
      SourcesFirst(EdgesOf(succ), ns, q, release);
      TiesStep(|Sources(EdgesOf(succ), ns)|, q, release, c, f);
    }
  }

  lemma FreedIn(s: seq<Node>, left: map<Node, int>)
    requires forall n :: n in s ==> n in left && multiset(s)[n] <= left[n]
    ensures forall n :: n in Freed(s, left) ==> n in s
  {
    FreedCorrect(s, left);
  }

  lemma SourcesFirst(e: set<(Node, Node)>, ns: seq<Node>, q: seq<Node>, release: seq<nat>)
    requires KahnOrder(e, ns, q, release)
    ensures |Sources(e, ns)| <= |q| && |release| == |q|
  {}

  lemma QueueFits(ns: seq<Node>, succ: map<Node, seq<Node>>, npred: map<Node, int>, q: seq<Node>, release: seq<nat>,
      c: nat, ascends: bool)
    requires Running(ns, succ, npred, q, release, c, ascends)
    ensures |q| <= |ns| && (|q| == |ns| ==> Elements(q) == Elements(ns))
  {
    hide InDegree, Counted, Sources, TiesAscend, ReleasedBy;
    DistinctFitsIn(q, Elements(ns));
    ElementsCard(ns);
    ElementsCard(q);
    if |q| == |ns| && Elements(q) != Elements(ns) {
      var n :| n in Elements(ns) && n !in Elements(q);
      DistinctFitsIn(q + [n], Elements(ns));
    }
  }

  lemma RunningOrder(ns: seq<Node>, succ: map<Node, seq<Node>>, npred: map<Node, int>, q: seq<Node>, release: seq<nat>,
      c: nat, ascends: bool)
    requires Running(ns, succ, npred, q, release, c, ascends)
    ensures KahnOrder(EdgesOf(succ), ns, q, release) && |release| == |q|
    ensures ascends ==> TiesAscend(|Sources(EdgesOf(succ), ns)|, q, release)
  {}

  lemma {:induction false} ElementsCard(s: seq<Node>)
    ensures |Elements(s)| <= |s|
    decreases |s|
  {
    if s != [] {
      ElementsCard(s[..|s| - 1]);
      assert s == s[..|s| - 1] + [s[|s| - 1]];
      ElementsSnoc(s[..|s| - 1], s[|s| - 1]);
    }
  }

  /** The queue has run dry: it holds every node exactly when there is no cycle. */
  lemma Finished(ns: seq<Node>, succ: map<Node, seq<Node>>, npred: map<Node, int>, q: seq<Node>, release: seq<nat>,
      ascends: bool)
    requires Running(ns, succ, npred, q, release, |q|, ascends)
    ensures |q| == |ns| <==> !HasCycle(EdgesOf(succ))
  {
    QueueFits(ns, succ, npred, q, release, |q|, ascends);
    hide InDegree, TiesAscend, Sources;
    var e := EdgesOf(succ);
    if |q| == |ns| {
      forall d | d in e
        ensures d.0 in q && d.1 in q
      {
        EdgesOfHas(succ, d.0, d.1);
        assert d.0 in Elements(ns) && d.1 in Elements(ns);
      }
      KahnOrderHasNoCycle(e, ns, q, release);
    } else {
      var rest := Elements(ns) - Elements(q);
      if rest == {} {
        forall n | n in ns
          ensures n in Elements(q)
        {
          assert n in Elements(ns) && n !in rest;
        }
        DistinctFitsIn(ns, Elements(q));
        ElementsCard(q);
        assert false;
      }
      assert q[..|q|] == q;
      forall n | n in rest
        ensures HasPredIn(e, rest, n)
      {
        assert n in ns && n !in q;
        InDegreeZero(ns, succ, Elements(q), n);
        var p :| p in ns && p !in Elements(q) && p in succ && n in succ[p];
        EdgesOfHas(succ, p, n);
        assert p in rest;
      }
      NoSourceMeansCycle(e, rest);
    }
  }

  ghost predicate AllIn(s: seq<Node>, v: set<Node>) {
    forall n :: n in s ==> n in v
  }

  lemma AllInAt(s: seq<Node>, v: set<Node>, j: nat)
    requires AllIn(s, v) && j < |s|
    ensures s[j] in v
  {}

  /** The counters once the edges to s have been taken away. */
  ghost function LoweredBy(npred: map<Node, int>, s: seq<Node>): (after: map<Node, int>)
    ensures after.Keys == npred.Keys && forall n :: n in npred ==> after[n] == npred[n] - multiset(s)[n]
  {
    map n | n in npred :: npred[n] - multiset(s)[n]
  }

  lemma NothingLowered(info: map<Node, TopoInfo>, s: seq<Node>)
    ensures LoweredBy(NPred(info), s[..0]) == NPred(info) && Freed(s[..0], NPred(info)) == []
  {}

  lemma FreedOne(info: map<Node, TopoInfo>, before: map<Node, int>, front: seq<Node>, s: Node)
    requires s in info && s in before && NPred(info) == LoweredBy(before, front + [s])
    ensures Freed(front + [s], before) == Freed(front, before) + if info[s].npred == 0 then [s] else []
  {
    assert (front + [s])[..|front|] == front;
    assert NPred(info)[s] == info[s].npred;
  }

  lemma LoweredOne(info: map<Node, TopoInfo>, before: map<Node, int>, front: seq<Node>, s: Node)
    requires s in info && NPred(info) == LoweredBy(before, front)
    ensures var after := info[s := info[s].(npred := info[s].npred - 1)];
      Lists(after) == Lists(info) && NPred(after) == LoweredBy(before, front + [s])
  {
    var after := info[s := info[s].(npred := info[s].npred - 1)];
    MultisetSnoc(front, s, front + [s]);
    assert NPred(after) == NPred(info)[s := NPred(info)[s] - 1];
    assert Lists(after) == Lists(info);
  }


  class TopoSorter {
    // The nodes in the order they were added.
    var added: seq<Node>
    var info: map<Node, TopoInfo>

    ghost predicate Valid()
      reads this
    {
      CountsUp(added, info, 0, 0)
    }

    /** The dependencies added: (p, n) when n has to follow p. */
    ghost function Edges(): set<(Node, Node)>
      reads this
    {
      EdgesOf(Lists(info))
    }

    constructor ()
      ensures Valid() && added == [] && info == map[] && Edges() == {}
    {
      added, info := [], map[];
    }

    method Get(n: Node, ghost m: Node, ghost k: nat)
      requires CountsUp(added, info, m, k) && (m in info || k == 0)
      modifies this
      ensures CountsUp(added, info, m, k) && Edges() == old(Edges()) && n in info
      ensures added == if n in old(info) then old(added) else old(added) + [n]
      ensures info == if n in old(info) then old(info) else old(info)[n := TopoInfo(0, [])]
    {
      if n !in info {
        NewNode(added, info, n, m, k);
        info := info[n := TopoInfo(0, [])];
        added := added + [n];
      }
    }

    method AddEdge(p: Node, n: Node, ghost k: nat)
      requires CountsUp(added, info, n, k + 1) && n in info
      modifies this
      ensures CountsUp(added, info, n, k) && n in info
      ensures Edges() == old(Edges()) + {(p, n)}
      ensures old(added) <= added && Elements(added) == old(Elements(added)) + {p}
      ensures old(ListsUpTo(info, n)) ==> ListsUpTo(info, n)
    {
      hide InDegree, Recorded, Lists, EdgesOf, ListsUpTo, Elements;
      GetStep(added, info, p, n);
      Get(p, n, k + 1);
      NewEdge(added, info, p, n, k);
      if old(ListsUpTo(info, n)) {
        ListsUpToGrow(info, p, n);
      }
      info := info[p := info[p].(successors := info[p].successors + [n])];
    }

    /** Record that n has to follow every one of preds. */
    method Add(n: Node, preds: seq<Node>)
      requires Valid()
      modifies this
      ensures Valid() && Edges() == old(Edges()) + Into(preds, n)
      ensures old(added) <= added && Elements(added) == old(Elements(added)) + {n} + Elements(preds)
      ensures old(ListsUpTo(info, n)) ==> ListsUpTo(info, n)
    {
      hide InDegree, Recorded, Lists, EdgesOf, ListsUpTo, Elements, Into;
      assert CountsUp(added, info, n, 0);
      hide CountsUp;
      GetStep(added, info, n, n);
      Get(n, n, 0);
      Raised(added, info, n, |preds|);
      if old(ListsUpTo(info, n)) {
        ListsUpToGrow(info, n, n);
      }
      info := info[n := info[n].(npred := info[n].npred + |preds|)];
      var i := 0;
      assert Elements(preds[..0]) == {} by { NoElements(preds[..0]); }
      IntoSnoc(preds[..0], n, n);
      while i < |preds|
        invariant 0 <= i <= |preds|
        invariant CountsUp(added, info, n, |preds| - i) && n in info
        invariant Edges() == old(Edges()) + Into(preds[..i], n)
        invariant old(added) <= added && Elements(added) == old(Elements(added)) + {n} + Elements(preds[..i])
        invariant old(ListsUpTo(info, n)) ==> ListsUpTo(info, n)
      {
        var p := preds[i];
        AddEdge(p, n, |preds| - i - 1);
        assert preds[..i + 1] == preds[..i] + [p];
        ElementsSnoc(preds[..i], p);
        IntoSnoc(preds[..i], p, n);
        i := i + 1;
      }
      assert preds[..|preds|] == preds;
    }

    /** Lower the counter of s, and queue s when that was its last edge. */
    method Lower(s: Node, ready: seq<Node>, ghost r: seq<Node>, ghost before: map<Node, int>, ghost front: seq<Node>)
        returns (next: seq<Node>)
      requires s in info && s in before && NPred(info) == LoweredBy(before, front)
      requires ready == r + Freed(front, before)
      modifies this`info
      ensures Lists(info) == old(Lists(info)) && info.Keys == old(info.Keys)
      ensures NPred(info) == LoweredBy(before, front + [s])
      ensures next == r + Freed(front + [s], before)
    {
      hide *;
      LoweredOne(info, before, front, s);
      info := info[s := info[s].(npred := info[s].npred - 1)];
      FreedOne(info, before, front, s);
      next := ready;
      if info[s].npred == 0 {
        next := next + [s];
      }
    }

    /** Lower the counters of p's successors and queue those that reach zero. */
    method Release(p: Node, ready: seq<Node>) returns (next: seq<Node>)
      requires p in info && AllIn(info[p].successors, info.Keys)
      modifies this`info
      ensures Lists(info) == old(Lists(info)) && NPred(info) == LoweredBy(old(NPred(info)), old(info[p].successors))
      ensures next == ready + Freed(old(info[p].successors), old(NPred(info)))
    {
      next := ready;
      var successors := info[p].successors;
      ghost var before, lists := NPred(info), Lists(info);
      NothingLowered(info, successors);
      assert AllIn(successors, before.Keys);
      hide *;
      var j := 0;
      while j < |successors|
        invariant 0 <= j <= |successors|
        invariant Lists(info) == lists && NPred(info) == LoweredBy(before, successors[..j])
        invariant next == ready + Freed(successors[..j], before)
        invariant AllIn(successors, before.Keys) && info.Keys == before.Keys
      {
        AllInAt(successors, before.Keys, j);
        assert successors[..j + 1] == successors[..j] + [successors[j]];
        next := Lower(successors[j], next, ready, before, successors[..j]);
        j := j + 1;
      }
      assert successors[..j] == successors;
    }

    /** The nodes with nothing to wait for, in the order they were added. */
    method FirstGroup() returns (ready: seq<Node>)
      requires Valid()
      ensures ready == Sources(Edges(), added)
    {
      ready := [];
      assert CountsUp(added, info, 0, 0) && Sources(Edges(), added[..0]) == [];
      hide CountsUp, Sources, EdgesOf;
      var i := 0;
      while i < |added|
        invariant 0 <= i <= |added|
        invariant ready == Sources(Edges(), added[..i])
      {
        FirstReady(added, info, i);
        var n := added[i];
        if info[n].npred == 0 {
          ready := ready + [n];
        }
        i := i + 1;
      }
      assert added[..i] == added;
    }

    /** Handle the nodes of one group, all at the end of out, and queue those
        that have nothing left to wait for. */
    method HandleGroup(group: seq<Node>, ghost out: seq<Node>, ghost release: seq<nat>, ghost ascends: bool)
        returns (ready: seq<Node>, ghost release': seq<nat>)
      requires |group| <= |out| && out[|out| - |group|..] == group
      requires Running(added, Lists(info), NPred(info), out, release, |out| - |group|, ascends)
      modifies this`info
      ensures Lists(info) == old(Lists(info))
      ensures Running(added, Lists(info), NPred(info), out + ready, release', |out|, ascends)
    {
      hide *;
      ready, release' := [], release;
      ghost var succ, c := Lists(info), |out| - |group|;
      assert out + [] == out;
      var j := 0;
      while j < |group|
        invariant 0 <= j <= |group|
        invariant Running(added, succ, NPred(info), out + ready, release', c + j, ascends)
        invariant Lists(info) == succ
      {
        var p := group[j];
        ghost var q, before := out + ready, NPred(info);
        assert q[c + j] == out[c..][j];
        BeforeRelease(added, succ, info, q, release', c + j, ascends);
        ready := Release(p, ready);
        RunningStep(added, succ, before, NPred(info), q, release', c + j, ascends);
        release' := release' + Repeat(c + j, |Freed(succ[p], before)|);
        assert out + ready == q + Freed(succ[p], before);
        j := j + 1;
      }
    }

    /** The nodes in dependency order, or an error when they are in a cycle. */
    method Order() returns (r: Result<seq<Node>, string>, ghost release: seq<nat>)
      requires Valid()
      modifies this`info
      ensures r.Err? <==> HasCycle(old(Edges()))
      ensures r.Ok? ==> KahnOrder(old(Edges()), added, r.value, release) && Elements(r.value) == Elements(added)
      ensures r.Ok? && (exists n :: old(ListsUpTo(info, n))) ==>
          TiesAscend(|Sources(old(Edges()), added)|, r.value, release)
    {
      var ready := FirstGroup();
      release := Repeat(0, |ready|);
      ghost var succ := Lists(info);
      ghost var ascends := exists n :: ListsUpTo(info, n);
      Start(added, info, ready, release, ascends);
      assert Edges() == EdgesOf(succ);
      hide *;
      var out: seq<Node> := [];
      assert out + ready == ready;
      while ready != []
        invariant Running(added, succ, NPred(info), out + ready, release, |out|, ascends)
        invariant Lists(info) == succ
        decreases |added| - |out|
      {
        var group := ready;
        out := out + group;
        QueueFits(added, succ, NPred(info), out, release, |out| - |group|, ascends);
        ready, release := HandleGroup(group, out, release, ascends);
      }
      assert out + ready == out;
      Finished(added, succ, NPred(info), out, release, ascends);
      if |out| != |added| {
        return Err("nodes are in a cycle"), release;
      }
      QueueFits(added, succ, NPred(info), out, release, |out|, ascends);
      RunningOrder(added, succ, NPred(info), out, release, |out|, ascends);
      return Ok(out), release;
    }
  }

  lemma NoElements(s: seq<Node>)
    requires s == []
    ensures Elements(s) == {}
  {}

  lemma GetStep(ns: seq<Node>, info: map<Node, TopoInfo>, p: Node, n: Node)
    requires exists m, k :: CountsUp(ns, info, m, k)
    ensures p in info <==> p in Elements(ns)
    ensures Elements(ns + [p]) == Elements(ns) + {p}
    ensures ListsUpTo(info, n) && p !in info ==> ListsUpTo(info[p := TopoInfo(0, [])], n)
  {
    assert Lists(info).Keys == Elements(ns);
    assert p in info <==> p in Lists(info);
  }
}
