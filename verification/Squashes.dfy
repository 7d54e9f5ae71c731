/** Squashed migrations: what they replace, directly and through other squashes. */
module Squashes {
  import opened Digraph
  import opened Keys
  import opened Graph

  type Replacements = map<Key, Migration>

  /** From each squash to the migrations it lists. */
  ghost function SquashEdges(r: Replacements): set<(Key, Key)> {
    set k, x | k in r && x in r[k].squashes :: (k, x)
  }

  lemma SquashEdge(r: Replacements, k: Key, x: Key)
    ensures (k, x) in SquashEdges(r) <==> k in r && x in r[k].squashes
  {}

  /** x is no squash itself and is replaced by k, possibly through other squashes. */
  ghost predicate Resolves(r: Replacements, k: Key, x: Key) {
    x !in r && Reaches(SquashEdges(r), k, x)
  }

  /** x stands for itself, or for what the squash x resolves to. */
  ghost predicate StandsFor(r: Replacements, x: Key, y: Key) {
    if x in r then Resolves(r, x, y) else x == y
  }

  lemma ResolvesThrough(r: Replacements, k: Key, y: Key)
    requires k in r
    ensures Resolves(r, k, y) <==> exists x :: x in r[k].squashes && StandsFor(r, x, y)
  {
    var e := SquashEdges(r);
    if Resolves(r, k, y) {
      var x := ReachesFirstStep(e, k, y);
      SquashEdge(r, k, x);
      if x !in r && x != y {
        var z := ReachesFirstStep(e, x, y);
        SquashEdge(r, x, z);
      }
    }
    forall x | x in r[k].squashes && StandsFor(r, x, y)
      ensures Resolves(r, k, y)
    {
      SquashEdge(r, k, x);
      ReachesEdge(e, k, x);
      ReachesSelf(e, x);
      ReachesTrans(e, k, x, y);
    }
  }

  /** The squashes in rank list only squashes ranked below them. */
  ghost predicate SubRanked(r: Replacements, rank: map<Key, nat>, count: nat) {
    && (forall k :: k in rank ==> k in r && rank[k] < count)
    && (forall k, x :: k in rank && x in r[k].squashes && x in r ==> x in rank && rank[x] < rank[k])
  }

  lemma SubRankedMore(r: Replacements, rank: map<Key, nat>, count: nat, k: Key)
    requires SubRanked(r, rank, count) && k in r && k !in rank
    requires forall x :: x in r[k].squashes && x in r ==> x in rank
    ensures SubRanked(r, rank[k := count], count + 1)
  {}

  /** When every squash is ranked, no squash replaces itself through others. */
  lemma AllRankedAcyclic(r: Replacements, rank: map<Key, nat>, count: nat)
    requires SubRanked(r, rank, count) && rank.Keys == r.Keys
    ensures !HasCycle(SquashEdges(r))
  {
    var e := SquashEdges(r);
    forall c: seq<Key>
      ensures !IsCycle(e, c)
    {
      if IsCycle(e, c) {
        CycleInSquashes(r, c);
        var down := map x | x in Elements(c) :: if x in rank then count - rank[x] else 0;
        var f := set d | d in e && d.0 in c && d.1 in c;
        forall d | d in f
          ensures d.0 in down && d.1 in down && down[d.0] < down[d.1]
        {
          assert d == (d.0, d.1);
          SquashEdge(r, d.0, d.1);
        }
        assert IsCycle(f, c);
        RankedIsNoCycle(f, down, c);
      }
    }
  }

  lemma CycleInSquashes(r: Replacements, c: seq<Key>)
    requires IsCycle(SquashEdges(r), c)
    ensures forall x :: x in c ==> x in r
  {
    forall i | 0 <= i < |c|
      ensures c[i] in r
    {
      var next := if i + 1 < |c| then c[i + 1] else c[0];
      SquashEdge(r, c[i], next);
    }
  }

  // --- What counts as applied ---

  /** Every migration the squash k replaces counts as applied, following squashes. */
  predicate AllReplacedApplied(r: Replacements, k: Key, applied: set<Key>, ghost rank: map<Key, nat>, ghost count: nat)
    requires SubRanked(r, rank, count) && rank.Keys == r.Keys
    decreases if k in rank then rank[k] + 1 else 0
  {
    k in r && forall x :: x in r[k].squashes ==> x in applied || AllReplacedApplied(r, x, applied, rank, count)
  }

  /** done is closed: a squash whose listed migrations are all in it is in it too. */
  ghost predicate ReplacementClosed(r: Replacements, done: set<Key>) {
    forall k :: k in r && (forall x :: x in r[k].squashes ==> x in done) ==> k in done
  }

  ghost function MarkedBy(r: Replacements, applied: set<Key>, rank: map<Key, nat>, count: nat): set<Key>
    requires SubRanked(r, rank, count) && rank.Keys == r.Keys
  {
    applied + set k | k in r && AllReplacedApplied(r, k, applied, rank, count)
  }

  /** One pass that marks every squash whose replaced migrations count as applied
      reaches the least closed set above applied: a second pass adds nothing. */
  lemma OnePassIsLeastFixedPoint(r: Replacements, applied: set<Key>, rank: map<Key, nat>, count: nat)
    requires SubRanked(r, rank, count) && rank.Keys == r.Keys
    ensures ReplacementClosed(r, MarkedBy(r, applied, rank, count))
    ensures forall done :: applied <= done && ReplacementClosed(r, done) ==> MarkedBy(r, applied, rank, count) <= done
    ensures MarkedBy(r, MarkedBy(r, applied, rank, count), rank, count) == MarkedBy(r, applied, rank, count)
  {
    var m := MarkedBy(r, applied, rank, count);
    forall done | applied <= done && ReplacementClosed(r, done)
      ensures m <= done
    {
      forall k | k in r && AllReplacedApplied(r, k, applied, rank, count)
        ensures k in done
      {
        MarkedIsForced(r, k, applied, done, rank, count);
      }
    }
    forall k | k in r && AllReplacedApplied(r, k, m, rank, count)
      ensures k in m
    {
      MarkedIsForced(r, k, m, m, rank, count);
    }
  }

  lemma {:induction false} MarkedIsForced(r: Replacements, k: Key, applied: set<Key>, done: set<Key>, rank: map<Key,
      nat>, count: nat)
    requires SubRanked(r, rank, count) && rank.Keys == r.Keys
    requires applied <= done && ReplacementClosed(r, done) && AllReplacedApplied(r, k, applied, rank, count)
    ensures k in done
    decreases if k in rank then rank[k] + 1 else 0
  {
    forall x | x in r[k].squashes
      ensures x in done
    {
      if x !in applied {
        MarkedIsForced(r, x, applied, done, rank, count);
      }
    }
  }

  /** Squashes that do not replace themselves can be ranked, those they list first. */
  lemma AcyclicSubRanked(r: Replacements) returns (rank: map<Key, nat>, count: nat)
    requires !HasCycle(SquashEdges(r))
    ensures SubRanked(r, rank, count) && rank.Keys == r.Keys
  {
    var e := set d | d in SquashEdges(r) && d.1 in r;
    forall c: seq<Key>
      ensures !IsCycle(e, c)
    {
      if IsCycle(e, c) {
        assert IsCycle(SquashEdges(r), c);
      }
    }
    assert Within(e, r.Keys);
    var up := AcyclicCanBeRanked(e, r.Keys);
    rank := FlipRank(e, r.Keys, up);
    count := Above(rank);
    forall k, x | k in rank && x in r[k].squashes && x in r
      ensures x in rank && rank[x] < rank[k]
    {
      assert (k, x) in e;
      FlipHas(e, x, k);
      var d := (x, k);
      assert d in Flip(e);
    }
  }

  lemma {:induction false} Above(rank: map<Key, nat>) returns (count: nat)
    ensures forall k :: k in rank ==> rank[k] < count
    decreases rank.Keys
  {
    if rank.Keys == {} {
      count := 0;
    } else {
      var k :| k in rank;
      var rest := rank - {k};
      count := Above(rest);
      forall j | j in rank && j != k
        ensures rank[j] < count
      {
        assert j in rest;
      }
      if count <= rank[k] {
        count := rank[k] + 1;
      }
    }
  }
}
