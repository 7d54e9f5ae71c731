/** Migration keys and their order: by app label, then by migration name. */
module Keys {
  import opened Digraph

  datatype Key = Key(app: string, name: string)

  /** The name that stands for an app's first migration, and for its latest. */
  const FIRST := "__first__"
  const LATEST := "__latest__"

  /** Lexicographic order on strings. */
  predicate LexLess(a: string, b: string) {
    if b == "" then false
    else if a == "" then true
    else a[0] < b[0] || (a[0] == b[0] && LexLess(a[1..], b[1..]))
  }

  predicate Less(a: Key, b: Key) {
    LexLess(a.app, b.app) || (a.app == b.app && LexLess(a.name, b.name))
  }

  lemma {:induction false} LexTrichotomy(a: string, b: string)
    ensures LexLess(a, b) || a == b || LexLess(b, a)
    ensures !(LexLess(a, b) && LexLess(b, a))
    ensures !LexLess(a, a)
  {
    if a != "" && b != "" {
      LexTrichotomy(a[1..], b[1..]);
      assert a == [a[0]] + a[1..] && b == [b[0]] + b[1..];
    }
    if a != "" {
      LexTrichotomy(a[1..], a[1..]);
    }
  }

  lemma {:induction false} LexTransitive(a: string, b: string, c: string)
    requires LexLess(a, b) && LexLess(b, c)
    ensures LexLess(a, c)
  {
    if a != "" && a[0] == b[0] && b[0] == c[0] {
      LexTransitive(a[1..], b[1..], c[1..]);
    }
  }

  lemma LessTotal(a: Key, b: Key)
    ensures Less(a, b) || a == b || Less(b, a)
    ensures !(Less(a, b) && Less(b, a))
  {
    LexTrichotomy(a.app, b.app);
    LexTrichotomy(a.name, b.name);
    LexTrichotomy(a.app, a.app);
  }

  lemma LessTransitive(a: Key, b: Key, c: Key)
    requires Less(a, b) && Less(b, c)
    ensures Less(a, c)
  {
    if LexLess(a.app, b.app) && LexLess(b.app, c.app) {
      LexTransitive(a.app, b.app, c.app);
    }
    if LexLess(a.name, b.name) && LexLess(b.name, c.name) {
      LexTransitive(a.name, b.name, c.name);
    }
  }

  ghost predicate Ascending(s: seq<Key>) {
    forall i, j :: 0 <= i < j < |s| ==> Less(s[i], s[j])
  }

  ghost predicate Lists(s: seq<Key>, ks: set<Key>) {
    forall k :: k in s <==> k in ks
  }

  lemma SomeElement(s: seq<Key>)
    ensures s == [] || exists k :: k in s
  {
    if s != [] { assert s[0] in s; }
  }

  /** A set of keys has one sorted listing only, so sorting it makes every
      traversal that starts from it deterministic. */
  lemma {:induction false} SortedListingUnique(s: seq<Key>, t: seq<Key>, ks: set<Key>)
    requires Ascending(s) && Lists(s, ks) && Ascending(t) && Lists(t, ks)
    ensures s == t
    decreases |s|
  {
    if s == [] {
      SomeElement(t);
    } else {
      assert s[0] in ks;
      assert t[0] in s && s[0] in t;
      LessTotal(s[0], t[0]);
      AscendingRest(s, ks);
      AscendingRest(t, ks);
      SortedListingUnique(s[1..], t[1..], ks - {s[0]});
      assert s == [s[0]] + s[1..] && t == [t[0]] + t[1..];
    }
  }

  lemma AscendingRest(s: seq<Key>, ks: set<Key>)
    requires Ascending(s) && Lists(s, ks) && s != []
    ensures Ascending(s[1..]) && Lists(s[1..], ks - {s[0]})
  {
    assert s[0] in ks;
    forall k
      ensures k in s[1..] <==> k in ks - {s[0]}
    {
      assert s == [s[0]] + s[1..];
      if k in s[1..] {
        var i :| 0 <= i < |s[1..]| && s[1..][i] == k;
        LessTotal(s[0], s[0]);
        assert Less(s[0], s[i + 1]);
      }
    }
  }

  function Insert(k: Key, s: seq<Key>): (r: seq<Key>)
    ensures forall x :: x in r <==> x == k || x in s
  {
    if s == [] || Less(k, s[0]) then [k] + s
    else [s[0]] + Insert(k, s[1..])
  }

  lemma {:induction false} InsertAscending(k: Key, s: seq<Key>)
    requires Ascending(s) && k !in s
    ensures Ascending(Insert(k, s))
  {
    var r := Insert(k, s);
    if s != [] {
      if Less(k, s[0]) {
        forall j | 0 <= j < |s|
          ensures Less(k, s[j])
        {
          if j > 0 { LessTransitive(k, s[0], s[j]); }
        }
      } else {
        InsertAscending(k, s[1..]);
        LessTotal(k, s[0]);
        forall j | 1 <= j < |r|
          ensures Less(r[0], r[j])
        {
          assert r[j] in Insert(k, s[1..]);
          assert r[j] == k || r[j] in s[1..];
        }
        forall i, j | 1 <= i < j < |r|
          ensures Less(r[i], r[j])
        {
          assert r[i] == Insert(k, s[1..])[i - 1] && r[j] == Insert(k, s[1..])[j - 1];
        }
      }
    }
  }

  lemma AscendingDistinct(s: seq<Key>)
    requires Ascending(s)
    ensures Distinct(s)
  {
    forall i, j | 0 <= i < j < |s|
      ensures s[i] != s[j]
    {
      LessTotal(s[i], s[j]);
    }
  }

  /** The sorted listing of a set of keys. */
  ghost function Sorted(ks: set<Key>): seq<Key> {
    if ks == {} then []
    else var k :| k in ks; Insert(k, Sorted(ks - {k}))
  }

  lemma {:induction false} SortedAscends(ks: set<Key>)
    ensures Ascending(Sorted(ks)) && Lists(Sorted(ks), ks)
  {
    if ks != {} {
      var k :| k in ks && Sorted(ks) == Insert(k, Sorted(ks - {k}));
      SortedAscends(ks - {k});
      InsertAscending(k, Sorted(ks - {k}));
    }
  }

  lemma SortedLists(ks: set<Key>)
    ensures Lists(Sorted(ks), ks) && Distinct(Sorted(ks))
  {
    SortedAscends(ks);
    AscendingDistinct(Sorted(ks));
  }

  lemma SortedBefore(ks: set<Key>, i: nat, j: nat)
    requires i < j < |Sorted(ks)|
    ensures Less(Sorted(ks)[i], Sorted(ks)[j])
  {
    SortedAscends(ks);
  }

  lemma SortedIs(ks: set<Key>, s: seq<Key>)
    requires Ascending(s) && Lists(s, ks)
    ensures s == Sorted(ks)
  {
    SortedAscends(ks);
    SortedListingUnique(s, Sorted(ks), ks);
  }

  /** Sorts a set of keys, whatever order they are taken out of it. */
  method SortKeys(ks: set<Key>) returns (s: seq<Key>)
    ensures s == Sorted(ks)
  {
    s := [];
    var todo := ks;
    while todo != {}
      invariant todo <= ks && Ascending(s) && Lists(s, ks - todo)
      decreases todo
    {
      var k :| k in todo;
      InsertAscending(k, s);
      s, todo := Insert(k, s), todo - {k};
    }
    SortedIs(ks, s);
  }

  /** The same, for callers that only go through all the keys. */
  method ListKeys(ks: set<Key>) returns (s: seq<Key>)
    ensures Lists(s, ks) && Distinct(s)
  {
    s := SortKeys(ks);
    SortedLists(ks);
  }
}
