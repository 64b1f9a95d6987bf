/** Filtering, counting and stable sorting of lists, and what reordering does to them. */
module Orderings {
  import opened Options

  // ---- Filtering ------------------------------------------------------------------------------

  function FilterMap<A, B>(f: A -> Option<B>, xs: seq<A>): seq<B> {
    if |xs| == 0 then []
    else
      var last := f(xs[|xs| - 1]);
      FilterMap(f, xs[..|xs| - 1]) + if last.Some? then [last.value] else []
  }

  lemma FilterMapStep<A, B>(f: A -> Option<B>, xs: seq<A>, x: A)
    ensures FilterMap(f, xs + [x]) == FilterMap(f, xs) + if f(x).Some? then [f(x).value] else []
  {
    assert (xs + [x])[..|xs|] == xs;
  }

  lemma {:induction false} FilterMapFirst<A, B>(f: A -> Option<B>, x: A, xs: seq<A>)
    ensures FilterMap(f, [x] + xs) == (if f(x).Some? then [f(x).value] else []) + FilterMap(f, xs)
  {
    if |xs| > 0 {
      var n := |xs| - 1;
      FilterMapFirst(f, x, xs[..n]);
      assert ([x] + xs)[..n + 1] == [x] + xs[..n];
    }
  }

  lemma {:induction false} FilterMapMembers<A, B>(f: A -> Option<B>, xs: seq<A>, y: B)
    ensures y in FilterMap(f, xs) <==> exists i :: 0 <= i < |xs| && f(xs[i]) == Some(y)
  {
    if |xs| > 0 { FilterMapMembers(f, xs[..|xs| - 1], y); }
  }

  /** The places whose result is `y`. */
  ghost function Giving<A, B>(f: A -> Option<B>, xs: seq<A>, y: B): set<nat> { set i: nat | i < |xs| && f(xs[i]) == Some(y) }

  /** The places that have a result. */
  ghost function Places<A, B>(f: A -> Option<B>, xs: seq<A>): set<nat> { set i: nat | i < |xs| && f(xs[i]).Some? }

  lemma GivingStep<A, B>(f: A -> Option<B>, xs: seq<A>, y: B)
    requires |xs| > 0
    ensures var n := |xs| - 1;
            && Giving(f, xs, y) == Giving(f, xs[..n], y) + (if f(xs[n]) == Some(y) then {n as nat} else {})
            && n !in Giving(f, xs[..n], y)
  {
  }

  lemma PlacesStep<A, B>(f: A -> Option<B>, xs: seq<A>)
    requires |xs| > 0
    ensures var n := |xs| - 1;
            Places(f, xs) == Places(f, xs[..n]) + (if f(xs[n]).Some? then {n as nat} else {}) && n !in Places(f, xs[..n])
  {
  }

  /** How many results there are, and how often each occurs. */
  lemma {:induction false} FilterMapCount<A, B>(f: A -> Option<B>, xs: seq<A>, y: B)
    ensures multiset(FilterMap(f, xs))[y] == |Giving(f, xs, y)| && |FilterMap(f, xs)| == |Places(f, xs)|
  {
    if |xs| > 0 {
      FilterMapCount(f, xs[..|xs| - 1], y);
      GivingStep(f, xs, y);
      PlacesStep(f, xs);
      hide Giving, Places;
    } else {
      assert Giving(f, xs, y) == {} && Places(f, xs) == {};
    }
  }

  function RemoveAt<T>(xs: seq<T>, i: nat): seq<T>
    requires i < |xs|
  {
    xs[..i] + xs[i + 1..]
  }

  lemma RemovedHolds<T>(xs: seq<T>, i: nat)
    requires i < |xs|
    ensures multiset(xs) == multiset(RemoveAt(xs, i)) + multiset{xs[i]}
  {
    assert xs == xs[..i] + [xs[i]] + xs[i + 1..];
  }

  lemma {:induction false} FilterMapRemoved<A, B>(f: A -> Option<B>, xs: seq<A>, i: nat)
    requires i < |xs|
    ensures multiset(FilterMap(f, xs))
            == multiset(FilterMap(f, RemoveAt(xs, i))) + if f(xs[i]).Some? then multiset{f(xs[i]).value} else multiset{}
  {
    var n := |xs| - 1;
    if i < n {
      FilterMapRemoved(f, xs[..n], i);
      RemovedShorter(xs, i);
      FilterMapStep(f, RemoveAt(xs[..n], i), xs[n]);
    } else {
      assert RemoveAt(xs, i) == xs[..n];
    }
  }

  lemma RemovedShorter<T>(xs: seq<T>, i: nat)
    requires i < |xs| - 1
    ensures RemoveAt(xs, i) == RemoveAt(xs[..|xs| - 1], i) + [xs[|xs| - 1]]
  {
  }

  lemma Cancel<T>(a: multiset<T>, b: multiset<T>, x: T)
    requires a + multiset{x} == b + multiset{x}
    ensures a == b
  {
    assert a == (a + multiset{x}) - multiset{x} && b == (b + multiset{x}) - multiset{x};
  }

  lemma HeadHolds<T>(a: seq<T>)
    requires |a| > 0
    ensures multiset(a) == multiset(a[1..]) + multiset{a[0]}
  {
    assert a == [a[0]] + a[1..];
  }

  lemma IndexOf<T>(xs: seq<T>, x: T) returns (i: nat)
    requires x in xs
    ensures i < |xs| && xs[i] == x
  {
    i :| 0 <= i < |xs| && xs[i] == x;
  }

  /** Reordering the input reorders the output. */
  lemma {:induction false} FilterMapReordered<A, B>(f: A -> Option<B>, xs: seq<A>, ys: seq<A>)
    requires multiset(xs) == multiset(ys)
    ensures multiset(FilterMap(f, xs)) == multiset(FilterMap(f, ys))
    decreases |xs|
  {
    if |xs| == 0 {
      assert |ys| == |multiset(ys)| == |multiset(xs)| == 0;
    } else {
      var n := |xs| - 1;
      assert xs[n] in multiset(ys);
      var j := IndexOf(ys, xs[n]);
      RemovedHolds(xs, n);
      RemovedHolds(ys, j);
      assert RemoveAt(xs, n) == xs[..n];
      Cancel(multiset(xs[..n]), multiset(RemoveAt(ys, j)), xs[n]);
      FilterMapReordered(f, xs[..n], RemoveAt(ys, j));
      FilterMapRemoved(f, ys, j);
      FilterMapRemoved(f, xs, n);
    }
  }

  // ---- Sorting ----------------------------------------------------------------------------------

  ghost predicate SortedBy<T(!new)>(le: (T, T) -> bool, s: seq<T>) {
    forall i, j :: 0 <= i < j < |s| ==> le(s[i], s[j])
  }

  ghost predicate Preorder<T(!new)>(le: (T, T) -> bool) {
    && (forall x, y :: le(x, y) || le(y, x))
    && (forall x, y, z :: le(x, y) && le(y, z) ==> le(x, z))
  }

  function Insert<T>(le: (T, T) -> bool, s: seq<T>, x: T): seq<T> {
    if |s| == 0 || le(s[|s| - 1], x) then s + [x]
    else Insert(le, s[..|s| - 1], x) + [s[|s| - 1]]
  }

  /** A stable sort: equal elements keep their order. */
  function SortBy<T>(le: (T, T) -> bool, xs: seq<T>): seq<T> {
    if |xs| == 0 then [] else Insert(le, SortBy(le, xs[..|xs| - 1]), xs[|xs| - 1])
  }

  lemma {:induction false} InsertHolds<T>(le: (T, T) -> bool, s: seq<T>, x: T)
    ensures multiset(Insert(le, s, x)) == multiset(s) + multiset{x}
  {
    if |s| > 0 && !le(s[|s| - 1], x) {
      var n := |s| - 1;
      InsertHolds(le, s[..n], x);
      assert s == s[..n] + [s[n]];
    }
  }

  lemma {:induction false} InsertSorts<T(!new)>(le: (T, T) -> bool, s: seq<T>, x: T)
    requires Preorder(le) && SortedBy(le, s)
    ensures SortedBy(le, Insert(le, s, x))
  {
    if |s| == 0 {
    } else if le(s[|s| - 1], x) {
      forall i | 0 <= i < |s| ensures le(s[i], x) { if i < |s| - 1 { assert le(s[i], s[|s| - 1]); } }
    } else {
      var n := |s| - 1;
      var r := Insert(le, s[..n], x);
      InsertSorts(le, s[..n], x);
      InsertHolds(le, s[..n], x);
      assert s[..n] + [s[n]] == s;
      AppendSorted(le, s[..n], s[n], x, r);
    }
  }

  lemma AppendSorted<T(!new)>(le: (T, T) -> bool, s: seq<T>, top: T, x: T, r: seq<T>)
    requires SortedBy(le, s + [top]) && le(x, top) && SortedBy(le, r) && multiset(r) == multiset(s) + multiset{x}
    ensures SortedBy(le, r + [top])
  {
    forall i | 0 <= i < |r| ensures le(r[i], top) {
      assert r[i] in multiset(r);
      if r[i] != x {
        assert r[i] in multiset(s);
        var k := IndexOf(s, r[i]);
        assert le((s + [top])[k], (s + [top])[|s|]);
      }
    }
  }

  lemma {:induction false} SortBySorts<T(!new)>(le: (T, T) -> bool, xs: seq<T>)
    requires Preorder(le)
    ensures SortedBy(le, SortBy(le, xs)) && multiset(SortBy(le, xs)) == multiset(xs)
  {
    hide Preorder, SortedBy;
    if |xs| == 0 {
      assert SortedBy(le, SortBy(le, xs)) by { SortedEmpty(le); }
    } else {
      var n := |xs| - 1;
      SortBySorts(le, xs[..n]);
      InsertSorts(le, SortBy(le, xs[..n]), xs[n]);
      InsertHolds(le, SortBy(le, xs[..n]), xs[n]);
      assert xs == xs[..n] + [xs[n]];
    }
  }

  lemma SortedEmpty<T(!new)>(le: (T, T) -> bool)
    ensures SortedBy(le, [])
  {
  }

  /** Two sorted lists with the same elements are the same list, when only equal elements are
      ordered both ways. */
  lemma {:induction false} SortedUnique<T(!new)>(le: (T, T) -> bool, a: seq<T>, b: seq<T>)
    requires SortedBy(le, a) && SortedBy(le, b) && multiset(a) == multiset(b)
    requires forall x :: x in a ==> le(x, x)
    requires forall x, y :: x in a && y in a && le(x, y) && le(y, x) ==> x == y
    ensures a == b
    decreases |a|
  {
    assert |a| == |multiset(a)| == |multiset(b)| == |b|;
    if |a| > 0 {
      assert a[0] in multiset(b) && b[0] in multiset(a);
      var i := IndexOf(a, b[0]);
      var j := IndexOf(b, a[0]);
      assert le(a[0], b[0]) && le(b[0], a[0]) && a[0] == b[0];
      HeadHolds(a);
      HeadHolds(b);
      Cancel(multiset(a[1..]), multiset(b[1..]), a[0]);
      assert a == [a[0]] + a[1..] && b == [b[0]] + b[1..];
      SortedUnique(le, a[1..], b[1..]);
    }
  }

  // ---- Lists without repetition -----------------------------------------------------------------

  ghost predicate Apart<T(!new)>(a: seq<T>) { forall i, j :: 0 <= i < j < |a| ==> a[i] != a[j] }

  lemma RemovedMembers<T(!new)>(b: seq<T>, j: nat, x: T)
    requires Apart(b) && j < |b|
    ensures Apart(RemoveAt(b, j))
    ensures x in RemoveAt(b, j) <==> x in b && x != b[j]
  {
    var c := RemoveAt(b, j);
    if x in c {
      var k := IndexOf(c, x);
      assert b[if k < j then k else k + 1] == x;
    }
    if x in b && x != b[j] {
      var k := IndexOf(b, x);
      assert c[if k < j then k else k - 1] == x;
    }
  }

  lemma HasMember<T(!new)>(b: seq<T>)
    requires |b| > 0
    ensures exists x :: x in b
  {
    assert b[0] in b;
  }

  /** Lists without repetition that have the same members are reorderings of each other. */
  lemma {:induction false} SameMembers<T(!new)>(a: seq<T>, b: seq<T>)
    requires Apart(a) && Apart(b) && forall x :: x in a <==> x in b
    ensures multiset(a) == multiset(b)
    decreases |a|
  {
    hide Apart;
    if |a| == 0 {
      if |b| > 0 {
        HasMember(b);
        assert false;
      }
    } else {
      var n := |a| - 1;
      assert a[n] in a;
      var j := IndexOf(b, a[n]);
      RemovedHolds(b, j);
      RemovedHolds(a, n);
      assert RemoveAt(a, n) == a[..n];
      forall x ensures x in a[..n] <==> x in RemoveAt(b, j) {
        RemovedMembers(a, n, x);
        RemovedMembers(b, j, x);
      }
      RemovedMembers(a, n, a[n]);
      RemovedMembers(b, j, b[j]);
      SameMembers(a[..n], RemoveAt(b, j));
    }
  }

  ghost predicate KeysApart<T(!new)>(key: T -> string, d: seq<T>) {
    forall i, j :: 0 <= i < j < |d| ==> key(d[i]) != key(d[j])
  }

  lemma ReorderedApart<T(!new)>(key: T -> string, d: seq<T>, p: seq<T>)
    requires KeysApart(key, d) && multiset(p) == multiset(d)
    ensures KeysApart(key, p)
  {
    forall i, j | 0 <= i < j < |p| ensures key(p[i]) != key(p[j]) { PairApart(key, d, p, i, j); }
  }

  lemma PairApart<T(!new)>(key: T -> string, d: seq<T>, p: seq<T>, i: nat, j: nat)
    requires KeysApart(key, d) && multiset(p) == multiset(d) && i < j < |p|
    ensures key(p[i]) != key(p[j])
  {
    RemovedHolds(p, i);
    assert p[i] in multiset(d);
    var k := IndexOf(d, p[i]);
    RemovedHolds(d, k);
    Cancel(multiset(RemoveAt(p, i)), multiset(RemoveAt(d, k)), p[i]);
    assert RemoveAt(p, i)[j - 1] == p[j];
    assert p[j] in multiset(RemoveAt(d, k));
    var l := IndexOf(RemoveAt(d, k), p[j]);
    assert d[if l < k then l else l + 1] == p[j];
  }
}
