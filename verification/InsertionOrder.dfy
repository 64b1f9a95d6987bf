/** The keys of a map, or the members of a set, in the order they were inserted. */
module InsertionOrder {

  ghost predicate Unique(order: seq<string>) {
    forall i, j :: 0 <= i < j < |order| ==> order[i] != order[j]
  }

  ghost predicate Listed(keys: set<string>, order: seq<string>) {
    (forall s :: s in keys <==> s in order) && Unique(order)
  }

  lemma {:induction false} ListedCount(keys: set<string>, order: seq<string>)
    requires Listed(keys, order)
    ensures |keys| == |order|
    decreases |order|
  {
    if |order| > 0 {
      assert order[0] in keys;
      DropFirst(keys, order);
      ListedCount(keys - {order[0]}, order[1..]);
    } else {
      assert keys == {};
    }
  }

  lemma DropFirst(keys: set<string>, order: seq<string>)
    requires Listed(keys, order) && |order| > 0
    ensures order[0] in keys && Listed(keys - {order[0]}, order[1..])
  {
    assert order == [order[0]] + order[1..];
  }

  lemma AddLast(keys: set<string>, order: seq<string>, s: string)
    requires Listed(keys, order)
    ensures s in keys <==> s in order
    ensures Listed(keys + {s}, if s in keys then order else order + [s])
  {
    if s in keys { assert keys + {s} == keys; }
  }

  function Without(order: seq<string>, s: string): (r: seq<string>)
    ensures forall x :: x in r <==> x in order && x != s
  {
    if |order| == 0 then []
    else if order[0] == s then Without(order[1..], s)
    else [order[0]] + Without(order[1..], s)
  }

  lemma {:induction false} WithoutUnique(order: seq<string>, s: string)
    requires Unique(order)
    ensures Unique(Without(order, s))
  {
    if |order| > 0 {
      WithoutUnique(order[1..], s);
      assert order[0] !in order[1..];
    }
  }

  lemma DropOne(keys: set<string>, order: seq<string>, s: string)
    requires Listed(keys, order)
    ensures Listed(keys - {s}, Without(order, s))
  {
    WithoutUnique(order, s);
  }
}
