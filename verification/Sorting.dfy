/** `sort.Slice` and its kin: any permutation of the list that is sorted by the given order. */
module Sorting {

  /** What the order must satisfy: it is a strict weak ordering. */
  ghost predicate Ordering<T(!new)>(less: (T, T) -> bool) {
    && (forall x, y :: less(x, y) ==> !less(y, x))
    && forall x, y, z :: less(x, z) ==> less(x, y) || less(y, z)
  }

  ghost predicate Sorted<T>(s: seq<T>, less: (T, T) -> bool) {
    forall i, j :: 0 <= i < j < |s| ==> !less(s[j], s[i])
  }

  function Place<T>(s: seq<T>, i: nat, x: T): seq<T>
    requires i <= |s|
  {
    s[..i] + [x] + s[i..]
  }

  lemma PlacedPair<T(!new)>(s: seq<T>, i: nat, x: T, less: (T, T) -> bool, k: nat, l: nat)
    requires Ordering(less) && Sorted(s, less) && i <= |s| && (i < |s| ==> !less(s[i], x)) && k < l <= |s|
    requires forall j :: 0 <= j < i ==> less(s[j], x)
    ensures !less(Place(s, i, x)[l], Place(s, i, x)[k])
  {
    var r := Place(s, i, x);
    assert r[k] == if k < i then s[k] else if k == i then x else s[k - 1];
    assert r[l] == if l < i then s[l] else if l == i then x else s[l - 1];
  }

  lemma PlacedBag<T>(s: seq<T>, i: nat, x: T)
    requires i <= |s|
    ensures |Place(s, i, x)| == |s| + 1 && multiset(Place(s, i, x)) == multiset(s) + multiset{x}
  {
    assert s == s[..i] + s[i..];
  }

  lemma Placed<T(!new)>(s: seq<T>, i: nat, x: T, less: (T, T) -> bool)
    requires Ordering(less) && Sorted(s, less) && i <= |s| && (i < |s| ==> !less(s[i], x))
    requires forall j :: 0 <= j < i ==> less(s[j], x)
    ensures Sorted(Place(s, i, x), less) && multiset(Place(s, i, x)) == multiset(s) + multiset{x}
  {
    hide Place;
    PlacedBag(s, i, x);
    var r := Place(s, i, x);
    forall k: nat, l: nat | k < l < |r|
      ensures !less(r[l], r[k])
    {
      PlacedPair(s, i, x, less, k, l);
    }
  }

  method Sort<T(!new)>(s: seq<T>, less: (T, T) -> bool) returns (r: seq<T>)
    requires Ordering(less)
    ensures Sorted(r, less) && multiset(r) == multiset(s)
  {
    r := [];
    for n := 0 to |s|
      invariant Sorted(r, less) && multiset(r) == multiset(s[..n])
    {
      var i := 0;
      while i < |r| && less(r[i], s[n])
        invariant i <= |r| && forall j :: 0 <= j < i ==> less(r[j], s[n])
      {
        i := i + 1;
      }
      Placed(r, i, s[n], less);
      assert s[..n + 1] == s[..n] + [s[n]];
      r := Place(r, i, s[n]);
    }
    assert s[..|s|] == s;
  }
}
