/** Sets and lists, and the arbitrary order in which Go visits the keys of a map. */
module Sets {

  method Pick<T>(s: set<T>) returns (x: T)
    requires s != {}
    ensures x in s
  {
    x :| x in s;
  }

  lemma SubsetSize<T>(a: set<T>, b: set<T>)
    requires a <= b
    ensures |a| <= |b|
  {
    assert b == a + (b - a);
  }

  /** The elements of a list. */
  ghost function Members<T>(s: seq<T>): set<T> {
    set x | x in s
  }

  ghost predicate NoDuplicates<T>(s: seq<T>) {
    forall i, j :: 0 <= i < j < |s| ==> s[i] != s[j]
  }

  lemma MembersPush<T>(s: seq<T>, x: T)
    ensures Members(s + [x]) == Members(s) + {x}
  {
    assert forall y :: y in s + [x] <==> y in s || y == x;
  }

  lemma SameMembers<T>(s: seq<T>, t: seq<T>)
    requires multiset(s) == multiset(t)
    ensures Members(s) == Members(t)
  {
    forall x: T ensures x in Members(s) <==> x in Members(t) {
      assert x in s <==> x in multiset(s);
      assert x in t <==> x in multiset(t);
    }
  }

  lemma WithoutOne<T>(s: seq<T>, k: nat)
    requires k < |s|
    ensures multiset(s[..k] + s[k + 1..]) == multiset(s) - multiset{s[k]}
  {
    assert s == s[..k] + ([s[k]] + s[k + 1..]);
  }

  lemma Somewhere<T>(s: seq<T>, x: T) returns (k: nat)
    requires x in multiset(s)
    ensures k < |s| && s[k] == x
  {
    k :| 0 <= k < |s| && s[k] == x;
  }

  lemma HeadBag<T>(s: seq<T>)
    requires s != []
    ensures s[0] in multiset(s) && multiset(s[1..]) == multiset(s) - multiset{s[0]}
  {
    assert s == [s[0]] + s[1..];
  }

  lemma MatchFirst<T>(a: seq<T>, b: seq<T>) returns (k: nat)
    requires a != [] && multiset(a) == multiset(b)
    ensures k < |b| && b[k] == a[0] && multiset(a[1..]) == multiset(b[..k] + b[k + 1..])
  {
    HeadBag(a);
    k := Somewhere(b, a[0]);
    WithoutOne(b, k);
  }

  // ----- lists

  /** Where an element stands first. */
  function IndexIn<T(==)>(s: seq<T>, x: T): (k: nat)
    requires x in s
    ensures k < |s| && s[k] == x
  {
    if s[0] == x then 0 else 1 + IndexIn(s[1..], x)
  }

  function RemoveAt<T>(s: seq<T>, k: nat): (r: seq<T>)
    requires k < |s|
    ensures |r| == |s| - 1
  {
    s[..k] + s[k + 1..]
  }

  /** The list without the first occurrence of an element. */
  function DropFirst<T(==)>(s: seq<T>, x: T): seq<T> {
    if s == [] then [] else if s[0] == x then s[1..] else [s[0]] + DropFirst(s[1..], x)
  }

  lemma {:induction false} DropFirstDistinct<T>(s: seq<T>, x: T)
    requires NoDuplicates(s)
    ensures NoDuplicates(DropFirst(s, x))
    ensures forall y :: y in DropFirst(s, x) <==> y in s && y != x
  {
    if s != [] {
      assert s == [s[0]] + s[1..];
      assert forall i :: 0 <= i < |s[1..]| ==> s[1..][i] == s[i + 1];
      assert s[0] !in s[1..];
      if s[0] != x {
        DropFirstDistinct(s[1..], x);
        var rest := DropFirst(s[1..], x);
        assert s[0] !in rest && DropFirst(s, x) == [s[0]] + rest;
        DistinctPush(s[0], rest);
      }
    }
  }

  lemma DistinctPush<T>(x: T, s: seq<T>)
    requires NoDuplicates(s) && x !in s
    ensures NoDuplicates([x] + s)
  {
    assert forall i :: 0 <= i < |s| ==> s[i] in s && ([x] + s)[i + 1] == s[i];
  }

  method RemoveFirst<T(==)>(list: seq<T>, x: T) returns (rest: seq<T>)
    ensures rest == DropFirst(list, x)
  {
    hide DropFirst;
    for i := 0 to |list|
      invariant forall j :: 0 <= j < i ==> list[j] != x
    {
      if list[i] == x {
        DropFirstAt(list, x, i);
        return RemoveAt(list, i);
      }
    }
    DropFirstAt(list, x, |list|);
    return list;
  }

  lemma {:induction false} DropFirstAt<T>(list: seq<T>, x: T, i: nat)
    requires i <= |list| && (forall j :: 0 <= j < i ==> list[j] != x) && (i < |list| ==> list[i] == x)
    ensures DropFirst(list, x) == if i < |list| then RemoveAt(list, i) else list
  {
    hide RemoveAt;
    if i > 0 {
      var tail := list[1..];
      assert forall j :: 0 <= j < i - 1 ==> tail[j] == list[j + 1];
      DropFirstAt(tail, x, i - 1);
      if i < |list| {
        RemoveFromTail(list, i);
      } else {
        assert list == [list[0]] + tail;
      }
    } else if list != [] {
      RemoveHead(list);
    }
  }

  lemma RemoveFromTail<T>(s: seq<T>, i: nat)
    requires 0 < i < |s|
    ensures RemoveAt(s, i) == [s[0]] + RemoveAt(s[1..], i - 1)
  {
    var r := [s[0]] + RemoveAt(s[1..], i - 1);
    assert |r| == |s| - 1;
    assert forall j :: 0 <= j < |r| ==> r[j] == s[if j < i then j else j + 1];
  }

  lemma RemoveHead<T>(s: seq<T>)
    requires s != []
    ensures RemoveAt(s, 0) == s[1..]
  {
  }
}
