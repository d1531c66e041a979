/** The inverted index: for every token the rows that hold it, with one posting per occurrence,
    and for every row its tokens.  Tokenizing is left to the caller. */
module Gin {
  import opened Sets
  import opened Sorting

  type Postings = map<string, seq<int>>

  datatype Index = Index(data: Postings, reverse: map<int, seq<string>>)

  const EMPTY: Index := Index(map[], map[])

  function ListOf(data: Postings, token: string): seq<int> {
    if token in data then data[token] else []
  }

  function PostAll(data: Postings, tokens: seq<string>, row: int): Postings
  {
    if tokens == [] then data
    else
      var before := PostAll(data, tokens[..|tokens| - 1], row);
      var last := tokens[|tokens| - 1];
      before[last := ListOf(before, last) + [row]]
  }

  /** `addLocked`, once the value has been cut into tokens. */
  function Add(g: Index, row: int, tokens: seq<string>): Index {
    Index(PostAll(g.data, tokens, row), g.reverse[row := tokens])
  }

  /** A token whose last posting goes away leaves the map. */
  function Unpost(data: Postings, token: string, row: int): Postings {
    var rest := DropFirst(ListOf(data, token), row);
    if rest == [] then data - {token} else data[token := rest]
  }

  function UnpostAll(data: Postings, tokens: seq<string>, row: int): Postings
  {
    if tokens == [] then data
    else Unpost(UnpostAll(data, tokens[..|tokens| - 1], row), tokens[|tokens| - 1], row)
  }

  function Remove(g: Index, row: int): Index {
    if row in g.reverse then Index(UnpostAll(g.data, g.reverse[row], row), g.reverse - {row}) else g
  }

  // ----- the invariant

  ghost function Occurs(data: Postings, token: string, row: int): nat {
    multiset(ListOf(data, token))[row]
  }

  ghost function Holds(g: Index, row: int, token: string): nat {
    if row in g.reverse then multiset(g.reverse[row])[token] else 0
  }

  ghost predicate NoEmptyLists(data: Postings) {
    forall t :: t in data ==> data[t] != []
  }

  /** A row is posted under a token as often as the token occurs in the row. */
  ghost predicate Inv(g: Index) {
    NoEmptyLists(g.data) && forall t, r :: Occurs(g.data, t, r) == Holds(g, r, t)
  }

  lemma {:induction false} PostAllOccurs(data: Postings, tokens: seq<string>, row: int, t: string, r: int)
    requires NoEmptyLists(data)
    ensures NoEmptyLists(PostAll(data, tokens, row))
    ensures Occurs(PostAll(data, tokens, row), t, r) == Occurs(data, t, r) + if r == row then multiset(tokens)[t] else 0
  {
    if tokens != [] {
      PostAllOccurs(data, tokens[..|tokens| - 1], row, t, r);
      assert tokens == tokens[..|tokens| - 1] + [tokens[|tokens| - 1]];
    }
  }

  /** Adding a row keeps the invariant exactly when the row was not there before, or held no
      token: an add over an existing row leaves its old postings behind. */
  lemma AddKeepsIffFresh(g: Index, row: int, tokens: seq<string>)
    requires Inv(g)
    ensures Inv(Add(g, row, tokens)) <==> row !in g.reverse || g.reverse[row] == []
  {
    var g' := Add(g, row, tokens);
    forall t, r
      ensures Occurs(g'.data, t, r) == Holds(g, r, t) + if r == row then multiset(tokens)[t] else 0
      ensures NoEmptyLists(g'.data)
    {
      PostAllOccurs(g.data, tokens, row, t, r);
      assert Occurs(g.data, t, r) == Holds(g, r, t);
    }
    assert NoEmptyLists(g'.data) by { PostAllOccurs(g.data, tokens, row, "", 0); }
    if row in g.reverse && g.reverse[row] != [] {
      var t := g.reverse[row][0];
      assert t in multiset(g.reverse[row]);
      assert Occurs(g'.data, t, row) != Holds(g', row, t);
    }
  }

  // ----- removing

  function Without(s: seq<int>, x: int): seq<int> {
    if s == [] then [] else if s[0] == x then Without(s[1..], x) else [s[0]] + Without(s[1..], x)
  }

  lemma {:induction false} DropFirstFacts(s: seq<int>, x: int)
    ensures Without(DropFirst(s, x), x) == Without(s, x)
    ensures multiset(DropFirst(s, x)) == if x in multiset(s) then multiset(s) - multiset{x} else multiset(s)
  {
    if s != [] {
      assert s == [s[0]] + s[1..];
      if s[0] != x {
        DropFirstFacts(s[1..], x);
        var r := [s[0]] + DropFirst(s[1..], x);
        assert r[1..] == DropFirst(s[1..], x);
      }
    }
  }

  lemma {:induction false} WithoutFacts(s: seq<int>, x: int)
    ensures multiset(Without(s, x)) == multiset(s)[x := 0]
    ensures multiset(s)[x] == 0 ==> Without(s, x) == s
  {
    if s != [] {
      assert s == [s[0]] + s[1..];
      WithoutFacts(s[1..], x);
    }
  }

  lemma UnpostList(data: Postings, token: string, row: int, t: string)
    requires NoEmptyLists(data)
    ensures NoEmptyLists(Unpost(data, token, row))
    ensures ListOf(Unpost(data, token, row), t) == if t == token then DropFirst(ListOf(data, token), row) else ListOf(data, t)
  {
    hide DropFirst;
  }

  lemma UnpostFacts(data: Postings, token: string, row: int, t: string)
    requires NoEmptyLists(data)
    ensures NoEmptyLists(Unpost(data, token, row))
    ensures Without(ListOf(Unpost(data, token, row), t), row) == Without(ListOf(data, t), row)
    ensures Occurs(Unpost(data, token, row), t, row)
            == if t == token && Occurs(data, t, row) > 0 then Occurs(data, t, row) - 1 else Occurs(data, t, row)
  {
    hide Unpost, Without, DropFirst;
    DropFirstFacts(ListOf(data, token), row);
    UnpostList(data, token, row, t);
  }

  lemma {:induction false} UnpostAllFacts(data: Postings, tokens: seq<string>, row: int, t: string)
    requires NoEmptyLists(data)
    ensures NoEmptyLists(UnpostAll(data, tokens, row))
    ensures Without(ListOf(UnpostAll(data, tokens, row), t), row) == Without(ListOf(data, t), row)
    ensures Occurs(UnpostAll(data, tokens, row), t, row)
            == if multiset(tokens)[t] <= Occurs(data, t, row) then Occurs(data, t, row) - multiset(tokens)[t] else 0
  {
    if tokens != [] {
      var front, last := tokens[..|tokens| - 1], tokens[|tokens| - 1];
      assert tokens == front + [last];
      UnpostAllFacts(data, front, row, t);
      UnpostFacts(UnpostAll(data, front, row), last, row, t);
    }
  }

  /** `Remove` takes every posting of the row out of every list, in order, and nothing else. */
  lemma RemoveErases(g: Index, row: int)
    requires Inv(g)
    ensures Inv(Remove(g, row)) && row !in Remove(g, row).reverse
    ensures forall t :: ListOf(Remove(g, row).data, t) == Without(ListOf(g.data, t), row)
    ensures forall t :: row !in ListOf(Remove(g, row).data, t)
  {
    var g' := Remove(g, row);
    forall t
      ensures ListOf(g'.data, t) == Without(ListOf(g.data, t), row)
      ensures multiset(ListOf(g'.data, t)) == multiset(ListOf(g.data, t))[row := 0]
    {
      assert Occurs(g.data, t, row) == Holds(g, row, t);
      if row in g.reverse { UnpostAllFacts(g.data, g.reverse[row], row, t); }
      WithoutFacts(ListOf(g'.data, t), row);
      WithoutFacts(ListOf(g.data, t), row);
    }
    assert NoEmptyLists(g'.data) by {
      if row in g.reverse { UnpostAllFacts(g.data, g.reverse[row], row, ""); }
    }
    forall t, r
      ensures Occurs(g'.data, t, r) == Holds(g', r, t)
    {
      assert Occurs(g.data, t, r) == Holds(g, r, t);
      assert multiset(ListOf(g'.data, t)) == multiset(ListOf(g.data, t))[row := 0];
    }
    forall t ensures row !in ListOf(g'.data, t) {
      assert multiset(ListOf(g'.data, t))[row] == 0;
    }
  }

  /** Adding a fresh row and removing it again restores the index, posting lists included. */
  lemma AddRemove(g: Index, row: int, tokens: seq<string>)
    requires Inv(g) && row !in g.reverse
    ensures Remove(Add(g, row, tokens), row) == g
  {
    var mid := Add(g, row, tokens);
    AddKeepsIffFresh(g, row, tokens);
    RemoveErases(mid, row);
    var end := Remove(mid, row);
    forall t
      ensures ListOf(end.data, t) == ListOf(g.data, t)
    {
      PostAllWithout(g.data, tokens, row, t);
      assert Occurs(g.data, t, row) == Holds(g, row, t);
      WithoutFacts(ListOf(g.data, t), row);
    }
    assert end.data == g.data by {
      forall t ensures t in end.data <==> t in g.data {
        assert ListOf(end.data, t) == ListOf(g.data, t);
      }
      forall t | t in end.data ensures end.data[t] == g.data[t] {
        assert ListOf(end.data, t) == ListOf(g.data, t);
      }
    }
    assert end.reverse == g.reverse;
  }

  lemma {:induction false} PostAllWithout(data: Postings, tokens: seq<string>, row: int, t: string)
    ensures Without(ListOf(PostAll(data, tokens, row), t), row) == Without(ListOf(data, t), row)
  {
    if tokens != [] {
      var front := tokens[..|tokens| - 1];
      PostAllWithout(data, front, row, t);
      WithoutPush(ListOf(PostAll(data, front, row), t), row);
    }
  }

  lemma {:induction false} WithoutPush(s: seq<int>, x: int)
    ensures Without(s + [x], x) == Without(s, x)
  {
    if s != [] {
      assert (s + [x])[1..] == s[1..] + [x];
      WithoutPush(s[1..], x);
    }
  }

  // ----- whole histories

  datatype Op = DoAdd(row: int, tokens: seq<string>) | DoRemove(row: int)

  function Step(g: Index, op: Op): Index {
    match op
    case DoAdd(row, tokens) => Add(g, row, tokens)
    case DoRemove(row) => Remove(g, row)
  }

  function History(ops: seq<Op>): Index {
    if ops == [] then EMPTY else Step(History(ops[..|ops| - 1]), ops[|ops| - 1])
  }

  /** Rows are only added at row numbers that are free at the time. */
  ghost predicate FreshAdds(ops: seq<Op>) {
    ops != [] ==>
      var before, last := ops[..|ops| - 1], ops[|ops| - 1];
      FreshAdds(before) && (last.DoAdd? ==> last.row !in History(before).reverse)
  }

  lemma {:induction false} HistoryInv(ops: seq<Op>)
    requires FreshAdds(ops)
    ensures Inv(History(ops))
  {
    if ops != [] {
      var before, last := History(ops[..|ops| - 1]), ops[|ops| - 1];
      HistoryInv(ops[..|ops| - 1]);
      match last
      case DoAdd(row, tokens) => AddKeepsIffFresh(before, row, tokens);
      case DoRemove(row) => RemoveErases(before, row);
    }
  }

  // ----- searching

  /** The rows that hold every token of the query. */
  ghost function Matching(g: Index, query: seq<string>): set<int> {
    set r | r in g.reverse && forall q :: q in query ==> q in g.reverse[r]
  }

  lemma PostedIffHeld(g: Index, token: string, row: int)
    requires Inv(g)
    ensures row in ListOf(g.data, token) <==> row in g.reverse && token in g.reverse[row]
  {
    assert Occurs(g.data, token, row) == Holds(g, row, token);
    assert row in ListOf(g.data, token) <==> row in multiset(ListOf(g.data, token));
    if row in g.reverse {
      assert token in g.reverse[row] <==> token in multiset(g.reverse[row]);
    }
  }

  ghost predicate Increasing(s: seq<int>) {
    forall i, j :: 0 <= i < j < |s| ==> s[i] < s[j]
  }

  /** `Search`: the first token's rows, thinned by a scan of every further token's list. */
  method Search(g: Index, query: seq<string>) returns (ids: seq<int>)
    requires Inv(g)
    ensures NoDuplicates(ids)
    ensures Members(ids) == if query == [] then {} else Matching(g, query)
  {
    if query == [] {
      return [];
    }
    var result: set<int> := {};
    var first := ListOf(g.data, query[0]);
    for i := 0 to |first|
      invariant result == Members(first[..i])
    {
      result := result + {first[i]};
      assert first[..i + 1] == first[..i] + [first[i]];
      MembersPush(first[..i], first[i]);
    }
    assert first[..|first|] == first;
    assert result == Matching(g, query[..1]) by {
      forall r ensures r in result <==> r in Matching(g, query[..1]) {
        PostedIffHeld(g, query[0], r);
        assert forall q :: q in query[..1] <==> q == query[0];
      }
    }
    for k := 1 to |query|
      invariant result == Matching(g, query[..k])
    {
      result := Thin(result, ListOf(g.data, query[k]));
      forall r ensures r in result <==> r in Matching(g, query[..k + 1]) {
        PostedIffHeld(g, query[k], r);
        assert forall q :: q in query[..k + 1] <==> q in query[..k] || q == query[k];
      }
    }
    assert query[..|query|] == query;
    ids := Enumerate(result);
  }

  /** The inner loops of `Search`: rows not found in the list are deleted from the result. */
  method Thin(rows: set<int>, list: seq<int>) returns (kept: set<int>)
    ensures forall r :: r in kept <==> r in rows && r in list
  {
    kept := rows;
    var rest := rows;
    while rest != {}
      invariant rest <= rows && kept <= rows && rest <= kept
      invariant forall r :: r in rows && r !in rest ==> (r in kept <==> r in list)
      decreases rest
    {
      var r := Pick(rest);
      rest := rest - {r};
      var found, j := false, 0;
      while j < |list| && !found
        invariant j <= |list| && (found ==> r in list) && (!found ==> r !in list[..j])
        decreases |list| - j, !found
      {
        found := list[j] == r;
        j := j + 1;
      }
      if !found {
        assert list[..j] == list;
        kept := kept - {r};
      }
    }
  }

  /** Listing a Go map's keys: every key once, in any order. */
  method Enumerate(rows: set<int>) returns (ids: seq<int>)
    ensures NoDuplicates(ids) && Members(ids) == rows
  {
    ids := [];
    var rest := rows;
    while rest != {}
      invariant rest <= rows && NoDuplicates(ids) && Members(ids) == rows - rest
      decreases rest
    {
      var r := Pick(rest);
      rest := rest - {r};
      MembersPush(ids, r);
      ids := ids + [r];
    }
  }

  // ----- the merge of SearchJSONBContains

  lemma IncreasingPush(s: seq<int>, x: int)
    requires Increasing(s) && (s != [] ==> s[|s| - 1] < x)
    ensures Increasing(s + [x])
  {
  }

  lemma MemberAgain(s: seq<int>, x: int)
    requires x in s
    ensures Members(s) == Members(s) + {x}
  {
  }

  /** `deduplicateSorted`: compaction in place; the first `n` cells are the result. */
  method DeduplicateSorted(a: array<int>) returns (n: nat)
    requires forall i, j :: 0 <= i < j < a.Length ==> a[i] <= a[j]
    modifies a
    ensures n <= a.Length && Increasing(a[..n])
    ensures Members(a[..n]) == Members(old(a[..]))
  {
    ghost var was := a[..];
    if a.Length <= 1 {
      return a.Length;
    }
    hide Members, Increasing;
    n := 1;
    assert was[..1] == [was[0]] && a[..1] == [was[0]];
    IncreasingPush([], was[0]);
    for i := 1 to a.Length
      invariant 1 <= n <= i && Increasing(a[..n]) && a[n - 1] == was[i - 1]
      invariant forall j :: i <= j < a.Length ==> a[j] == was[j]
      invariant Members(a[..n]) == Members(was[..i])
    {
      ghost var kept := a[..n];
      assert was[..i + 1] == was[..i] + [was[i]];
      MembersPush(was[..i], was[i]);
      if a[i] != a[n - 1] {
        assert was[i - 1] <= was[i];
        IncreasingPush(kept, was[i]);
        a[n] := a[i];
        n := n + 1;
        assert a[..n] == kept + [was[i]];
        MembersPush(kept, was[i]);
      } else {
        MemberAgain(was[..i], was[i - 1]);
      }
    }
    assert was[..a.Length] == was;
  }

  lemma BelowAt(s: seq<int>, i: nat, x: int)
    requires Increasing(s) && i < |s| && x in s[..i]
    ensures x < s[i]
  {
    var k :| 0 <= k < i && s[..i][k] == x;
  }

  /** `intersectSorted`: two pointers over strictly increasing lists. */
  method IntersectSorted(a: seq<int>, b: seq<int>) returns (r: seq<int>)
    requires Increasing(a) && Increasing(b)
    ensures Increasing(r) && Members(r) == Members(a) * Members(b)
  {
    var i, j := 0, 0;
    r := [];
    while i < |a| && j < |b|
      invariant i <= |a| && j <= |b| && Increasing(r)
      invariant forall x :: x in r ==> x in a[..i] && x in b[..j]
      invariant forall x :: x in a[..i] && x in b ==> x in r
      invariant forall x :: x in b[..j] && x in a ==> x in r
    {
      assert a[..i + 1] == a[..i] + [a[i]] && b[..j + 1] == b[..j] + [b[j]];
      if a[i] == b[j] {
        if r != [] {
          assert r[|r| - 1] in r;
          BelowAt(a, i, r[|r| - 1]);
        }
        IncreasingPush(r, a[i]);
        r := r + [a[i]];
        i, j := i + 1, j + 1;
      } else if a[i] < b[j] {
        NotBefore(b, j, a[i]);
        i := i + 1;
      } else {
        NotBefore(a, i, b[j]);
        j := j + 1;
      }
    }
    assert i == |a| ==> a[..i] == a;
    assert j == |b| ==> b[..j] == b;
    assert forall x :: x in a[..i] ==> x in a;
    assert forall x :: x in b[..j] ==> x in b;
    assert forall x :: x in Members(r) <==> x in Members(a) && x in Members(b);
  }

  /** What is below the element at `j` and in the list stands before `j`. */
  lemma NotBefore(b: seq<int>, j: nat, x: int)
    requires Increasing(b) && j < |b| && x < b[j]
    ensures x in b ==> x in b[..j]
  {
    if x in b {
      var k :| 0 <= k < |b| && b[k] == x;
      assert k < j && b[..j][k] == x;
    }
  }

  method SortedDistinct(list: seq<int>) returns (r: seq<int>)
    ensures Increasing(r) && Members(r) == Members(list)
  {
    var sorted := Sort(list, (x: int, y: int) => x < y);
    var a := new int[|sorted|](i requires 0 <= i < |sorted| => sorted[i]);
    assert a[..] == sorted;
    var n := DeduplicateSorted(a);
    r := a[..n];
    SameMembers(sorted, list);
  }

  /** `SearchJSONBContains` on a jsonb index: strictly increasing, and the same rows as `Search`. */
  method SearchContains(g: Index, query: seq<string>) returns (ids: seq<int>)
    requires Inv(g)
    ensures Increasing(ids)
    ensures Members(ids) == if query == [] then {} else Matching(g, query)
  {
    if query == [] {
      return [];
    }
    for k := 0 to |query|
      invariant forall i :: 0 <= i < k ==> ListOf(g.data, query[i]) != []
    {
      if ListOf(g.data, query[k]) == [] {
        forall r ensures r !in Matching(g, query) {
          PostedIffHeld(g, query[k], r);
        }
        return [];
      }
    }
    ids := SortedDistinct(ListOf(g.data, query[0]));
    forall r ensures r in Members(ids) <==> r in Matching(g, query[..1]) {
      PostedIffHeld(g, query[0], r);
      assert forall q :: q in query[..1] <==> q == query[0];
    }
    var i := 1;
    while i < |query| && ids != []
      invariant 1 <= i <= |query| && Increasing(ids) && Members(ids) == Matching(g, query[..i])
    {
      var list := SortedDistinct(ListOf(g.data, query[i]));
      ids := IntersectSorted(ids, list);
      forall r ensures r in Members(ids) <==> r in Matching(g, query[..i + 1]) {
        PostedIffHeld(g, query[i], r);
        assert forall q :: q in query[..i + 1] <==> q in query[..i] || q == query[i];
      }
      i := i + 1;
    }
    MatchingShrinks(g, query, i);
    assert i == |query| ==> query[..i] == query;
  }

  lemma MatchingShrinks(g: Index, query: seq<string>, i: nat)
    requires i <= |query|
    ensures Matching(g, query) <= Matching(g, query[..i])
  {
    assert forall q :: q in query[..i] ==> q in query;
  }

  // ----- the class

  class GinIndex {
    var data: Postings
    var reverse: map<int, seq<string>>

    ghost function Model(): Index
      reads this
    {
      Index(data, reverse)
    }

    constructor ()
      ensures Model() == EMPTY
    {
      data, reverse := map[], map[];
    }

    method AddLocked(row: int, tokens: seq<string>)
      modifies this
      ensures Model() == Add(old(Model()), row, tokens)
    {
      reverse := reverse[row := tokens];
      for i := 0 to |tokens|
        invariant reverse == old(reverse)[row := tokens]
        invariant data == PostAll(old(data), tokens[..i], row)
      {
        assert tokens[..i + 1][..i] == tokens[..i];
        data := data[tokens[i] := ListOf(data, tokens[i]) + [row]];
      }
      assert tokens[..|tokens|] == tokens;
    }

    method RemoveRow(row: int)
      modifies this
      ensures Model() == Remove(old(Model()), row)
    {
      if row in reverse {
        var tokens := reverse[row];
        for i := 0 to |tokens|
          invariant reverse == old(reverse)
          invariant data == UnpostAll(old(data), tokens[..i], row)
        {
          assert tokens[..i + 1][..i] == tokens[..i];
          var positions := ListOf(data, tokens[i]);
          var rest := RemoveFirst(positions, row);
          data := if rest == [] then data - {tokens[i]} else data[tokens[i] := rest];
        }
        assert tokens[..|tokens|] == tokens;
        reverse := reverse - {row};
      }
    }
  }
}
