/** Two indexes from a key to the positions of the rows that have it: a hash map, and sorted
    parallel lists of keys and positions.  Both also map every position to its key. */
module Indexes {
  import opened Sets
  import opened Sorting
  import opened StringOrder

  // ----- the hash index

  datatype Hash = Hash(data: map<string, seq<int>>, reverse: map<int, string>)

  const EMPTY_HASH: Hash := Hash(map[], map[])

  function HashLookup(h: Hash, key: string): seq<int> {
    if key in h.data then h.data[key] else []
  }

  function HashInsert(h: Hash, key: string, pos: int): Hash {
    Hash(h.data[key := HashLookup(h, key) + [pos]], h.reverse[pos := key])
  }

  function IndexOf(s: seq<int>, x: int): (k: nat)
    ensures k <= |s| && (k < |s| ==> s[k] == x) && x !in s[..k]
  {
    if s == [] || s[0] == x then 0
    else
      var k := IndexOf(s[1..], x);
      assert s[..k + 1] == [s[0]] + s[1..][..k];
      1 + k
  }

  /** The last element takes the place of the one that goes. */
  function SwapOut(s: seq<int>, x: int): seq<int> {
    var k := IndexOf(s, x);
    if k == |s| then s else s[k := s[|s| - 1]][..|s| - 1]
  }

  /** The index without `pos`, where `rest` is what is left of its key's list. */
  function TakeOut(h: Hash, pos: int, rest: seq<int>): Hash
    requires pos in h.reverse
  {
    var key := h.reverse[pos];
    Hash(if rest == [] then h.data - {key} else h.data[key := rest], h.reverse - {pos})
  }

  function HashDelete(h: Hash, pos: int): Hash {
    if pos !in h.reverse then h else TakeOut(h, pos, SwapOut(HashLookup(h, h.reverse[pos]), pos))
  }

  /** Every list is non-empty and free of duplicates, and a position is in a key's list exactly
      when the reverse map gives it that key. */
  ghost predicate HashValid(h: Hash) {
    && (forall k :: k in h.data ==> h.data[k] != [])
    && (forall k :: NoDuplicates(HashLookup(h, k)))
    && forall k, p :: p in HashLookup(h, k) <==> p in h.reverse && h.reverse[p] == k
  }

  lemma SwapOutFacts(s: seq<int>, x: int)
    requires NoDuplicates(s)
    ensures NoDuplicates(SwapOut(s, x))
    ensures forall y :: y in SwapOut(s, x) <==> y in s && y != x
  {
    var k, r := IndexOf(s, x), SwapOut(s, x);
    if k < |s| {
      var last := s[|s| - 1];
      assert forall i :: 0 <= i < |r| ==> r[i] == if i == k then last else s[i];
      forall y | y in s && y != x
        ensures y in r
      {
        var i :| 0 <= i < |s| && s[i] == y;
        assert if i < |r| then r[i] == y else r[k] == y;
      }
    } else {
      assert s[..k] == s;
    }
  }

  /** An insert keeps the hash index valid exactly when the position is not yet in it. */
  lemma HashInsertIffFresh(h: Hash, key: string, pos: int)
    requires HashValid(h)
    ensures HashValid(HashInsert(h, key, pos)) <==> pos !in h.reverse
  {
    var h' := HashInsert(h, key, pos);
    var list := HashLookup(h, key);
    assert HashLookup(h', key) == list + [pos];
    assert forall k :: k != key ==> HashLookup(h', k) == HashLookup(h, k);
    if pos in h.reverse {
      var was := h.reverse[pos];
      assert pos in HashLookup(h, was);
      if was == key {
        var i :| 0 <= i < |list| && list[i] == pos;
        assert (list + [pos])[i] == (list + [pos])[|list|];
        assert !NoDuplicates(HashLookup(h', key));
      } else {
        assert pos in HashLookup(h', was) && h'.reverse[pos] != was;
      }
    } else {
      assert pos !in list;
      forall k ensures NoDuplicates(HashLookup(h', k)) {
        assert NoDuplicates(HashLookup(h, k));
      }
      forall k, p ensures p in HashLookup(h', k) <==> p in h'.reverse && h'.reverse[p] == k {
        assert p in HashLookup(h, k) <==> p in h.reverse && h.reverse[p] == k;
      }
    }
  }

  lemma TakeOutKeeps(h: Hash, pos: int, rest: seq<int>)
    requires HashValid(h) && pos in h.reverse && NoDuplicates(rest)
    requires forall y :: y in rest <==> y in HashLookup(h, h.reverse[pos]) && y != pos
    ensures HashValid(TakeOut(h, pos, rest))
  {
    var h', key := TakeOut(h, pos, rest), h.reverse[pos];
    assert HashLookup(h', key) == rest;
    assert forall k :: k != key ==> HashLookup(h', k) == HashLookup(h, k);
    forall k, p ensures p in HashLookup(h', k) <==> p in h'.reverse && h'.reverse[p] == k {
      assert p in HashLookup(h, k) <==> p in h.reverse && h.reverse[p] == k;
    }
  }

  lemma HashDeleteKeeps(h: Hash, pos: int)
    requires HashValid(h)
    ensures HashValid(HashDelete(h, pos)) && HashDelete(h, pos).reverse == h.reverse - {pos}
  {
    if pos in h.reverse {
      var list := HashLookup(h, h.reverse[pos]);
      SwapOutFacts(list, pos);
      TakeOutKeeps(h, pos, SwapOut(list, pos));
    } else {
      assert h.reverse - {pos} == h.reverse;
    }
  }

  // ----- the composite index

  datatype Composite = Composite(keys: seq<string>, values: seq<seq<int>>, reverse: map<int, string>)

  const EMPTY_COMPOSITE: Composite := Composite([], [], map[])

  ghost predicate Ascending(keys: seq<string>) {
    forall i, j :: 0 <= i < j < |keys| ==> Less(keys[i], keys[j])
  }

  /** The shape the parallel lists always have, whatever is inserted. */
  ghost predicate Shaped(c: Composite) {
    |c.keys| == |c.values| && Ascending(c.keys)
  }

  /** Where `key` stands or would stand: the number of keys before it. */
  function LowerBound(keys: seq<string>, key: string): (i: nat)
    ensures i <= |keys| && (i < |keys| ==> !Less(keys[i], key))
    ensures forall j :: 0 <= j < i ==> Less(keys[j], key)
  {
    if keys == [] || !Less(keys[0], key) then 0 else 1 + LowerBound(keys[1..], key)
  }

  predicate Present(c: Composite, key: string) {
    var i := LowerBound(c.keys, key);
    i < |c.keys| && c.keys[i] == key
  }

  function CompositeLookup(c: Composite, key: string): seq<int>
    requires |c.keys| == |c.values|
  {
    if Present(c, key) then c.values[LowerBound(c.keys, key)] else []
  }

  function CompositeInsert(c: Composite, key: string, pos: int): Composite
    requires |c.keys| == |c.values|
  {
    var i := LowerBound(c.keys, key);
    if Present(c, key)
    then Composite(c.keys, c.values[i := c.values[i] + [pos]], c.reverse[pos := key])
    else Composite(Place(c.keys, i, key), Place(c.values, i, [pos]), c.reverse[pos := key])
  }

  function CompositeDelete(c: Composite, pos: int): Composite
    requires |c.keys| == |c.values|
  {
    if pos !in c.reverse then c else
    var key := c.reverse[pos];
    var reverse := c.reverse - {pos};
    if !Present(c, key) then c.(reverse := reverse) else
    var i := LowerBound(c.keys, key);
    var rest := DropFirst(c.values[i], pos);
    if rest == [] then Composite(RemoveAt(c.keys, i), RemoveAt(c.values, i), reverse)
    else Composite(c.keys, c.values[i := rest], reverse)
  }

  ghost predicate Shows(keys: seq<string>, values: seq<seq<int>>, m: map<string, seq<int>>)
    requires |keys| == |values|
  {
    && (forall k :: k in m <==> k in keys)
    && forall i :: 0 <= i < |keys| ==> m[keys[i]] == values[i]
  }

  lemma {:induction false} SomeView(keys: seq<string>, values: seq<seq<int>>) returns (m: map<string, seq<int>>)
    requires |keys| == |values| && NoDuplicates(keys)
    ensures Shows(keys, values, m)
  {
    if keys == [] {
      m := map[];
    } else {
      var n := |keys| - 1;
      m := SomeView(keys[..n], values[..n]);
      m := m[keys[n] := values[n]];
      assert keys == keys[..n] + [keys[n]];
    }
  }

  /** The parallel lists as one map. */
  ghost function View(keys: seq<string>, values: seq<seq<int>>): (m: map<string, seq<int>>)
    requires |keys| == |values| && NoDuplicates(keys)
    ensures Shows(keys, values, m)
  {
    assert exists m :: Shows(keys, values, m) by { var m := SomeView(keys, values); }
    var m :| Shows(keys, values, m);
    m
  }

  lemma OnlyView(keys: seq<string>, values: seq<seq<int>>, m: map<string, seq<int>>)
    requires |keys| == |values| && NoDuplicates(keys) && Shows(keys, values, m)
    ensures m == View(keys, values)
  {
    var v := View(keys, values);
    forall k | k in m
      ensures k in v && v[k] == m[k]
    {
      var i :| 0 <= i < |keys| && keys[i] == k;
    }
  }

  lemma AscendingDistinct(keys: seq<string>)
    requires Ascending(keys)
    ensures NoDuplicates(keys)
  {
    forall i, j | 0 <= i < j < |keys| ensures keys[i] != keys[j] {
      Trichotomy(keys[i], keys[j]);
    }
  }

  ghost function AsHash(c: Composite): Hash
    requires Shaped(c)
  {
    AscendingDistinct(c.keys);
    Hash(View(c.keys, c.values), c.reverse)
  }

  /** Strictly ascending keys, each with a non-empty duplicate-free list, in agreement with the
      reverse map. */
  ghost predicate CompositeValid(c: Composite) {
    Shaped(c) && HashValid(AsHash(c))
  }

  /** In ascending keys a key is found where it stands. */
  lemma FoundAt(keys: seq<string>, i: nat)
    requires Ascending(keys) && i < |keys|
    ensures LowerBound(keys, keys[i]) == i
  {
    var j := LowerBound(keys, keys[i]);
    Trichotomy(keys[i], keys[i]);
    assert j <= i;
  }

  lemma LookupIsView(c: Composite, key: string)
    requires Shaped(c)
    ensures Present(c, key) <==> key in c.keys
    ensures CompositeLookup(c, key) == HashLookup(AsHash(c), key)
  {
    if key in c.keys {
      var i :| 0 <= i < |c.keys| && c.keys[i] == key;
      FoundAt(c.keys, i);
    }
  }

  lemma InsertAscending(keys: seq<string>, key: string)
    requires Ascending(keys) && (LowerBound(keys, key) < |keys| ==> keys[LowerBound(keys, key)] != key)
    ensures Ascending(Place(keys, LowerBound(keys, key), key))
  {
    var i := LowerBound(keys, key);
    var r := Place(keys, i, key);
    forall j | i <= j < |keys|
      ensures Less(key, keys[j])
    {
      Trichotomy(key, keys[i]);
      if i < j { Transitive(key, keys[i], keys[j]); }
    }
    forall p: nat, q: nat | p < q < |r| ensures Less(r[p], r[q]) {
      assert r[p] == if p < i then keys[p] else if p == i then key else keys[p - 1];
      assert r[q] == if q < i then keys[q] else if q == i then key else keys[q - 1];
    }
  }

  lemma ViewUpdate(keys: seq<string>, values: seq<seq<int>>, i: nat, list: seq<int>)
    requires |keys| == |values| && NoDuplicates(keys) && i < |keys|
    ensures View(keys, values[i := list]) == View(keys, values)[keys[i] := list]
  {
    OnlyView(keys, values[i := list], View(keys, values)[keys[i] := list]);
  }

  lemma ViewInsert(keys: seq<string>, values: seq<seq<int>>, i: nat, key: string, list: seq<int>)
    requires |keys| == |values| && i <= |keys| && NoDuplicates(keys) && key !in keys
    ensures NoDuplicates(Place(keys, i, key))
    ensures View(Place(keys, i, key), Place(values, i, list)) == View(keys, values)[key := list]
  {
    hide Place;
    var m, ks, vs := View(keys, values)[key := list], Place(keys, i, key), Place(values, i, list);
    PlaceDistinct(keys, i, key);
    PlaceSize(keys, i, key);
    PlaceSize(values, i, list);
    forall j | 0 <= j < |ks| ensures ks[j] in m && m[ks[j]] == vs[j] {
      PlaceAt(keys, i, key, j);
      PlaceAt(values, i, list, j);
      assert j != i ==> keys[if j < i then j else j - 1] in keys;
    }
    OnlyView(ks, vs, m);
  }

  lemma PlaceSize<T>(s: seq<T>, i: nat, x: T)
    requires i <= |s|
    ensures |Place(s, i, x)| == |s| + 1
  {
  }

  lemma PlaceAt<T>(s: seq<T>, i: nat, x: T, j: nat)
    requires i <= |s| && j <= |s|
    ensures |Place(s, i, x)| == |s| + 1
    ensures Place(s, i, x)[j] == if j < i then s[j] else if j == i then x else s[j - 1]
  {
  }

  lemma PlaceDistinct<T>(s: seq<T>, i: nat, x: T)
    requires i <= |s| && NoDuplicates(s) && x !in s
    ensures NoDuplicates(Place(s, i, x)) && forall y :: y in Place(s, i, x) <==> y in s || y == x
  {
    hide Place;
    PlaceAt(s, i, x, i);
    var r := Place(s, i, x);
    assert r[i] == x;
    forall y | y in s ensures y in r {
      var o :| 0 <= o < |s| && s[o] == y;
      PlaceAt(s, i, x, if o < i then o else o + 1);
    }
    forall y | y in r ensures y in s || y == x {
      var o :| 0 <= o < |r| && r[o] == y;
      PlaceAt(s, i, x, o);
    }
    forall p, q | 0 <= p < q < |r| ensures r[p] != r[q] {
      PlaceAt(s, i, x, p);
      PlaceAt(s, i, x, q);
    }
  }

  lemma RemoveAscending(keys: seq<string>, i: nat)
    requires Ascending(keys) && i < |keys|
    ensures Ascending(RemoveAt(keys, i))
  {
    var ks := RemoveAt(keys, i);
    assert forall j :: 0 <= j < |ks| ==> ks[j] == keys[if j < i then j else j + 1];
  }

  lemma ViewRemove(keys: seq<string>, values: seq<seq<int>>, i: nat)
    requires |keys| == |values| && NoDuplicates(keys) && i < |keys|
    ensures NoDuplicates(RemoveAt(keys, i))
    ensures View(RemoveAt(keys, i), RemoveAt(values, i)) == View(keys, values) - {keys[i]}
  {
    var m, ks, vs := View(keys, values) - {keys[i]}, RemoveAt(keys, i), RemoveAt(values, i);
    assert forall j :: 0 <= j < |ks| ==> ks[j] == keys[if j < i then j else j + 1];
    forall k | k in m ensures k in ks {
      var o :| 0 <= o < |keys| && keys[o] == k;
      assert ks[if o < i then o else o - 1] == k;
    }
    OnlyView(ks, vs, m);
  }

  /** Seen as a map, an insert is the hash index's insert. */
  lemma InsertAsHash(c: Composite, key: string, pos: int)
    requires Shaped(c)
    ensures Shaped(CompositeInsert(c, key, pos))
    ensures AsHash(CompositeInsert(c, key, pos)) == HashInsert(AsHash(c), key, pos)
  {
    var i := LowerBound(c.keys, key);
    LookupIsView(c, key);
    AscendingDistinct(c.keys);
    if Present(c, key) {
      ViewUpdate(c.keys, c.values, i, c.values[i] + [pos]);
    } else {
      InsertAscending(c.keys, key);
      ViewInsert(c.keys, c.values, i, key, [pos]);
      assert [] + [pos] == [pos];
    }
  }

  /** Seen as a map, a delete takes the same position out, keeping the order of the others. */
  lemma DeleteAsHash(c: Composite, pos: int)
    requires CompositeValid(c) && pos in c.reverse
    ensures Shaped(CompositeDelete(c, pos))
    ensures AsHash(CompositeDelete(c, pos)) == TakeOut(AsHash(c), pos, DropFirst(CompositeLookup(c, c.reverse[pos]), pos))
  {
    var key := c.reverse[pos];
    var i := LowerBound(c.keys, key);
    LookupIsView(c, key);
    AscendingDistinct(c.keys);
    assert pos in HashLookup(AsHash(c), key);
    var rest := DropFirst(c.values[i], pos);
    if rest == [] {
      RemoveAscending(c.keys, i);
      ViewRemove(c.keys, c.values, i);
    } else {
      ViewUpdate(c.keys, c.values, i, rest);
    }
  }

  /** An insert keeps the composite index valid exactly when the position is not yet in it. */
  lemma CompositeInsertIffFresh(c: Composite, key: string, pos: int)
    requires CompositeValid(c)
    ensures CompositeValid(CompositeInsert(c, key, pos)) <==> pos !in c.reverse
  {
    InsertAsHash(c, key, pos);
    HashInsertIffFresh(AsHash(c), key, pos);
  }

  lemma CompositeDeleteKeeps(c: Composite, pos: int)
    requires CompositeValid(c)
    ensures CompositeValid(CompositeDelete(c, pos)) && CompositeDelete(c, pos).reverse == c.reverse - {pos}
  {
    if pos in c.reverse {
      var list := CompositeLookup(c, c.reverse[pos]);
      DeleteAsHash(c, pos);
      LookupIsView(c, c.reverse[pos]);
      assert NoDuplicates(HashLookup(AsHash(c), c.reverse[pos]));
      DropFirstDistinct(list, pos);
      TakeOutKeeps(AsHash(c), pos, DropFirst(list, pos));
    } else {
      assert c.reverse - {pos} == c.reverse;
    }
  }

  // ----- the two side by side

  datatype Op = Insert(key: string, pos: int) | Delete(pos: int)

  function HashStep(h: Hash, op: Op): Hash {
    match op
    case Insert(key, pos) => HashInsert(h, key, pos)
    case Delete(pos) => HashDelete(h, pos)
  }

  function CompositeStep(c: Composite, op: Op): (r: Composite)
    requires |c.keys| == |c.values|
    ensures |r.keys| == |r.values|
  {
    match op
    case Insert(key, pos) => CompositeInsert(c, key, pos)
    case Delete(pos) => CompositeDelete(c, pos)
  }

  function HashHistory(ops: seq<Op>): Hash {
    if ops == [] then EMPTY_HASH else HashStep(HashHistory(ops[..|ops| - 1]), ops[|ops| - 1])
  }

  function CompositeHistory(ops: seq<Op>): (c: Composite)
    ensures |c.keys| == |c.values|
  {
    if ops == [] then EMPTY_COMPOSITE else CompositeStep(CompositeHistory(ops[..|ops| - 1]), ops[|ops| - 1])
  }

  /** The key each position has after the operations, whatever index keeps them. */
  function Live(ops: seq<Op>): map<int, string> {
    if ops == [] then map[] else
    var before := Live(ops[..|ops| - 1]);
    match ops[|ops| - 1]
    case Insert(key, pos) => before[pos := key]
    case Delete(pos) => before - {pos}
  }

  /** Positions are inserted only while they are free. */
  ghost predicate FreshInserts(ops: seq<Op>) {
    ops != [] ==>
      var before, last := ops[..|ops| - 1], ops[|ops| - 1];
      FreshInserts(before) && (last.Insert? ==> last.pos !in Live(before))
  }

  lemma {:induction false} HistoriesValid(ops: seq<Op>)
    requires FreshInserts(ops)
    ensures HashValid(HashHistory(ops)) && HashHistory(ops).reverse == Live(ops)
    ensures CompositeValid(CompositeHistory(ops)) && CompositeHistory(ops).reverse == Live(ops)
  {
    if ops != [] {
      var before, last := ops[..|ops| - 1], ops[|ops| - 1];
      HistoriesValid(before);
      var h, c := HashHistory(before), CompositeHistory(before);
      match last
      case Insert(key, pos) =>
        HashInsertIffFresh(h, key, pos);
        CompositeInsertIffFresh(c, key, pos);
      case Delete(pos) =>
        HashDeleteKeeps(h, pos);
        CompositeDeleteKeeps(c, pos);
    }
  }

  ghost function PositionsOf(live: map<int, string>, key: string): set<int> {
    set p | p in live && live[p] == key
  }

  /** After any history of inserts at free positions and deletes, both indexes answer every
      lookup with the live positions of the key, each once. */
  lemma LookupsAgree(ops: seq<Op>, key: string)
    requires FreshInserts(ops)
    ensures Members(HashLookup(HashHistory(ops), key)) == PositionsOf(Live(ops), key)
    ensures Members(CompositeLookup(CompositeHistory(ops), key)) == PositionsOf(Live(ops), key)
    ensures NoDuplicates(HashLookup(HashHistory(ops), key)) && NoDuplicates(CompositeLookup(CompositeHistory(ops), key))
  {
    HistoriesValid(ops);
    LookupIsView(CompositeHistory(ops), key);
    ValidAnswers(HashHistory(ops), key);
    ValidAnswers(AsHash(CompositeHistory(ops)), key);
  }

  lemma ValidAnswers(h: Hash, key: string)
    requires HashValid(h)
    ensures Members(HashLookup(h, key)) == PositionsOf(h.reverse, key) && NoDuplicates(HashLookup(h, key))
    ensures key in h.data <==> PositionsOf(h.reverse, key) != {}
  {
    forall p: int ensures p in Members(HashLookup(h, key)) <==> p in PositionsOf(h.reverse, key) {
      assert p in HashLookup(h, key) <==> p in h.reverse && h.reverse[p] == key;
    }
    if key in h.data { assert h.data[key][0] in PositionsOf(h.reverse, key); }
  }

  // ----- rebuilding

  /** A row of the table: deleted, or live with its composite key. */
  datatype Row = Dead | Alive(key: string)

  function LiveKeys(rows: seq<Row>): map<int, string> {
    map i | 0 <= i < |rows| && rows[i].Alive? :: rows[i].key
  }

  /** The live rows inserted one by one. */
  function Inserts(rows: seq<Row>): seq<Op> {
    if rows == [] then [] else
    var n := |rows| - 1;
    Inserts(rows[..n]) + if rows[n].Alive? then [Insert(rows[n].key, n)] else []
  }

  lemma LiveKeysPush(rows: seq<Row>)
    requires rows != []
    ensures var n := |rows| - 1;
      n !in LiveKeys(rows[..n]) && LiveKeys(rows) == if rows[n].Alive? then LiveKeys(rows[..n])[n := rows[n].key] else LiveKeys(rows[..n])
  {
  }

  lemma {:induction false} InsertsLive(rows: seq<Row>)
    ensures FreshInserts(Inserts(rows)) && Live(Inserts(rows)) == LiveKeys(rows)
  {
    if rows != [] {
      var n := |rows| - 1;
      InsertsLive(rows[..n]);
      var before := Inserts(rows[..n]);
      LiveKeysPush(rows);
      if rows[n].Alive? {
        hide LiveKeys;
        assert (before + [Insert(rows[n].key, n)])[..|before|] == before;
      } else {
        assert before + [] == before;
      }
    }
  }

  datatype Entry = Entry(key: string, pos: int)

  predicate KeyLess(a: Entry, b: Entry) {
    Less(a.key, b.key)
  }

  lemma KeyLessOrders()
    ensures Ordering(KeyLess)
  {
    forall x, y | KeyLess(x, y) ensures !KeyLess(y, x) {
      Trichotomy(x.key, y.key);
    }
    forall x, y, z | KeyLess(x, z) && !KeyLess(x, y) ensures KeyLess(y, z) {
      Trichotomy(x.key, y.key);
      if Less(y.key, x.key) { Transitive(y.key, x.key, z.key); }
    }
  }

  lemma StillDistinct<T>(s: seq<T>, t: seq<T>)
    requires NoDuplicates(s) && multiset(s) == multiset(t)
    ensures NoDuplicates(t)
  {
    forall i, j | 0 <= i < j < |t|
      ensures t[i] != t[j]
    {
      var x := t[i];
      assert t == t[..i] + [t[i]] + t[i + 1..j] + [t[j]] + t[j + 1..];
      CountOnce(s, x);
    }
  }

  lemma {:induction false} CountOnce<T>(s: seq<T>, x: T)
    requires NoDuplicates(s)
    ensures multiset(s)[x] <= 1
  {
    if s != [] {
      assert s == [s[0]] + s[1..];
      CountOnce(s[1..], x);
      if s[0] == x { assert x !in s[1..]; }
    }
  }

  /** A key not below any of the keys so far is found, or goes, at the end. */
  lemma AtEnd(keys: seq<string>, key: string)
    requires Ascending(keys) && (keys != [] ==> !Less(key, keys[|keys| - 1]))
    ensures LowerBound(keys, key) == if keys != [] && keys[|keys| - 1] == key then |keys| - 1 else |keys|
  {
    if keys != [] {
      var n := |keys| - 1;
      Trichotomy(key, keys[n]);
      var i := LowerBound(keys, key);
      if i < n {
        if Less(keys[n], key) { Transitive(keys[i], keys[n], key); }
      } else if keys[n] == key {
        FoundAt(keys, n);
      }
    }
  }

  // ----- the classes

  /** `sort.SearchStrings`. */
  method SearchStrings(keys: seq<string>, key: string) returns (i: nat)
    requires Ascending(keys)
    ensures i == LowerBound(keys, key)
  {
    i := 0;
    var j := |keys|;
    while i < j
      invariant i <= j <= |keys|
      invariant forall m :: 0 <= m < i ==> Less(keys[m], key)
      invariant j < |keys| ==> !Less(keys[j], key)
    {
      var h := (i + j) / 2;
      if Less(keys[h], key) {
        forall m | 0 <= m < h ensures Less(keys[m], key) {
          Transitive(keys[m], keys[h], key);
        }
        i := h + 1;
      } else {
        j := h;
      }
    }
  }

  class CompositeIndex {
    var keys: seq<string>
    var values: seq<seq<int>>
    var reverse: map<int, string>

    ghost function Model(): Composite
      reads this
    {
      Composite(keys, values, reverse)
    }

    constructor ()
      ensures Model() == EMPTY_COMPOSITE
    {
      keys, values, reverse := [], [], map[];
    }

    method Lookup(key: string) returns (list: seq<int>, ok: bool)
      requires Shaped(Model())
      ensures list == CompositeLookup(Model(), key) && ok == Present(Model(), key)
    {
      var i := SearchStrings(keys, key);
      if i >= |keys| || keys[i] != key {
        return [], false;
      }
      return values[i], true;
    }

    method InsertKey(key: string, pos: int)
      requires Shaped(Model())
      modifies this
      ensures Shaped(Model()) && Model() == CompositeInsert(old(Model()), key, pos)
    {
      InsertAsHash(Model(), key, pos);
      var i := SearchStrings(keys, key);
      if i < |keys| && keys[i] == key {
        values := values[i := values[i] + [pos]];
      } else {
        keys := Place(keys, i, key);
        values := Place(values, i, [pos]);
      }
      reverse := reverse[pos := key];
    }

    method DeletePosition(pos: int)
      requires Shaped(Model())
      modifies this
      ensures Model() == CompositeDelete(old(Model()), pos)
    {
      if pos !in reverse {
        return;
      }
      var key := reverse[pos];
      reverse := reverse - {pos};
      var i := SearchStrings(keys, key);
      if i < |keys| && keys[i] == key {
        var rest := RemoveFirst(values[i], pos);
        if rest == [] {
          keys := RemoveAt(keys, i);
          values := RemoveAt(values, i);
        } else {
          values := values[i := rest];
        }
      }
    }

    /** `Rebuild` answers as inserting the keys of the live rows one by one. */
    method Rebuild(rows: seq<Row>)
      modifies this
      ensures CompositeValid(Model()) && reverse == LiveKeys(rows)
      ensures forall key :: Members(CompositeLookup(Model(), key))
                         == Members(CompositeLookup(CompositeHistory(Inserts(rows)), key))
    {
      var entries := CollectEntries(rows);
      KeyLessOrders();
      var sorted := Sort(entries, KeyLess);
      StillDistinct(entries, sorted);
      SameMembers(entries, sorted);
      assert forall e :: e in sorted <==> e in Members(sorted);
      assert forall e :: e in entries <==> e in Members(entries);
      EntriesDescribe(sorted, LiveKeys(rows));
      keys, values := GroupSorted(sorted, LiveKeys(rows));
      reverse := LiveKeys(rows);
      InsertsLive(rows);
      forall key
        ensures Members(CompositeLookup(Model(), key)) == Members(CompositeLookup(CompositeHistory(Inserts(rows)), key))
      {
        LookupsAgree(Inserts(rows), key);
        LookupIsView(Model(), key);
        ValidAnswers(AsHash(Model()), key);
      }
    }
  }

  /** The first loop of `Rebuild`. */
  method CollectEntries(rows: seq<Row>) returns (entries: seq<Entry>)
    ensures NoDuplicates(entries)
    ensures forall e :: e in entries <==> e.pos in LiveKeys(rows) && LiveKeys(rows)[e.pos] == e.key
  {
    entries := [];
    for i := 0 to |rows|
      invariant NoDuplicates(entries)
      invariant forall e :: e in entries <==> 0 <= e.pos < i && rows[e.pos].Alive? && rows[e.pos].key == e.key
    {
      if rows[i].Alive? {
        entries := entries + [Entry(rows[i].key, i)];
      }
    }
  }

  ghost predicate Describes(entries: seq<Entry>, live: map<int, string>) {
    && (forall i, j :: 0 <= i < j < |entries| ==> entries[i].pos != entries[j].pos)
    && (forall i :: 0 <= i < |entries| ==> entries[i].pos in live && live[entries[i].pos] == entries[i].key)
    && forall p :: p in live ==> Entry(live[p], p) in entries
  }

  lemma EntriesDescribe(entries: seq<Entry>, live: map<int, string>)
    requires NoDuplicates(entries) && forall e :: e in entries <==> e.pos in live && live[e.pos] == e.key
    ensures Describes(entries, live)
  {
    forall i | 0 <= i < |entries|
      ensures entries[i].pos in live && live[entries[i].pos] == entries[i].key
    {
      assert entries[i] in entries;
    }
  }

  /** An entry whose key is not below any key so far is inserted by extending the lists. */
  lemma ExtendIsInsert(c: Composite, e: Entry)
    requires Shaped(c) && (c.keys != [] ==> !Less(e.key, c.keys[|c.keys| - 1]))
    ensures var n := |c.keys|;
            CompositeInsert(c, e.key, e.pos) ==
              if n > 0 && c.keys[n - 1] == e.key
              then Composite(c.keys, c.values[n - 1 := c.values[n - 1] + [e.pos]], c.reverse[e.pos := e.key])
              else Composite(c.keys + [e.key], c.values + [[e.pos]], c.reverse[e.pos := e.key])
  {
    AtEnd(c.keys, e.key);
    assert c.keys[..|c.keys|] == c.keys && c.values[..|c.values|] == c.values;
  }

  /** The lists hold the first `i` entries. */
  ghost predicate Grouped(entries: seq<Entry>, live: map<int, string>, i: nat, c: Composite)
    requires i <= |entries|
  {
    && CompositeValid(c)
    && (c.keys != [] <==> i > 0)
    && (i > 0 ==> c.keys[|c.keys| - 1] == entries[i - 1].key)
    && (forall j :: 0 <= j < i ==> entries[j].pos in c.reverse)
    && (forall j :: i <= j < |entries| ==> entries[j].pos !in c.reverse)
    && forall p :: p in c.reverse ==> p in live && c.reverse[p] == live[p]
  }

  lemma GroupedNext(entries: seq<Entry>, live: map<int, string>, i: nat, c: Composite)
    requires Sorted(entries, KeyLess) && Describes(entries, live) && i < |entries| && Grouped(entries, live, i, c)
    ensures Grouped(entries, live, i + 1, CompositeInsert(c, entries[i].key, entries[i].pos))
  {
    hide CompositeValid, CompositeInsert, Describes, Less;
    var e := entries[i];
    CompositeInsertIffFresh(c, e.key, e.pos);
    GroupedShape(c);
    GroupedOrder(entries, i);
    ExtendIsInsert(c, e);
    GroupedReverse(entries, live, i, c.reverse);
  }

  lemma GroupedShape(c: Composite)
    requires CompositeValid(c)
    ensures Shaped(c)
  {
  }

  lemma GroupedOrder(entries: seq<Entry>, i: nat)
    requires Sorted(entries, KeyLess) && 0 <= i < |entries|
    ensures i > 0 ==> !Less(entries[i].key, entries[i - 1].key)
  {
    hide Less;
  }

  lemma GroupedReverse(entries: seq<Entry>, live: map<int, string>, i: nat, reverse: map<int, string>)
    requires Describes(entries, live) && i < |entries|
    requires forall j :: 0 <= j < i ==> entries[j].pos in reverse
    requires forall j :: i <= j < |entries| ==> entries[j].pos !in reverse
    requires forall p :: p in reverse ==> p in live && reverse[p] == live[p]
    ensures var more := reverse[entries[i].pos := entries[i].key];
      && (forall j :: 0 <= j < i + 1 ==> entries[j].pos in more)
      && (forall j :: i + 1 <= j < |entries| ==> entries[j].pos !in more)
      && forall p :: p in more ==> p in live && more[p] == live[p]
  {
  }

  lemma GroupedAll(entries: seq<Entry>, live: map<int, string>, c: Composite)
    requires Describes(entries, live) && Grouped(entries, live, |entries|, c)
    ensures c.reverse == live
  {
    forall p | p in live ensures p in c.reverse {
      var j :| 0 <= j < |entries| && entries[j] == Entry(live[p], p);
    }
    forall p | p in c.reverse ensures p in live && c.reverse[p] == live[p] {
    }
  }

  /** The first `i` entries inserted one by one. */
  ghost function InsertedFirst(entries: seq<Entry>, i: nat): (c: Composite)
    requires i <= |entries|
    ensures |c.keys| == |c.values|
  {
    if i == 0 then EMPTY_COMPOSITE else CompositeInsert(InsertedFirst(entries, i - 1), entries[i - 1].key, entries[i - 1].pos)
  }

  lemma {:induction false} InsertedGrouped(entries: seq<Entry>, live: map<int, string>, i: nat)
    requires Sorted(entries, KeyLess) && Describes(entries, live) && i <= |entries|
    ensures Grouped(entries, live, i, InsertedFirst(entries, i))
  {
    if i == 0 {
      assert HashValid(AsHash(EMPTY_COMPOSITE));
    } else {
      InsertedGrouped(entries, live, i - 1);
      GroupedNext(entries, live, i - 1, InsertedFirst(entries, i - 1));
    }
  }

  /** For entries in order, the next insert extends the last list or adds one. */
  lemma NextExtends(entries: seq<Entry>, live: map<int, string>, i: nat)
    requires Sorted(entries, KeyLess) && Describes(entries, live) && i < |entries|
    ensures var c, e, c' := InsertedFirst(entries, i), entries[i], InsertedFirst(entries, i + 1);
            && (c.keys == [] <==> i == 0)
            && if i == 0 || e.key != c.keys[|c.keys| - 1]
               then c'.keys == c.keys + [e.key] && c'.values == c.values + [[e.pos]]
               else c'.keys == c.keys && c'.values == c.values[|c.keys| - 1 := c.values[|c.keys| - 1] + [e.pos]]
  {
    InsertedGrouped(entries, live, i);
    ExtendIsInsert(InsertedFirst(entries, i), entries[i]);
  }

  /** The last loop of `Rebuild`: neighbours with one key share a list. */
  method GroupSorted(entries: seq<Entry>, ghost live: map<int, string>) returns (keys: seq<string>, values: seq<seq<int>>)
    requires Sorted(entries, KeyLess) && Describes(entries, live)
    ensures CompositeValid(Composite(keys, values, live))
  {
    hide Sorted, Describes, CompositeInsert;
    keys, values := [], [];
    for i := 0 to |entries|
      invariant keys == InsertedFirst(entries, i).keys && values == InsertedFirst(entries, i).values
    {
      var e := entries[i];
      NextExtends(entries, live, i);
      if i == 0 || e.key != keys[|keys| - 1] {
        keys := keys + [e.key];
        values := values + [[e.pos]];
      } else {
        values := values[|values| - 1 := values[|values| - 1] + [e.pos]];
      }
    }
    InsertedGrouped(entries, live, |entries|);
    GroupedAll(entries, live, InsertedFirst(entries, |entries|));
  }

  method Find(list: seq<int>, x: int) returns (k: nat)
    ensures k == IndexOf(list, x)
  {
    k := 0;
    while k < |list| && list[k] != x
      invariant k <= |list| && x !in list[..k]
    {
      k := k + 1;
    }
    FirstIndex(list, x, k);
  }

  lemma {:induction false} FirstIndex(list: seq<int>, x: int, k: nat)
    requires k <= |list| && x !in list[..k] && (k < |list| ==> list[k] == x)
    ensures k == IndexOf(list, x)
  {
    if k > 0 {
      assert list[0] in list[..k];
      assert forall y :: y in list[1..][..k - 1] ==> y in list[..k];
      FirstIndex(list[1..], x, k - 1);
    }
  }

  class HashIndex {
    var data: map<string, seq<int>>
    var reverse: map<int, string>

    ghost function Model(): Hash
      reads this
    {
      Hash(data, reverse)
    }

    constructor ()
      ensures Model() == EMPTY_HASH
    {
      data, reverse := map[], map[];
    }

    method Lookup(key: string) returns (list: seq<int>, ok: bool)
      ensures list == HashLookup(Model(), key) && ok == (key in data)
    {
      if key !in data {
        return [], false;
      }
      return data[key], true;
    }

    method InsertKey(key: string, pos: int)
      modifies this
      ensures Model() == HashInsert(old(Model()), key, pos)
    {
      data := data[key := (if key in data then data[key] else []) + [pos]];
      reverse := reverse[pos := key];
    }

    method DeletePosition(pos: int)
      modifies this
      ensures Model() == HashDelete(old(Model()), pos)
    {
      if pos !in reverse {
        return;
      }
      var key := reverse[pos];
      reverse := reverse - {pos};
      var positions := if key in data then data[key] else [];
      var i := Find(positions, pos);
      if i < |positions| {
        var last := |positions| - 1;
        data := data[key := positions[i := positions[last]][..last]];
      }
      if key !in data || data[key] == [] {
        data := data - {key};
      }
    }
  }
}
