/** The interval tree: bulk loading, deletion and the two searches.  Coordinates are reals. */
module Gist {
  import opened Sets
  import opened Sorting

  const CAPACITY: nat := 4

  datatype Mbr = Mbr(min: real, max: real)

  datatype Entry = Entry(key: string, pos: int, min: real, max: real)

  datatype Tree =
    | Leaf(mbr: Mbr, entries: seq<Entry>)
    | Inner(mbr: Mbr, children: seq<Tree>)

  const EMPTY: Tree := Leaf(Mbr(0.0, 0.0), [])

  function Union(a: Mbr, b: Mbr): (m: Mbr)
    ensures Within(a, m) && Within(b, m)
    ensures forall n :: Within(a, n) && Within(b, n) ==> Within(m, n)
  {
    Mbr(if a.min <= b.min then a.min else b.min, if a.max >= b.max then a.max else b.max)
  }

  predicate Within(a: Mbr, b: Mbr) {
    b.min <= a.min && a.max <= b.max
  }

  predicate MbrContains(m: Mbr, lo: real, hi: real) {
    m.min <= lo && m.max >= hi
  }

  predicate MbrOverlaps(m: Mbr, lo: real, hi: real) {
    m.min <= hi && m.max >= lo
  }

  predicate Overlaps(e: Entry, lo: real, hi: real) {
    e.max >= lo && e.min <= hi
  }

  function Box(e: Entry): Mbr {
    Mbr(e.min, e.max)
  }

  /** The smallest rectangle around a non-empty list of rectangles. */
  function Around(boxes: seq<Mbr>): (m: Mbr)
    requires boxes != []
    ensures forall i :: 0 <= i < |boxes| ==> Within(boxes[i], m)
  {
    if |boxes| == 1 then boxes[0]
    else
      var rest := Around(boxes[..|boxes| - 1]);
      assert forall i :: 0 <= i < |boxes| - 1 ==> boxes[i] == boxes[..|boxes| - 1][i];
      Union(rest, boxes[|boxes| - 1])
  }

  lemma {:induction false} AroundIsLeast(boxes: seq<Mbr>, m: Mbr)
    requires boxes != [] && forall i :: 0 <= i < |boxes| ==> Within(boxes[i], m)
    ensures Within(Around(boxes), m)
  {
    if |boxes| > 1 { AroundIsLeast(boxes[..|boxes| - 1], m); }
  }

  function Boxes(entries: seq<Entry>): seq<Mbr> {
    seq(|entries|, i requires 0 <= i < |entries| => Box(entries[i]))
  }

  function ChildBoxes(children: seq<Tree>): seq<Mbr> {
    seq(|children|, i requires 0 <= i < |children| => children[i].mbr)
  }

  /** `updateMBR`: a node that has become empty keeps the rectangle it had. */
  function Updated(t: Tree): Tree {
    match t
    case Leaf(_, es) => if es == [] then t else Leaf(Around(Boxes(es)), es)
    case Inner(_, cs) => if cs == [] then t else Inner(Around(ChildBoxes(cs)), cs)
  }

  // ----- contents and cover

  function Flatten(t: Tree): seq<Entry>
    decreases t, 1
  {
    match t
    case Leaf(_, es) => es
    case Inner(_, cs) => FlattenAll(cs)
  }

  function FlattenAll(ts: seq<Tree>): seq<Entry>
    decreases ts, 0
  {
    if ts == [] then [] else Flatten(ts[0]) + FlattenAll(ts[1..])
  }

  /** Every rectangle covers what is below it. */
  ghost predicate Covers(t: Tree)
    decreases t
  {
    match t
    case Leaf(m, es) => forall i :: 0 <= i < |es| ==> Within(Box(es[i]), m)
    case Inner(m, cs) => forall i :: 0 <= i < |cs| ==> Covers(cs[i]) && Within(cs[i].mbr, m)
  }

  lemma UpdatedCovers(t: Tree)
    requires t.Inner? ==> forall i :: 0 <= i < |t.children| ==> Covers(t.children[i])
    ensures Covers(Updated(t)) && Flatten(Updated(t)) == Flatten(t)
  {
    match t
    case Leaf(_, es) =>
      if es != [] {
        var m := Around(Boxes(es));
        forall i | 0 <= i < |es| ensures Within(Box(es[i]), m) {
          assert Boxes(es)[i] == Box(es[i]);
        }
      }
    case Inner(_, cs) =>
      if cs != [] {
        var m := Around(ChildBoxes(cs));
        forall i | 0 <= i < |cs| ensures Within(cs[i].mbr, m) {
          assert ChildBoxes(cs)[i] == cs[i].mbr;
        }
      }
  }

  lemma {:induction false} FlattenPush(ts: seq<Tree>, t: Tree)
    ensures FlattenAll(ts + [t]) == FlattenAll(ts) + Flatten(t)
  {
    if ts == [] {
      assert FlattenAll([t]) == Flatten(t) + FlattenAll([t][1..]);
      assert [] + [t] == [t] && Flatten(t) + [] == Flatten(t) && [] + Flatten(t) == Flatten(t);
    } else {
      assert (ts + [t])[0] == ts[0] && (ts + [t])[1..] == ts[1..] + [t];
      FlattenPush(ts[1..], t);
    }
  }

  lemma {:induction false} FlattenSplit(ts: seq<Tree>, k: nat)
    requires k < |ts|
    ensures FlattenAll(ts) == FlattenAll(ts[..k]) + Flatten(ts[k]) + FlattenAll(ts[k + 1..])
  {
    if k == 0 {
      assert FlattenAll(ts[..0]) == [] && [] + Flatten(ts[0]) == Flatten(ts[0]);
    } else {
      FlattenSplit(ts[1..], k - 1);
      assert ts[..k] == [ts[0]] + ts[1..][..k - 1];
      assert ts[1..][k - 1] == ts[k] && ts[1..][k..] == ts[k + 1..];
      assert ts[..k][0] == ts[0] && ts[..k][1..] == ts[1..][..k - 1];
    }
  }

  lemma FlattenTake(ts: seq<Tree>, k: nat)
    requires k < |ts|
    ensures multiset(FlattenAll(ts)) == multiset(Flatten(ts[k])) + multiset(FlattenAll(ts[..k] + ts[k + 1..]))
  {
    FlattenSplit(ts, k);
    FlattenConcat(ts[..k], ts[k + 1..]);
  }

  /** The order of the children does not matter to what they hold. */
  lemma {:induction false} FlattenPermuted(a: seq<Tree>, b: seq<Tree>)
    requires multiset(a) == multiset(b)
    ensures multiset(FlattenAll(a)) == multiset(FlattenAll(b))
    decreases |a|
  {
    if a == [] {
      assert |multiset(a)| == |a| && |multiset(b)| == |b|;
    } else {
      var k := MatchFirst(a, b);
      FlattenPermuted(a[1..], b[..k] + b[k + 1..]);
      FlattenTake(b, k);
    }
  }

  lemma {:induction false} FlattenConcat(a: seq<Tree>, b: seq<Tree>)
    ensures FlattenAll(a + b) == FlattenAll(a) + FlattenAll(b)
  {
    if a == [] {
      assert a + b == b;
    } else {
      assert (a + b)[0] == a[0] && (a + b)[1..] == a[1..] + b;
      FlattenConcat(a[1..], b);
    }
  }

  // ----- searching

  function Found(entries: seq<Entry>, lo: real, hi: real): seq<int> {
    if entries == [] then [] else
    (if Overlaps(entries[0], lo, hi) then [entries[0].pos] else []) + Found(entries[1..], lo, hi)
  }

  function SearchRange(t: Tree, lo: real, hi: real): seq<int>
    decreases t, 1
  {
    match t
    case Leaf(_, es) => Found(es, lo, hi)
    case Inner(_, cs) => SearchRangeAll(cs, lo, hi)
  }

  function SearchRangeAll(ts: seq<Tree>, lo: real, hi: real): seq<int>
    decreases ts, 0
  {
    if ts == [] then [] else
    (if MbrContains(ts[0].mbr, lo, hi) || MbrOverlaps(ts[0].mbr, lo, hi) then SearchRange(ts[0], lo, hi) else [])
    + SearchRangeAll(ts[1..], lo, hi)
  }

  function SearchOverlap(t: Tree, lo: real, hi: real): seq<int>
    decreases t, 1
  {
    match t
    case Leaf(_, es) => Found(es, lo, hi)
    case Inner(_, cs) => SearchOverlapAll(cs, lo, hi)
  }

  function SearchOverlapAll(ts: seq<Tree>, lo: real, hi: real): seq<int>
    decreases ts, 0
  {
    if ts == [] then [] else
    (if MbrOverlaps(ts[0].mbr, lo, hi) then SearchOverlap(ts[0], lo, hi) else []) + SearchOverlapAll(ts[1..], lo, hi)
  }

  lemma {:induction false} FoundConcat(a: seq<Entry>, b: seq<Entry>, lo: real, hi: real)
    ensures Found(a + b, lo, hi) == Found(a, lo, hi) + Found(b, lo, hi)
  {
    if a == [] {
      assert a + b == b;
    } else {
      hide Overlaps;
      var first := if Overlaps(a[0], lo, hi) then [a[0].pos] else [];
      assert (a + b)[0] == a[0] && (a + b)[1..] == a[1..] + b;
      FoundConcat(a[1..], b, lo, hi);
      assert first + (Found(a[1..], lo, hi) + Found(b, lo, hi)) == first + Found(a[1..], lo, hi) + Found(b, lo, hi);
    }
  }

  lemma {:induction false} FoundNone(es: seq<Entry>, lo: real, hi: real)
    requires forall i :: 0 <= i < |es| ==> !Overlaps(es[i], lo, hi)
    ensures Found(es, lo, hi) == []
  {
    if es != [] { FoundNone(es[1..], lo, hi); }
  }

  /** Nothing below a rectangle that misses the query can overlap it. */
  lemma {:induction false} MissNothing(t: Tree, lo: real, hi: real)
    requires Covers(t) && !MbrOverlaps(t.mbr, lo, hi)
    ensures Found(Flatten(t), lo, hi) == []
    decreases t, 1
  {
    match t
    case Leaf(m, es) =>
      forall i | 0 <= i < |es| ensures !Overlaps(es[i], lo, hi) {
        assert Within(Box(es[i]), m);
      }
      FoundNone(es, lo, hi);
    case Inner(m, cs) => MissNothingAll(cs, m, lo, hi);
  }

  lemma {:induction false} MissNothingAll(ts: seq<Tree>, m: Mbr, lo: real, hi: real)
    requires forall i :: 0 <= i < |ts| ==> Covers(ts[i]) && Within(ts[i].mbr, m)
    requires !MbrOverlaps(m, lo, hi)
    ensures Found(FlattenAll(ts), lo, hi) == []
    decreases ts, 0
  {
    if ts != [] {
      MissNothing(ts[0], lo, hi);
      MissNothingAll(ts[1..], m, lo, hi);
      FoundConcat(Flatten(ts[0]), FlattenAll(ts[1..]), lo, hi);
    }
  }

  /** Both searches find what a scan of all entries finds, in the same order, for every query,
      inverted bounds included. */
  lemma {:induction false} SearchesExact(t: Tree, lo: real, hi: real)
    requires Covers(t)
    ensures SearchRange(t, lo, hi) == Found(Flatten(t), lo, hi) == SearchOverlap(t, lo, hi)
    decreases t, 1
  {
    match t
    case Leaf(_, _) =>
    case Inner(_, cs) => SearchesExactAll(cs, lo, hi);
  }

  lemma {:induction false} SearchesExactAll(ts: seq<Tree>, lo: real, hi: real)
    requires forall i :: 0 <= i < |ts| ==> Covers(ts[i])
    ensures SearchRangeAll(ts, lo, hi) == Found(FlattenAll(ts), lo, hi) == SearchOverlapAll(ts, lo, hi)
    decreases ts, 0
  {
    if ts != [] {
      SearchesExact(ts[0], lo, hi);
      SearchesExactAll(ts[1..], lo, hi);
      FoundConcat(Flatten(ts[0]), FlattenAll(ts[1..]), lo, hi);
      if !MbrOverlaps(ts[0].mbr, lo, hi) { MissNothing(ts[0], lo, hi); }
    }
  }

  // ----- deleting

  predicate Has(es: seq<Entry>, pos: int) {
    es != [] && (es[0].pos == pos || Has(es[1..], pos))
  }

  /** The entries without the first one at `pos`. */
  function Drop(es: seq<Entry>, pos: int): seq<Entry> {
    if es == [] then [] else if es[0].pos == pos then es[1..] else [es[0]] + Drop(es[1..], pos)
  }

  /** `removeNode`: the tree afterwards, and whether the row was found. */
  function Remove(t: Tree, pos: int): (Tree, bool)
    decreases t, 1
  {
    match t
    case Leaf(m, es) => if Has(es, pos) then (Updated(Leaf(m, Drop(es, pos))), true) else (t, false)
    case Inner(m, cs) =>
      var (rest, found) := RemoveAmong(cs, pos);
      if found then (Updated(Inner(m, rest)), true) else (t, false)
  }

  function RemoveAmong(ts: seq<Tree>, pos: int): (seq<Tree>, bool)
    decreases ts, 0
  {
    if ts == [] then (ts, false) else
    var (t, found) := Remove(ts[0], pos);
    if found then ([t] + ts[1..], true) else
    var (rest, later) := RemoveAmong(ts[1..], pos);
    ([ts[0]] + rest, later)
  }

  lemma {:induction false} DropConcat(a: seq<Entry>, b: seq<Entry>, pos: int)
    ensures Has(a + b, pos) <==> Has(a, pos) || Has(b, pos)
    ensures Drop(a + b, pos) == if Has(a, pos) then Drop(a, pos) + b else a + Drop(b, pos)
  {
    if a == [] {
      assert a + b == b;
    } else {
      assert (a + b)[0] == a[0] && (a + b)[1..] == a[1..] + b;
      DropConcat(a[1..], b, pos);
      if a[0].pos != pos {
        var rest := Drop(a[1..] + b, pos);
        assert [a[0]] + rest == if Has(a[1..], pos) then ([a[0]] + Drop(a[1..], pos)) + b else ([a[0]] + a[1..]) + Drop(b, pos);
        assert [a[0]] + a[1..] == a;
      }
    }
  }

  lemma {:induction false} DropAbsent(es: seq<Entry>, pos: int)
    requires !Has(es, pos)
    ensures Drop(es, pos) == es
  {
    if es != [] { DropAbsent(es[1..], pos); }
  }

  /** A deletion drops exactly that entry, and the rectangles still cover what is left. */
  lemma {:induction false} RemoveDrops(t: Tree, pos: int)
    requires Covers(t)
    ensures Covers(Remove(t, pos).0) && Flatten(Remove(t, pos).0) == Drop(Flatten(t), pos)
    ensures Remove(t, pos).1 <==> Has(Flatten(t), pos)
    decreases t, 1
  {
    match t
    case Leaf(m, es) =>
      UpdatedCovers(Leaf(m, Drop(es, pos)));
      if !Has(es, pos) { DropAbsent(es, pos); }
    case Inner(m, cs) =>
      if !Has(FlattenAll(cs), pos) { DropAbsent(FlattenAll(cs), pos); }
      RemoveDropsAmong(cs, pos);
      UpdatedCovers(Inner(m, RemoveAmong(cs, pos).0));
  }

  lemma {:induction false} RemoveDropsAmong(ts: seq<Tree>, pos: int)
    requires forall i :: 0 <= i < |ts| ==> Covers(ts[i])
    ensures var r := RemoveAmong(ts, pos);
            && FlattenAll(r.0) == Drop(FlattenAll(ts), pos)
            && (forall i :: 0 <= i < |r.0| ==> Covers(r.0[i]))
            && (r.1 <==> Has(FlattenAll(ts), pos))
    decreases ts, 0
  {
    if ts != [] {
      var r := RemoveAmong(ts, pos);
      RemoveDrops(ts[0], pos);
      RemoveDropsAmong(ts[1..], pos);
      DropConcat(Flatten(ts[0]), FlattenAll(ts[1..]), pos);
      assert r.0[1..] == if Remove(ts[0], pos).1 then ts[1..] else RemoveAmong(ts[1..], pos).0;
    }
  }

  // ----- loading

  ghost predicate AllCover(ts: seq<Tree>) {
    forall i :: 0 <= i < |ts| ==> Covers(ts[i])
  }

  predicate EntryLess(a: Entry, b: Entry) {
    a.min < b.min
  }

  predicate TreeLess(a: Tree, b: Tree) {
    a.mbr.min < b.mbr.min
  }

  lemma SortedCover(ts: seq<Tree>, r: seq<Tree>)
    requires AllCover(ts) && multiset(ts) == multiset(r)
    ensures AllCover(r)
  {
    forall i | 0 <= i < |r| ensures Covers(r[i]) {
      assert r[i] in multiset(ts);
    }
  }

  /** How many levels of inner nodes stand above the leaves. */
  ghost predicate HeightAtMost(t: Tree, h: nat)
  {
    match t
    case Leaf(_, _) => true
    case Inner(_, cs) => h > 0 && forall i :: 0 <= i < |cs| ==> HeightAtMost(cs[i], h - 1)
  }

  ghost predicate AllHeight(ts: seq<Tree>, h: nat) {
    forall i :: 0 <= i < |ts| ==> HeightAtMost(ts[i], h)
  }

  method MakeInner(children: seq<Tree>, ghost h: nat) returns (t: Tree)
    requires AllCover(children) && AllHeight(children, h)
    ensures Covers(t) && Flatten(t) == FlattenAll(children) && HeightAtMost(t, h + 1)
  {
    var node := Inner(Mbr(0.0, 0.0), children);
    UpdatedCovers(node);
    t := Updated(node);
  }

  /** `bulkLoad`.  A chunk never has more than `CAPACITY` entries, so the code's recursive call for
      larger chunks is never made. */
  method BulkLoad(es: seq<Entry>) returns (t: Tree)
    ensures Covers(t) && multiset(Flatten(t)) == multiset(es) && HeightAtMost(t, 2)
  {
    var sorted := Sort(es, EntryLess);
    if |sorted| <= CAPACITY {
      UpdatedCovers(Leaf(Mbr(0.0, 0.0), sorted));
      return Updated(Leaf(Mbr(0.0, 0.0), sorted));
    }
    var chunkSize := (|sorted| + CAPACITY - 1) / CAPACITY;
    if chunkSize > CAPACITY {
      chunkSize := CAPACITY;
    }
    var children, i := [], 0;
    while i < |sorted|
      invariant i <= |sorted| && AllCover(children) && AllHeight(children, 0)
      invariant FlattenAll(children) == sorted[..i]
    {
      var end := if i + chunkSize > |sorted| then |sorted| else i + chunkSize;
      var chunk := sorted[i..end];
      assert |chunk| <= CAPACITY;
      var leaf := Leaf(Mbr(0.0, 0.0), chunk);
      UpdatedCovers(leaf);
      FlattenPush(children, Updated(leaf));
      assert sorted[..end] == sorted[..i] + chunk;
      children := children + [Updated(leaf)];
      i := end;
    }
    assert sorted[..i] == sorted;
    if |children| <= CAPACITY {
      t := MakeInner(children, 0);
    } else {
      t := BuildInternal(children);
    }
  }

  /** `buildInternal` over leaves.  Cutting into quarters leaves at most four parents, so the
      code's recursive call is never made and the tree has at most two inner levels. */
  method BuildInternal(leaves: seq<Tree>) returns (t: Tree)
    requires AllCover(leaves) && AllHeight(leaves, 0)
    ensures Covers(t) && multiset(Flatten(t)) == multiset(FlattenAll(leaves)) && HeightAtMost(t, 2)
  {
    var children := Sort(leaves, TreeLess);
    SortedCover(leaves, children);
    FlattenPermuted(leaves, children);
    forall i | 0 <= i < |children| ensures HeightAtMost(children[i], 0) {
      assert children[i] in multiset(leaves);
    }
    if |children| <= CAPACITY {
      t := MakeInner(children, 0);
      RaiseHeight(t, 1);
      return;
    }
    var parents := GroupInFours(children);
    t := MakeInner(parents, 1);
  }

  /** The loop of `buildInternal`: at most four groups of neighbours. */
  method GroupInFours(children: seq<Tree>) returns (parents: seq<Tree>)
    requires AllCover(children) && AllHeight(children, 0) && children != []
    ensures |parents| <= CAPACITY
    ensures AllCover(parents) && AllHeight(parents, 1) && FlattenAll(parents) == FlattenAll(children)
  {
    hide FlattenAll, Flatten, Covers, HeightAtMost;
    var chunkSize, i := (|children| + CAPACITY - 1) / CAPACITY, 0;
    parents := [];
    FlattenNone(children);
    while i < |children|
      invariant i <= |children| && AllCover(parents) && AllHeight(parents, 1)
      invariant FlattenAll(parents) == FlattenAll(children[..i])
      invariant |parents| <= CAPACITY
      invariant i < |children| ==>
                  || (|parents| == 0 && i == 0) || (|parents| == 1 && i == chunkSize)
                  || (|parents| == 2 && i == 2 * chunkSize) || (|parents| == 3 && i == 3 * chunkSize)
    {
      var end := if i + chunkSize > |children| then |children| else i + chunkSize;
      SliceKeeps(children, i, end, 0);
      var p := MakeInner(children[i..end], 0);
      ParentPushed(parents, p, children, i, end);
      parents := parents + [p];
      i := end;
    }
    assert children[..i] == children;
  }

  lemma FlattenNone(children: seq<Tree>)
    ensures FlattenAll(children[..0]) == [] && FlattenAll([]) == []
  {
  }

  lemma ParentPushed(parents: seq<Tree>, p: Tree, children: seq<Tree>, i: nat, end: nat)
    requires i <= end <= |children| && AllCover(parents) && AllHeight(parents, 1) && Covers(p) && HeightAtMost(p, 1)
    requires FlattenAll(parents) == FlattenAll(children[..i]) && Flatten(p) == FlattenAll(children[i..end])
    ensures AllCover(parents + [p]) && AllHeight(parents + [p], 1) && FlattenAll(parents + [p]) == FlattenAll(children[..end])
  {
    hide Covers, HeightAtMost, FlattenAll, Flatten;
    FlattenPush(parents, p);
    FlattenConcat(children[..i], children[i..end]);
    assert children[..end] == children[..i] + children[i..end];
  }

  lemma SliceKeeps(ts: seq<Tree>, i: nat, j: nat, h: nat)
    requires i <= j <= |ts| && AllCover(ts) && AllHeight(ts, h)
    ensures AllCover(ts[i..j]) && AllHeight(ts[i..j], h)
  {
    forall k | 0 <= k < j - i ensures Covers(ts[i..j][k]) && HeightAtMost(ts[i..j][k], h) {
      assert ts[i..j][k] == ts[i + k];
    }
  }

  lemma {:induction false} RaiseHeight(t: Tree, h: nat)
    requires HeightAtMost(t, h)
    ensures HeightAtMost(t, h + 1)
    decreases t
  {
    match t
    case Leaf(_, _) =>
    case Inner(_, cs) =>
      forall i | 0 <= i < |cs| ensures HeightAtMost(cs[i], h) {
        RaiseHeight(cs[i], h - 1);
      }
  }

  // ----- whole histories

  /** A table row: deleted, or live with the text and the interval of the indexed column. */
  datatype Row = Dead | Alive(key: string, min: real, max: real)

  function LiveEntries(rows: seq<Row>): seq<Entry> {
    if rows == [] then [] else
    var n := |rows| - 1;
    LiveEntries(rows[..n]) + if rows[n].Alive? then [Entry(rows[n].key, n, rows[n].min, rows[n].max)] else []
  }

  lemma {:induction false} LiveEntriesAre(rows: seq<Row>)
    ensures forall e :: e in LiveEntries(rows) <==> 0 <= e.pos < |rows| && rows[e.pos] == Alive(e.key, e.min, e.max)
    ensures DistinctPositions(LiveEntries(rows))
  {
    if rows != [] {
      LiveEntriesAre(rows[..|rows| - 1]);
    }
  }

  ghost predicate DistinctPositions(es: seq<Entry>) {
    forall i, j :: 0 <= i < j < |es| ==> es[i].pos != es[j].pos
  }

  function RemoveEach(t: Tree, ids: seq<int>): Tree {
    if ids == [] then t else Remove(RemoveEach(t, ids[..|ids| - 1]), ids[|ids| - 1]).0
  }

  /** The entries that survive a run of deletions. */
  function Survivors(es: seq<Entry>, ids: seq<int>): seq<Entry> {
    if es == [] then [] else if es[0].pos in ids then Survivors(es[1..], ids) else [es[0]] + Survivors(es[1..], ids)
  }

  lemma {:induction false} SurvivorsAre(es: seq<Entry>, ids: seq<int>)
    requires DistinctPositions(es)
    ensures DistinctPositions(Survivors(es, ids))
    ensures forall e :: e in Survivors(es, ids) <==> e in es && e.pos !in ids
  {
    if es != [] {
      SurvivorsAre(es[1..], ids);
      assert es == [es[0]] + es[1..];
      assert forall i :: 0 <= i < |es[1..]| ==> es[1..][i].pos != es[0].pos;
    }
  }

  lemma {:induction false} SurvivorsPush(es: seq<Entry>, ids: seq<int>, id: int)
    requires DistinctPositions(es)
    ensures Survivors(es, ids + [id]) == Drop(Survivors(es, ids), id)
  {
    if es != [] {
      SurvivorsPush(es[1..], ids, id);
      var rest := Survivors(es[1..], ids);
      if es[0].pos !in ids {
        assert ([es[0]] + rest)[1..] == rest;
        if es[0].pos == id {
          OtherPositions(es[1..], ids, id);
          DropAbsent(rest, id);
        }
      }
    }
  }

  lemma {:induction false} OtherPositions(es: seq<Entry>, ids: seq<int>, id: int)
    requires forall i :: 0 <= i < |es| ==> es[i].pos != id
    ensures !Has(Survivors(es, ids), id)
  {
    if es != [] {
      OtherPositions(es[1..], ids, id);
      assert ([es[0]] + Survivors(es[1..], ids))[1..] == Survivors(es[1..], ids);
    }
  }

  lemma {:induction false} RemoveEachKeeps(t: Tree, ids: seq<int>)
    requires Covers(t) && DistinctPositions(Flatten(t))
    ensures Covers(RemoveEach(t, ids)) && Flatten(RemoveEach(t, ids)) == Survivors(Flatten(t), ids)
  {
    if ids == [] {
      NoneGone(Flatten(t));
    } else {
      var before, last := ids[..|ids| - 1], ids[|ids| - 1];
      RemoveEachKeeps(t, before);
      RemoveDrops(RemoveEach(t, before), last);
      SurvivorsPush(Flatten(t), before, last);
      assert ids == before + [last];
    }
  }

  lemma {:induction false} NoneGone(es: seq<Entry>)
    ensures Survivors(es, []) == es
  {
    if es != [] { NoneGone(es[1..]); }
  }

  lemma {:induction false} FoundAre(es: seq<Entry>, lo: real, hi: real)
    requires DistinctPositions(es)
    ensures forall p :: p in Found(es, lo, hi) <==> exists i :: 0 <= i < |es| && es[i].pos == p && Overlaps(es[i], lo, hi)
    ensures NoDuplicates(Found(es, lo, hi))
  {
    if es != [] {
      FoundAre(es[1..], lo, hi);
      forall p ensures p in Found(es, lo, hi) <==> exists i :: 0 <= i < |es| && es[i].pos == p && Overlaps(es[i], lo, hi) {
        if p in Found(es[1..], lo, hi) {
          var i :| 0 <= i < |es[1..]| && es[1..][i].pos == p && Overlaps(es[1..][i], lo, hi);
          assert es[i + 1].pos == p;
        }
        if i :| 0 <= i < |es| && es[i].pos == p && Overlaps(es[i], lo, hi) {
          assert i > 0 ==> es[1..][i - 1] == es[i];
        }
      }
      assert es[0].pos !in Found(es[1..], lo, hi);
    }
  }

  /** The surviving rows whose interval overlaps the query. */
  ghost function Answer(rows: seq<Row>, ids: seq<int>, lo: real, hi: real): set<int> {
    set p | 0 <= p < |rows| && rows[p].Alive? && p !in ids && rows[p].max >= lo && rows[p].min <= hi
  }

  /** After a rebuild and any run of deletions, `SearchRange` returns exactly the surviving rows that
      overlap the query, each once, and `SearchOverlap` returns the same list. */
  lemma SearchAfterDeletions(rows: seq<Row>, t: Tree, ids: seq<int>, lo: real, hi: real)
    requires Covers(t) && multiset(Flatten(t)) == multiset(LiveEntries(rows))
    ensures var r := SearchRange(RemoveEach(t, ids), lo, hi);
            && r == SearchOverlap(RemoveEach(t, ids), lo, hi)
            && NoDuplicates(r) && Members(r) == Answer(rows, ids, lo, hi)
  {
    LiveEntriesAre(rows);
    SameMembers(Flatten(t), LiveEntries(rows));
    PositionsStayDistinct(LiveEntries(rows), Flatten(t));
    RemoveEachKeeps(t, ids);
    SearchesExact(RemoveEach(t, ids), lo, hi);
    var left := Survivors(Flatten(t), ids);
    SurvivorsAre(Flatten(t), ids);
    FoundAre(left, lo, hi);
    var r := Found(left, lo, hi);
    forall p ensures p in r <==> p in Answer(rows, ids, lo, hi) {
      AnswerOne(rows, Flatten(t), ids, lo, hi, p);
    }
  }

  lemma AnswerOne(rows: seq<Row>, es: seq<Entry>, ids: seq<int>, lo: real, hi: real, p: int)
    requires Members(es) == Members(LiveEntries(rows)) && DistinctPositions(es)
    ensures p in Found(Survivors(es, ids), lo, hi) <==> p in Answer(rows, ids, lo, hi)
  {
    var left := Survivors(es, ids);
    forall e ensures e in left <==> 0 <= e.pos < |rows| && rows[e.pos] == Alive(e.key, e.min, e.max) && e.pos !in ids {
      SurvivorsAre(es, ids);
      LiveEntriesAre(rows);
      assert e in es <==> e in Members(es);
      assert e in LiveEntries(rows) <==> e in Members(LiveEntries(rows));
    }
    SurvivorsAre(es, ids);
    FoundAre(left, lo, hi);
    FoundIff(rows, left, ids, lo, hi, p);
  }

  lemma FoundIff(rows: seq<Row>, left: seq<Entry>, ids: seq<int>, lo: real, hi: real, p: int)
    requires forall e :: e in left <==> 0 <= e.pos < |rows| && rows[e.pos] == Alive(e.key, e.min, e.max) && e.pos !in ids
    ensures (exists i :: 0 <= i < |left| && left[i].pos == p && Overlaps(left[i], lo, hi)) <==> p in Answer(rows, ids, lo, hi)
  {
    if i :| 0 <= i < |left| && left[i].pos == p && Overlaps(left[i], lo, hi) {
      assert left[i] in left;
    }
    if p in Answer(rows, ids, lo, hi) {
      var e := Entry(rows[p].key, p, rows[p].min, rows[p].max);
      assert e in left;
      var i :| 0 <= i < |left| && left[i] == e;
    }
  }

  lemma PositionsStayDistinct(s: seq<Entry>, t: seq<Entry>)
    requires DistinctPositions(s) && multiset(s) == multiset(t)
    ensures DistinctPositions(t)
  {
    forall i, j | 0 <= i < j < |t| ensures t[i].pos != t[j].pos {
      assert t[i] in multiset(s) && t[j] in multiset(s);
      if t[i] == t[j] {
        assert t == t[..i] + [t[i]] + t[i + 1..j] + [t[j]] + t[j + 1..];
        assert multiset(t)[t[i]] >= 2;
        AtMostOnce(s, t[i]);
      }
    }
  }

  lemma {:induction false} AtMostOnce(s: seq<Entry>, e: Entry)
    requires DistinctPositions(s)
    ensures multiset(s)[e] <= 1
  {
    if s != [] {
      assert s == [s[0]] + s[1..];
      AtMostOnce(s[1..], e);
      assert s[0] == e ==> e !in s[1..];
    }
  }

  // ----- the loops of the code

  method SearchLeaf(es: seq<Entry>, lo: real, hi: real, acc: seq<int>) returns (r: seq<int>)
    ensures r == acc + Found(es, lo, hi)
  {
    r := acc;
    for i := 0 to |es|
      invariant r + Found(es[i..], lo, hi) == acc + Found(es, lo, hi)
    {
      assert es[i..][0] == es[i] && es[i..][1..] == es[i + 1..];
      if es[i].max >= lo && es[i].min <= hi {
        r := r + [es[i].pos];
      }
    }
  }

  /** `searchRangeNode`. */
  method SearchRangeNode(t: Tree, lo: real, hi: real, acc: seq<int>) returns (r: seq<int>)
    ensures r == acc + SearchRange(t, lo, hi)
    decreases t
  {
    match t
    case Leaf(_, es) => r := SearchLeaf(es, lo, hi, acc);
    case Inner(_, cs) =>
      r := acc;
      for i := 0 to |cs|
        invariant r + SearchRangeAll(cs[i..], lo, hi) == acc + SearchRangeAll(cs, lo, hi)
      {
        assert cs[i..][0] == cs[i] && cs[i..][1..] == cs[i + 1..];
        if MbrContains(cs[i].mbr, lo, hi) || MbrOverlaps(cs[i].mbr, lo, hi) {
          r := SearchRangeNode(cs[i], lo, hi, r);
        }
      }
  }

  /** `searchOverlapNode`. */
  method SearchOverlapNode(t: Tree, lo: real, hi: real, acc: seq<int>) returns (r: seq<int>)
    ensures r == acc + SearchOverlap(t, lo, hi)
    decreases t
  {
    match t
    case Leaf(_, es) => r := SearchLeaf(es, lo, hi, acc);
    case Inner(_, cs) =>
      r := acc;
      for i := 0 to |cs|
        invariant r + SearchOverlapAll(cs[i..], lo, hi) == acc + SearchOverlapAll(cs, lo, hi)
      {
        assert cs[i..][0] == cs[i] && cs[i..][1..] == cs[i + 1..];
        if MbrOverlaps(cs[i].mbr, lo, hi) {
          r := SearchOverlapNode(cs[i], lo, hi, r);
        }
      }
  }

  lemma {:induction false} FirstHolder(ts: seq<Tree>, pos: int, k: nat)
    requires k <= |ts| && forall i :: 0 <= i < k ==> !Remove(ts[i], pos).1
    requires k < |ts| ==> Remove(ts[k], pos).1
    ensures RemoveAmong(ts, pos).1 <==> k < |ts|
    ensures k < |ts| ==> RemoveAmong(ts, pos).0 == ts[k := Remove(ts[k], pos).0]
  {
    if k > 0 {
      FirstHolder(ts[1..], pos, k - 1);
      assert k < |ts| ==> ts[1..][k - 1] == ts[k] && [ts[0]] + ts[1..][k - 1 := Remove(ts[k], pos).0] == ts[k := Remove(ts[k], pos).0];
    }
  }

  /** The leaf case of `removeNode`. */
  method RemoveFromLeaf(es: seq<Entry>, pos: int) returns (rest: seq<Entry>, found: bool)
    ensures rest == Drop(es, pos) && found == Has(es, pos)
  {
    hide Drop, Has;
    for i := 0 to |es|
      invariant forall j :: 0 <= j < i ==> es[j].pos != pos
    {
      if es[i].pos == pos {
        DropAt(es, pos, i);
        return es[..i] + es[i + 1..], true;
      }
    }
    DropAt(es, pos, |es|);
    return es, false;
  }

  lemma {:induction false} DropAt(es: seq<Entry>, pos: int, i: nat)
    requires i <= |es| && (forall j :: 0 <= j < i ==> es[j].pos != pos) && (i < |es| ==> es[i].pos == pos)
    ensures Drop(es, pos) == if i < |es| then es[..i] + es[i + 1..] else es
    ensures Has(es, pos) <==> i < |es|
  {
    if i > 0 {
      DropAt(es[1..], pos, i - 1);
      assert es == [es[0]] + es[1..];
      assert i < |es| ==> es[..i] + es[i + 1..] == [es[0]] + (es[1..][..i - 1] + es[1..][i..]);
    }
  }

  /** `removeNode`, which stops at the first child that held the row. */
  method RemoveNode(t: Tree, pos: int) returns (r: Tree, found: bool)
    ensures (r, found) == Remove(t, pos)
    decreases t
  {
    match t
    case Leaf(m, es) =>
      var rest;
      rest, found := RemoveFromLeaf(es, pos);
      return if found then Updated(Leaf(m, rest)) else t, found;
    case Inner(m, cs) =>
      for i := 0 to |cs|
        invariant forall j :: 0 <= j < i ==> !Remove(cs[j], pos).1
      {
        var child, ok := RemoveNode(cs[i], pos);
        if ok {
          FirstHolder(cs, pos, i);
          return Updated(Inner(m, cs[i := child])), true;
        }
      }
      FirstHolder(cs, pos, |cs|);
      return t, false;
  }

  class GistIndex {
    var root: Tree
    ghost var loaded: seq<Entry>
    ghost var rows: seq<Row>
    ghost var deleted: seq<int>

    /** The tree holds what the deletions since the last rebuild have left of the rows. */
    ghost predicate Valid()
      reads this
    {
      && multiset(loaded) == multiset(LiveEntries(rows)) && DistinctPositions(loaded)
      && Covers(root) && Flatten(root) == Survivors(loaded, deleted)
    }

    constructor ()
      ensures Valid() && rows == [] && deleted == []
    {
      root, loaded, rows, deleted := EMPTY, [], [], [];
    }

    method Rebuild(newRows: seq<Row>)
      modifies this
      ensures Valid() && rows == newRows && deleted == []
    {
      var entries := [];
      for i := 0 to |newRows|
        invariant entries == LiveEntries(newRows[..i])
      {
        assert newRows[..i + 1][..i] == newRows[..i];
        if newRows[i].Alive? {
          entries := entries + [Entry(newRows[i].key, i, newRows[i].min, newRows[i].max)];
        }
      }
      assert newRows[..|newRows|] == newRows;
      if entries == [] {
        root := EMPTY;
      } else {
        root := BulkLoad(entries);
      }
      rows, deleted, loaded := newRows, [], Flatten(root);
      LiveEntriesAre(rows);
      PositionsStayDistinct(entries, loaded);
      NoneGone(loaded);
    }

    method RemoveRow(pos: int)
      requires Valid()
      modifies this
      ensures Valid() && rows == old(rows) && deleted == old(deleted) + [pos]
    {
      RemoveDrops(root, pos);
      SurvivorsPush(loaded, deleted, pos);
      var ok;
      root, ok := RemoveNode(root, pos);
      deleted := deleted + [pos];
    }

    method SearchRows(lo: real, hi: real) returns (r: seq<int>)
      requires Valid()
      ensures NoDuplicates(r) && Members(r) == Answer(rows, deleted, lo, hi)
    {
      r := SearchRangeNode(root, lo, hi, []);
      SearchesExact(root, lo, hi);
      SurvivorsAre(loaded, deleted);
      FoundAre(Flatten(root), lo, hi);
      SameMembers(loaded, LiveEntries(rows));
      forall p ensures p in r <==> p in Answer(rows, deleted, lo, hi) {
        AnswerOne(rows, loaded, deleted, lo, hi, p);
      }
    }
  }
}
