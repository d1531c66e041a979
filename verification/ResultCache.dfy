/** The LRU cache of query results, with a time to live and invalidation by table. */
module ResultCaches {
  import opened Results
  import opened Sets

  datatype Cached<R> = Cached(result: R, tables: set<string>, createdAt: int)

  datatype Entry<R> = Entry(key: string, value: Cached<R>)

  /** The map, and the list from the most to the least recently used. */
  datatype State<R> = State(cache: map<string, Entry<R>>, lru: seq<Entry<R>>)

  datatype Limits = Limits(maxSize: nat, ttl: int)

  /** `NewResultCache` replaces sizes and times that are not positive. */
  function NewLimits(maxSize: int, ttl: int): (l: Limits)
    ensures l.maxSize > 0 && l.ttl > 0
  {
    Limits(if maxSize <= 0 then 256 else maxSize, if ttl <= 0 then 30_000_000_000 else ttl)
  }

  /** The entries that satisfy `keep`, in order. */
  function Select<R>(lru: seq<Entry<R>>, keep: Entry<R> -> bool): seq<Entry<R>> {
    if lru == [] then [] else
    if keep(lru[0]) then [lru[0]] + Select(lru[1..], keep) else Select(lru[1..], keep)
  }

  /** The list without the entry for `key`. */
  function Others<R>(lru: seq<Entry<R>>, key: string): seq<Entry<R>> {
    Select(lru, (e: Entry<R>) => e.key != key)
  }

  function Removed<R>(s: State<R>, key: string): State<R> {
    State(s.cache - {key}, Others(s.lru, key))
  }

  function Fronted<R>(s: State<R>, e: Entry<R>): State<R> {
    State(s.cache[e.key := e], [e] + Others(s.lru, e.key))
  }

  predicate Fresh<R>(s: State<R>, l: Limits, key: string, now: int) {
    key in s.cache && now - s.cache[key].value.createdAt <= l.ttl
  }

  function Get<R>(s: State<R>, l: Limits, key: string, now: int): State<R> {
    if key !in s.cache then s else if Fresh(s, l, key, now) then Fronted(s, s.cache[key]) else Removed(s, key)
  }

  function Answer<R>(s: State<R>, l: Limits, key: string, now: int): Option<R> {
    if Fresh(s, l, key, now) then Some(s.cache[key].value.result) else None
  }

  /** The eviction loop: the back of the list goes until there is room. */
  function Evicted<R>(s: State<R>, l: Limits): State<R>
    decreases |s.lru|
  {
    if s.lru == [] || |s.lru| < l.maxSize then s
    else Evicted(Shorter(s), l)
  }

  /** Without the last of the list. */
  function Shorter<R>(s: State<R>): State<R>
    requires s.lru != []
  {
    State(s.cache - {s.lru[|s.lru| - 1].key}, s.lru[..|s.lru| - 1])
  }

  function Put<R>(s: State<R>, l: Limits, key: string, v: Cached<R>): State<R> {
    Fronted(if key in s.cache then s else Evicted(s, l), Entry(key, v))
  }

  function Keep<R>(lru: seq<Entry<R>>, table: string): seq<Entry<R>> {
    Select(lru, (e: Entry<R>) => table !in e.value.tables)
  }

  function Invalidate<R>(s: State<R>, table: string): State<R> {
    State(map k | k in s.cache && table !in s.cache[k].value.tables :: s.cache[k], Keep(s.lru, table))
  }

  // ----- histories of calls

  datatype Op<R> =
    | DoPut(key: string, result: R, tables: set<string>, now: int)
    | DoGet(key: string, now: int)
    | DoInvalidate(table: string)
    | DoInvalidateAll

  function Step<R>(s: State<R>, l: Limits, op: Op<R>): State<R> {
    match op
    case DoPut(k, r, ts, now) => Put(s, l, k, Cached(r, ts, now))
    case DoGet(k, now) => Get(s, l, k, now)
    case DoInvalidate(t) => Invalidate(s, t)
    case DoInvalidateAll => State(map[], [])
  }

  function Run<R>(l: Limits, ops: seq<Op<R>>): State<R> {
    if ops == [] then State(map[], []) else Step(Run(l, ops[..|ops| - 1]), l, ops[|ops| - 1])
  }

  /** What a cache without limits would hold after the calls. */
  ghost function Ideal<R>(ops: seq<Op<R>>): map<string, Cached<R>>
  {
    if ops == [] then map[] else
    var before := Ideal(ops[..|ops| - 1]);
    match ops[|ops| - 1]
    case DoPut(k, r, ts, now) => before[k := Cached(r, ts, now)]
    case DoGet(_, _) => before
    case DoInvalidate(t) => map k | k in before && t !in before[k].tables :: before[k]
    case DoInvalidateAll => map[]
  }

  /** The call does not make a result stored for `key` stale. */
  ghost predicate Harmless<R>(op: Op<R>, key: string, v: Cached<R>) {
    match op
    case DoPut(k, _, _, _) => k != key
    case DoGet(_, _) => true
    case DoInvalidate(t) => t !in v.tables
    case DoInvalidateAll => false
  }

  /** `v` is what call `i` stored for `key`; no later call stored anything for `key` or
      invalidated any of its tables. */
  ghost predicate LatestAt<R>(ops: seq<Op<R>>, key: string, v: Cached<R>, i: int) {
    && 0 <= i < |ops| && ops[i] == DoPut(key, v.result, v.tables, v.createdAt)
    && forall j :: i < j < |ops| ==> Harmless(ops[j], key, v)
  }

  lemma {:induction false} IdealIsLatest<R>(ops: seq<Op<R>>, key: string, v: Cached<R>)
    ensures key in Ideal(ops) && Ideal(ops)[key] == v <==> exists i :: LatestAt(ops, key, v, i)
  {
    if ops != [] {
      var n := |ops| - 1;
      var before, last := ops[..n], ops[n];
      IdealIsLatest(before, key, v);
      if i :| LatestAt(before, key, v, i) {
        if Harmless(last, key, v) { assert LatestAt(ops, key, v, i); }
      }
      if i :| LatestAt(ops, key, v, i) {
        if i < n {
          assert Harmless(ops[n], key, v);
          assert LatestAt(before, key, v, i);
        }
      }
      if last == DoPut(key, v.result, v.tables, v.createdAt) { assert LatestAt(ops, key, v, n); }
    }
  }

  /** The key that call `i` used: a put always does, a get when it hits. */
  ghost function UsedBy<R>(l: Limits, ops: seq<Op<R>>, i: nat): Option<string>
    requires i < |ops|
  {
    match ops[i]
    case DoPut(k, _, _, _) => Some(k)
    case DoGet(k, now) => if Fresh(Run(l, ops[..i]), l, k, now) then Some(k) else None
    case _ => None
  }

  /** The latest call that used `key`, or -1. */
  ghost function LastUse<R>(l: Limits, ops: seq<Op<R>>, key: string): (i: int)
    ensures -1 <= i < |ops|
  {
    if ops == [] then -1
    else if UsedBy(l, ops, |ops| - 1) == Some(key) then |ops| - 1
    else LastUse(l, ops[..|ops| - 1], key)
  }

  // ----- the invariant

  ghost predicate DistinctKeys<R>(lru: seq<Entry<R>>) {
    forall i, j :: 0 <= i < j < |lru| ==> lru[i].key != lru[j].key
  }

  /** The map and the list hold the same entries. */
  ghost predicate Bijective<R>(s: State<R>) {
    && DistinctKeys(s.lru)
    && (forall e :: e in s.lru ==> e.key in s.cache && s.cache[e.key] == e)
    && forall k :: k in s.cache ==> s.cache[k] in s.lru && s.cache[k].key == k
  }

  ghost predicate Faithful<R>(s: State<R>, ideal: map<string, Cached<R>>) {
    forall k :: k in s.cache ==> k in ideal && ideal[k] == s.cache[k].value
  }

  ghost predicate ByRecency<R>(l: Limits, ops: seq<Op<R>>, lru: seq<Entry<R>>) {
    forall i, j :: 0 <= i < j < |lru| ==> LastUse(l, ops, lru[i].key) > LastUse(l, ops, lru[j].key)
  }

  lemma {:induction false} SelectMembers<R>(lru: seq<Entry<R>>, keep: Entry<R> -> bool, e: Entry<R>)
    ensures e in Select(lru, keep) <==> e in lru && keep(e)
  {
    if lru != [] {
      assert lru == [lru[0]] + lru[1..];
      SelectMembers(lru[1..], keep, e);
    }
  }

  lemma {:induction false} SelectShorter<R>(lru: seq<Entry<R>>, keep: Entry<R> -> bool)
    ensures |Select(lru, keep)| <= |lru| && ((exists e :: e in lru && !keep(e)) ==> |Select(lru, keep)| < |lru|)
  {
    if lru != [] {
      SelectShorter(lru[1..], keep);
      if e :| e in lru && !keep(e) {
        assert e != lru[0] ==> e in lru[1..];
      }
    }
  }

  /** What holds between every two entries of a list holds between the selected ones. */
  lemma {:induction false} SelectPairs<R>(lru: seq<Entry<R>>, keep: Entry<R> -> bool, rel: (Entry<R>, Entry<R>) -> bool)
    requires forall i, j :: 0 <= i < j < |lru| ==> rel(lru[i], lru[j])
    ensures var r := Select(lru, keep); forall i, j :: 0 <= i < j < |r| ==> rel(r[i], r[j])
  {
    if lru != [] {
      SelectPairs(lru[1..], keep, rel);
      var rest := Select(lru[1..], keep);
      forall j | 0 <= j < |rest| ensures rel(lru[0], rest[j]) {
        SelectMembers(lru[1..], keep, rest[j]);
        var k :| 0 <= k < |lru[1..]| && lru[1..][k] == rest[j];
        assert lru[k + 1] == rest[j];
      }
    }
  }

  lemma SelectDistinct<R>(lru: seq<Entry<R>>, keep: Entry<R> -> bool)
    requires DistinctKeys(lru)
    ensures DistinctKeys(Select(lru, keep))
  {
    SelectPairs(lru, keep, (a: Entry<R>, b: Entry<R>) => a.key != b.key);
  }

  lemma SelectInOrder<R>(l: Limits, ops: seq<Op<R>>, lru: seq<Entry<R>>, keep: Entry<R> -> bool)
    requires ByRecency(l, ops, lru)
    ensures ByRecency(l, ops, Select(lru, keep))
  {
    SelectPairs(lru, keep, (a: Entry<R>, b: Entry<R>) => LastUse(l, ops, a.key) > LastUse(l, ops, b.key));
  }

  lemma OthersFacts<R>(lru: seq<Entry<R>>, key: string)
    requires DistinctKeys(lru)
    ensures DistinctKeys(Others(lru, key)) && |Others(lru, key)| <= |lru|
    ensures (exists e :: e in lru && e.key == key) ==> |Others(lru, key)| < |lru|
  {
    var keep := (e: Entry<R>) => e.key != key;
    SelectDistinct(lru, keep);
    SelectShorter(lru, keep);
    if e :| e in lru && e.key == key { assert !keep(e); }
  }

  lemma OthersMember<R>(lru: seq<Entry<R>>, key: string, e: Entry<R>)
    ensures e in Others(lru, key) <==> e in lru && e.key != key
  {
    SelectMembers(lru, (x: Entry<R>) => x.key != key, e);
  }

  lemma RemovedBijective<R>(s: State<R>, key: string)
    requires Bijective(s)
    ensures Bijective(Removed(s, key))
  {
    var r := Removed(s, key);
    OthersFacts(s.lru, key);
    forall e | e in r.lru ensures e.key in r.cache && r.cache[e.key] == e {
      OthersMember(s.lru, key, e);
    }
    forall k | k in r.cache ensures r.cache[k] in r.lru && r.cache[k].key == k {
      OthersMember(s.lru, key, s.cache[k]);
    }
  }

  lemma FrontedBijective<R>(s: State<R>, e: Entry<R>)
    requires Bijective(s)
    ensures Bijective(Fronted(s, e))
    ensures |Fronted(s, e).lru| <= if e.key in s.cache then |s.lru| else |s.lru| + 1
  {
    var r, rest := Fronted(s, e), Others(s.lru, e.key);
    OthersFacts(s.lru, e.key);
    assert e.key in s.cache ==> s.cache[e.key] in s.lru;
    forall x | x in rest ensures x in s.lru && x.key != e.key {
      OthersMember(s.lru, e.key, x);
    }
    forall x | x in r.lru ensures x.key in r.cache && r.cache[x.key] == x {
      assert x == e || x in rest;
    }
    forall k | k in r.cache ensures r.cache[k] in r.lru && r.cache[k].key == k {
      if k != e.key { OthersMember(s.lru, e.key, s.cache[k]); }
    }
    assert forall i :: 0 <= i < |rest| ==> rest[i] in rest;
  }

  lemma BackBijective<R>(s: State<R>)
    requires Bijective(s) && s.lru != []
    ensures Bijective(Shorter(s))
  {
    var n, r := |s.lru| - 1, Shorter(s);
    forall e | e in r.lru ensures e.key in r.cache && r.cache[e.key] == e {
      var i :| 0 <= i < n && r.lru[i] == e;
      assert s.lru[i] in s.lru && s.lru[i].key != s.lru[n].key;
    }
    forall k | k in r.cache ensures r.cache[k] in r.lru && r.cache[k].key == k {
      var i :| 0 <= i < |s.lru| && s.lru[i] == s.cache[k];
      assert i != n && r.lru[i] == s.cache[k];
    }
  }

  /** The eviction loop cuts the list and leaves room for one more. */
  lemma {:induction false} EvictedFacts<R>(s: State<R>, l: Limits)
    requires Bijective(s) && l.maxSize > 0
    ensures Bijective(Evicted(s, l)) && |Evicted(s, l).lru| < l.maxSize
    ensures |Evicted(s, l).lru| <= |s.lru| && Evicted(s, l).lru == s.lru[..|Evicted(s, l).lru|]
    decreases |s.lru|
  {
    hide Bijective, Evicted;
    EvictedStep(s, l);
    if s.lru != [] && |s.lru| >= l.maxSize {
      BackBijective(s);
      var shorter := Shorter(s);
      EvictedFacts(shorter, l);
      assert s.lru[..|s.lru| - 1][..|Evicted(shorter, l).lru|] == s.lru[..|Evicted(shorter, l).lru|];
    }
  }

  lemma EvictedStep<R>(s: State<R>, l: Limits)
    ensures Evicted(s, l) == if s.lru == [] || |s.lru| < l.maxSize then s else Evicted(Shorter(s), l)
  {
  }

  /** Cutting the list keeps what the map says about the keys that are left. */
  lemma PrefixFaithful<R>(s: State<R>, e: State<R>, ideal: map<string, Cached<R>>)
    requires Bijective(s) && Bijective(e) && |e.lru| <= |s.lru| && e.lru == s.lru[..|e.lru|] && Faithful(s, ideal)
    ensures Faithful(e, ideal)
  {
    forall k | k in e.cache ensures k in ideal && ideal[k] == e.cache[k].value {
      assert e.cache[k] in e.lru && e.cache[k] in s.lru;
    }
  }

  lemma KeepBijective<R>(s: State<R>, table: string)
    requires Bijective(s)
    ensures Bijective(Invalidate(s, table)) && |Invalidate(s, table).lru| <= |s.lru|
  {
    var keep, r := (e: Entry<R>) => table !in e.value.tables, Invalidate(s, table);
    SelectDistinct(s.lru, keep);
    SelectShorter(s.lru, keep);
    forall e | e in r.lru ensures e.key in r.cache && r.cache[e.key] == e {
      SelectMembers(s.lru, keep, e);
    }
    forall k | k in r.cache ensures r.cache[k] in r.lru && r.cache[k].key == k {
      SelectMembers(s.lru, keep, s.cache[k]);
    }
  }

  ghost predicate Inv<R>(l: Limits, ops: seq<Op<R>>) {
    var s := Run(l, ops);
    Bijective(s) && |s.lru| <= l.maxSize && Faithful(s, Ideal(ops)) && ByRecency(l, ops, s.lru)
  }

  /** A call that used no key leaves the recency of all keys. */
  lemma RecencyKept<R>(l: Limits, ops: seq<Op<R>>, lru: seq<Entry<R>>)
    requires ops != [] && UsedBy(l, ops, |ops| - 1) == None && ByRecency(l, ops[..|ops| - 1], lru)
    ensures ByRecency(l, ops, lru)
  {
  }

  /** A call that used a key makes it the most recent. */
  lemma RecencyFronted<R>(l: Limits, ops: seq<Op<R>>, e: Entry<R>, rest: seq<Entry<R>>)
    requires ops != [] && UsedBy(l, ops, |ops| - 1) == Some(e.key) && ByRecency(l, ops[..|ops| - 1], rest)
    requires forall x :: x in rest ==> x.key != e.key
    ensures ByRecency(l, ops, [e] + rest)
  {
    var r := [e] + rest;
    forall i, j | 0 <= i < j < |r| ensures LastUse(l, ops, r[i].key) > LastUse(l, ops, r[j].key) {
      assert r[j] == rest[j - 1] && rest[j - 1] in rest;
      if i > 0 { assert r[i] == rest[i - 1] && rest[i - 1] in rest; }
    }
  }

  /** What a put starts from: the old state, or the old state with room made. */
  function Base<R>(s: State<R>, l: Limits, key: string): State<R> {
    if key in s.cache then s else Evicted(s, l)
  }

  lemma BaseFacts<R>(l: Limits, ops: seq<Op<R>>, key: string)
    requires l.maxSize > 0 && Inv(l, ops)
    ensures var b := Base(Run(l, ops), l, key);
            && Bijective(b) && |b.lru| + (if key in b.cache then 0 else 1) <= l.maxSize
            && Faithful(b, Ideal(ops)) && ByRecency(l, ops, b.lru)
  {
    var s := Run(l, ops);
    if key !in s.cache {
      EvictedFacts(s, l);
      PrefixFaithful(s, Evicted(s, l), Ideal(ops));
      PrefixInOrder(l, ops, s.lru, Evicted(s, l).lru);
    }
  }

  lemma PutKeeps<R>(l: Limits, ops: seq<Op<R>>)
    requires l.maxSize > 0 && ops != [] && ops[|ops| - 1].DoPut? && Inv(l, ops[..|ops| - 1])
    ensures Inv(l, ops)
  {
    var before, op := ops[..|ops| - 1], ops[|ops| - 1];
    var base, e := Base(Run(l, before), l, op.key), Entry(op.key, Cached(op.result, op.tables, op.now));
    BaseFacts(l, before, op.key);
    FrontedBijective(base, e);
    UseFronts(l, ops, base, e);
    assert Run(l, ops) == Fronted(base, e);
  }

  lemma PrefixInOrder<R>(l: Limits, ops: seq<Op<R>>, lru: seq<Entry<R>>, front: seq<Entry<R>>)
    requires ByRecency(l, ops, lru) && |front| <= |lru| && front == lru[..|front|]
    ensures ByRecency(l, ops, front)
  {
  }

  lemma UseFronts<R>(l: Limits, ops: seq<Op<R>>, base: State<R>, e: Entry<R>)
    requires ops != [] && UsedBy(l, ops, |ops| - 1) == Some(e.key)
    requires ByRecency(l, ops[..|ops| - 1], base.lru) && DistinctKeys(base.lru)
    ensures ByRecency(l, ops, Fronted(base, e).lru)
  {
    SelectInOrder(l, ops[..|ops| - 1], base.lru, (x: Entry<R>) => x.key != e.key);
    forall x | x in Others(base.lru, e.key) ensures x.key != e.key {
      OthersMember(base.lru, e.key, x);
    }
    RecencyFronted(l, ops, e, Others(base.lru, e.key));
  }

  lemma GetKeeps<R>(l: Limits, ops: seq<Op<R>>)
    requires ops != [] && ops[|ops| - 1].DoGet? && Inv(l, ops[..|ops| - 1])
    ensures Inv(l, ops)
  {
    var before, op := ops[..|ops| - 1], ops[|ops| - 1];
    var s := Run(l, before);
    if op.key !in s.cache {
      RecencyKept(l, ops, s.lru);
    } else if Fresh(s, l, op.key, op.now) {
      FrontedBijective(s, s.cache[op.key]);
      UseFronts(l, ops, s, s.cache[op.key]);
    } else {
      RemovedBijective(s, op.key);
      OthersFacts(s.lru, op.key);
      SelectInOrder(l, before, s.lru, (x: Entry<R>) => x.key != op.key);
      RecencyKept(l, ops, Others(s.lru, op.key));
    }
  }

  lemma InvalidateKeeps<R>(l: Limits, ops: seq<Op<R>>)
    requires ops != [] && ops[|ops| - 1].DoInvalidate? && Inv(l, ops[..|ops| - 1])
    ensures Inv(l, ops)
  {
    var before, op := ops[..|ops| - 1], ops[|ops| - 1];
    var s := Run(l, before);
    KeepBijective(s, op.table);
    SelectInOrder(l, before, s.lru, (e: Entry<R>) => op.table !in e.value.tables);
    RecencyKept(l, ops, Keep(s.lru, op.table));
  }

  /** After any history of calls, the map and the list hold the same entries, no more than
      the limit, ordered by recency, and each is what a limitless cache would hold. */
  lemma {:induction false} RunInv<R>(l: Limits, ops: seq<Op<R>>)
    requires l.maxSize > 0
    ensures Inv(l, ops)
  {
    if ops != [] {
      RunInv(l, ops[..|ops| - 1]);
      match ops[|ops| - 1]
      case DoPut(_, _, _, _) => PutKeeps(l, ops);
      case DoGet(_, _) => GetKeeps(l, ops);
      case DoInvalidate(_) => InvalidateKeeps(l, ops);
      case DoInvalidateAll =>
    }
  }

  /** A hit returns the most recent result put for that key, no older than the time to live,
      with no invalidation of any of its tables since. */
  lemma HitIsLatest<R>(l: Limits, ops: seq<Op<R>>, key: string, now: int) returns (v: Cached<R>, i: int)
    requires l.maxSize > 0 && Answer(Run(l, ops), l, key, now).Some?
    ensures LatestAt(ops, key, v, i) && Answer(Run(l, ops), l, key, now) == Some(v.result) && now - v.createdAt <= l.ttl
  {
    RunInv(l, ops);
    v := Run(l, ops).cache[key].value;
    IdealIsLatest(ops, key, v);
    i :| LatestAt(ops, key, v, i);
  }

  // ----- what the limits cost

  /** The keys used after call `i`. */
  ghost function UsedAfter<R>(l: Limits, ops: seq<Op<R>>, i: int): set<string>
    requires i >= -1
  {
    set j | i < j < |ops| && UsedBy(l, ops, j).Some? :: UsedBy(l, ops, j).value
  }

  /** Since its last use the key was asked for when its result had outlived its time. */
  ghost predicate Expired<R>(l: Limits, ops: seq<Op<R>>, key: string)
    requires key in Ideal(ops)
  {
    exists i :: LastUse(l, ops, key) < i < |ops| && ops[i].DoGet? && ops[i].key == key
                && ops[i].now - Ideal(ops)[key].createdAt > l.ttl
  }

  ghost predicate Excused<R>(l: Limits, ops: seq<Op<R>>, key: string)
    requires key in Ideal(ops)
  {
    Expired(l, ops, key) || |UsedAfter(l, ops, LastUse(l, ops, key))| >= l.maxSize
  }

  lemma UsedAfterGrows<R>(l: Limits, ops: seq<Op<R>>, i: int)
    requires ops != [] && i >= -1
    ensures UsedAfter(l, ops[..|ops| - 1], i) <= UsedAfter(l, ops, i)
  {
    var before := ops[..|ops| - 1];
    forall k | k in UsedAfter(l, before, i) ensures k in UsedAfter(l, ops, i) {
      var j :| i < j < |before| && UsedBy(l, before, j) == Some(k);
      assert before[..j] == ops[..j];
      assert UsedBy(l, ops, j) == Some(k);
    }
  }

  /** An excuse stays one while the key is not used and its result stands. */
  lemma ExcuseStays<R>(l: Limits, ops: seq<Op<R>>, key: string)
    requires ops != [] && key in Ideal(ops) && key in Ideal(ops[..|ops| - 1]) && Ideal(ops)[key] == Ideal(ops[..|ops| - 1])[key]
    requires LastUse(l, ops, key) == LastUse(l, ops[..|ops| - 1], key) && Excused(l, ops[..|ops| - 1], key)
    ensures Excused(l, ops, key)
  {
    var before, i := ops[..|ops| - 1], LastUse(l, ops, key);
    if Expired(l, before, key) {
      var j :| i < j < |before| && before[j].DoGet? && before[j].key == key
               && before[j].now - Ideal(before)[key].createdAt > l.ttl;
      assert ops[j] == before[j];
    } else {
      UsedAfterGrows(l, ops, i);
      SubsetSize(UsedAfter(l, before, i), UsedAfter(l, ops, i));
    }
  }

  ghost predicate LostOnlyWithExcuse<R>(l: Limits, ops: seq<Op<R>>) {
    forall k :: k in Ideal(ops) && k !in Run(l, ops).cache ==> Excused(l, ops, k)
  }

  /** The keys of a list ordered by recency that stand before its last entry were used later. */
  lemma {:induction false} KeysUsedAfter<R>(l: Limits, ops: seq<Op<R>>, lru: seq<Entry<R>>, i: int) returns (ks: set<string>)
    requires i >= -1 && DistinctKeys(lru) && forall e :: e in lru ==> LastUse(l, ops, e.key) > i
    ensures ks <= UsedAfter(l, ops, i) && |ks| == |lru| && forall k :: k in ks ==> exists e :: e in lru && e.key == k
  {
    if lru == [] {
      ks := {};
    } else {
      var n := |lru| - 1;
      assert lru == lru[..n] + [lru[n]];
      ks := KeysUsedAfter(l, ops, lru[..n], i);
      UseIsRecorded(l, ops, lru[n].key);
      assert lru[n].key !in ks;
      ks := ks + {lru[n].key};
    }
  }

  lemma {:induction false} UseIsRecorded<R>(l: Limits, ops: seq<Op<R>>, key: string)
    ensures var i := LastUse(l, ops, key); i >= 0 ==> UsedBy(l, ops, i) == Some(key)
  {
    if ops != [] {
      UseIsRecorded(l, ops[..|ops| - 1], key);
      var i := LastUse(l, ops, key);
      if 0 <= i < |ops| - 1 { assert ops[..|ops| - 1][..i] == ops[..i]; }
    }
  }

  /** A full list that has to make room loses only its least recently used entry. */
  lemma EvictsLast<R>(s: State<R>, l: Limits, key: string)
    requires Bijective(s) && 0 < l.maxSize && |s.lru| <= l.maxSize && key in s.cache && key !in Evicted(s, l).cache
    ensures |s.lru| == l.maxSize && s.lru[l.maxSize - 1].key == key
  {
    assert s.cache[key] in s.lru;
    if |s.lru| == l.maxSize {
      var n := l.maxSize - 1;
      var shorter := State(s.cache - {s.lru[n].key}, s.lru[..n]);
      assert Evicted(s, l) == Evicted(shorter, l) == shorter;
    }
  }

  lemma RestUsedAfter<R>(l: Limits, ops: seq<Op<R>>, s: State<R>, m: nat) returns (ks: set<string>)
    requires Bijective(s) && ByRecency(l, ops, s.lru) && |s.lru| == m + 1
    ensures ks <= UsedAfter(l, ops, LastUse(l, ops, s.lru[m].key)) && |ks| == m && ks <= s.cache.Keys
  {
    var i := LastUse(l, ops, s.lru[m].key);
    forall e | e in s.lru[..m] ensures LastUse(l, ops, e.key) > i && e in s.lru {
      var j :| 0 <= j < m && s.lru[j] == e;
    }
    ks := KeysUsedAfter(l, ops, s.lru[..m], i);
    forall k | k in ks ensures k in s.cache {
      var e :| e in s.lru[..m] && e.key == k;
      assert e in s.lru;
    }
  }

  lemma PutExcuses<R>(l: Limits, ops: seq<Op<R>>, key: string)
    requires l.maxSize > 0 && ops != [] && ops[|ops| - 1].DoPut? && Inv(l, ops[..|ops| - 1])
    requires key in Ideal(ops) && key in Run(l, ops[..|ops| - 1]).cache && key !in Run(l, ops).cache
    ensures Excused(l, ops, key)
  {
    var n := |ops| - 1;
    var before, op := ops[..n], ops[n];
    var s, i := Run(l, before), LastUse(l, before, key);
    assert op.key != key && op.key !in s.cache;
    EvictsLast(s, l, key);
    var ks := RestUsedAfter(l, before, s, l.maxSize - 1);
    UsedAfterGrows(l, ops, i);
    assert UsedBy(l, ops, n) == Some(op.key);
    assert op.key in UsedAfter(l, ops, i);
    SubsetSize(ks + {op.key}, UsedAfter(l, ops, i));
    assert LastUse(l, ops, key) == i;
  }

  /** A result that a limitless cache would still hold is missing only if it was found expired, or if
      at least `maxSize` other keys have been used since it was. */
  lemma {:induction false} LossesExcused<R>(l: Limits, ops: seq<Op<R>>)
    requires l.maxSize > 0
    ensures LostOnlyWithExcuse(l, ops)
  {
    if ops != [] {
      var before, op := ops[..|ops| - 1], ops[|ops| - 1];
      LossesExcused(l, before);
      RunInv(l, before);
      forall k | k in Ideal(ops) && k !in Run(l, ops).cache
        ensures Excused(l, ops, k)
      {
        LossExcused(l, ops, k);
      }
    }
  }

  lemma LossExcused<R>(l: Limits, ops: seq<Op<R>>, key: string)
    requires l.maxSize > 0 && ops != [] && Inv(l, ops[..|ops| - 1]) && LostOnlyWithExcuse(l, ops[..|ops| - 1])
    requires key in Ideal(ops) && key !in Run(l, ops).cache
    ensures Excused(l, ops, key)
  {
    var n := |ops| - 1;
    var before, op := ops[..n], ops[n];
    var s := Run(l, before);
    assert UsedBy(l, ops, n) != Some(key);
    if key !in s.cache {
      ExcuseStays(l, ops, key);
    } else if op.DoPut? {
      PutExcuses(l, ops, key);
    } else {
      assert op.DoGet? && op.key == key && !Fresh(s, l, key, op.now);
      assert ops[n].now - Ideal(ops)[key].createdAt > l.ttl;
    }
  }

  // ----- the class

  /** The list without the entries for some keys. */
  ghost function Sparing<R>(lru: seq<Entry<R>>, gone: set<string>): seq<Entry<R>> {
    if lru == [] then [] else
    if lru[0].key in gone then Sparing(lru[1..], gone) else [lru[0]] + Sparing(lru[1..], gone)
  }

  lemma {:induction false} SparingMore<R>(lru: seq<Entry<R>>, gone: set<string>, key: string)
    ensures Others(Sparing(lru, gone), key) == Sparing(lru, gone + {key})
  {
    if lru != [] {
      SparingMore(lru[1..], gone, key);
      var rest := Sparing(lru[1..], gone);
      assert ([lru[0]] + rest)[1..] == rest;
    }
  }

  lemma {:induction false} SparingNone<R>(lru: seq<Entry<R>>)
    ensures Sparing(lru, {}) == lru
  {
    if lru != [] { SparingNone(lru[1..]); }
  }

  lemma {:induction false} SparingAffected<R>(lru: seq<Entry<R>>, gone: set<string>, table: string)
    requires forall e :: e in lru ==> (e.key in gone <==> table in e.value.tables)
    ensures Sparing(lru, gone) == Keep(lru, table)
  {
    if lru != [] { SparingAffected(lru[1..], gone, table); }
  }

  class ResultCache<R> {
    var cache: map<string, Entry<R>>
    var lru: seq<Entry<R>>
    const limits: Limits
    var hitCount: nat
    var missCount: nat

    ghost function Model(): State<R>
      reads this
    {
      State(cache, lru)
    }

    constructor (maxSize: int, ttl: int)
      ensures Model() == State(map[], []) && limits == NewLimits(maxSize, ttl) && hitCount == missCount == 0
    {
      limits := NewLimits(maxSize, ttl);
      cache, lru, hitCount, missCount := map[], [], 0, 0;
    }

    method Lookup(key: string, now: int) returns (r: Option<R>)
      modifies this
      ensures Model() == Get(old(Model()), limits, key, now) && r == Answer(old(Model()), limits, key, now)
      ensures hitCount == old(hitCount) + (if r.Some? then 1 else 0)
      ensures missCount == old(missCount) + (if r.Some? then 0 else 1)
    {
      if key !in cache {
        missCount := missCount + 1;
        return None;
      }
      var e := cache[key];
      if now - e.value.createdAt > limits.ttl {
        cache, lru := cache - {key}, Others(lru, key);
        missCount := missCount + 1;
        return None;
      }
      lru := [e] + Others(lru, e.key);
      cache := cache[e.key := e];
      hitCount := hitCount + 1;
      return Some(e.value.result);
    }

    method Store(key: string, result: R, tables: set<string>, now: int)
      modifies `cache, `lru
      ensures Model() == Put(old(Model()), limits, key, Cached(result, tables, now))
    {
      var e := Entry(key, Cached(result, tables, now));
      if key !in cache {
        while |lru| >= limits.maxSize && lru != []
          invariant Evicted(Model(), limits) == Evicted(old(Model()), limits)
        {
          var back := lru[|lru| - 1];
          cache, lru := cache - {back.key}, lru[..|lru| - 1];
        }
      }
      lru := [e] + Others(lru, key);
      cache := cache[key := e];
    }

    method RemoveEntries(keys: set<string>)
      modifies `cache, `lru
      ensures cache == old(cache) - keys && lru == Sparing(old(lru), keys)
    {
      var rest, gone := keys, {};
      SparingNone(lru);
      while rest != {}
        invariant gone + rest == keys && cache == old(cache) - gone && lru == Sparing(old(lru), gone)
        decreases rest
      {
        var key := Pick(rest);
        SparingMore(old(lru), gone, key);
        cache, lru := cache - {key}, Others(lru, key);
        rest, gone := rest - {key}, gone + {key};
      }
      assert gone == keys;
    }

    /** `Invalidate`: the affected entries are collected in any order, then removed one by one. */
    method InvalidateTable(table: string)
      requires Bijective(Model())
      modifies `cache, `lru
      ensures Model() == Invalidate(old(Model()), table)
    {
      var toRemove := Affected(cache, table);
      RemoveEntries(toRemove);
      SparingAffected(old(lru), toRemove, table);
    }

    method InvalidateAll()
      modifies `cache, `lru
      ensures Model() == State(map[], [])
    {
      cache, lru := map[], [];
    }
  }

  method Affected<R>(cache: map<string, Entry<R>>, table: string) returns (keys: set<string>)
    ensures forall k :: k in keys <==> k in cache && table in cache[k].value.tables
  {
    keys := {};
    var rest := cache.Keys;
    while rest != {}
      invariant rest <= cache.Keys
      invariant forall k :: k in keys <==> k in cache && k !in rest && table in cache[k].value.tables
      decreases rest
    {
      var k := Pick(rest);
      rest := rest - {k};
      if table in cache[k].value.tables {
        keys := keys + {k};
      }
    }
  }
}
