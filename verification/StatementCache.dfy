/** The LRU cache of parsed statements, keyed by a 64-bit hash of the normalised text.  Texts are
    ASCII; in the theorems the hash is any function of the normalised text, so collisions may happen
    anywhere. */
module StatementCaches {
  import opened Results
  import opened Sets
  import opened Text

  /** The text a statement is cached under: trimmed, in lower case. */
  function Norm(sql: string): string {
    Lower(Trim(sql))
  }

  /** The cache stores `trimAndLower`, which lowers first and trims afterwards. */
  lemma NormIsTrimAndLower(sql: string)
    ensures Trim(Lower(sql)) == Norm(sql)
  {
    TrimLower(sql);
  }

  /** `equalTrimmedAndLower`. */
  method EqualTrimmedAndLower(key: string, sql: string) returns (same: bool)
    ensures same <==> key == Norm(sql)
  {
    var t := Trim(sql);
    if |key| != |t| {
      return false;
    }
    for i := 0 to |key|
      invariant forall j :: 0 <= j < i ==> key[j] == LowerChar(t[j])
    {
      var c := t[i];
      if 'A' <= c <= 'Z' {
        c := (c as int + 32) as char;
      }
      if key[i] != c {
        assert Norm(sql)[i] == c;
        return false;
      }
    }
    return true;
  }

  /** The mixing step of FNV-1a, on 64 bits. */
  function Mix(h: bv64, c: char): bv64 {
    (h ^ (c as bv64)) * 1099511628211
  }

  function Fnv(s: string): bv64 {
    if s == [] then 14695981039346656037 else Mix(Fnv(s[..|s| - 1]), s[|s| - 1])
  }

  /** `fnv1aLower`: a function of the normalised text alone. */
  method HashLower(sql: string) returns (h: bv64)
    ensures h == Fnv(Norm(sql))
  {
    hide Mix;
    var t := Trim(sql);
    h := 14695981039346656037;
    for i := 0 to |t|
      invariant h == Fnv(Norm(sql)[..i])
    {
      var b := t[i];
      if 'A' <= b <= 'Z' {
        b := (b as int + 32) as char;
      }
      assert Norm(sql)[..i + 1][..i] == Norm(sql)[..i];
      h := Mix(h, b);
    }
    assert Norm(sql)[..|t|] == Norm(sql);
  }

  /** List elements are told apart by number, as the code tells them apart by address. */
  datatype Element = Element(id: nat)

  datatype Entry<S> = Entry(hash: nat, key: string, stmt: S)

  datatype State<S> = State(cache: map<nat, Element>, lru: seq<Element>, entries: map<Element, Entry<S>>, next: nat)

  function Start<S>(): State<S> {
    State(map[], [], map[], 0)
  }

  function ToFront(s: seq<Element>, e: Element): seq<Element> {
    if e in s then var k := IndexIn(s, e); [e] + s[..k] + s[k + 1..] else s
  }

  /** The cached entry that answers for the text, if any. */
  predicate Hits<S>(s: State<S>, hash: string -> nat, text: string) {
    hash(text) in s.cache && s.cache[hash(text)] in s.entries && s.entries[s.cache[hash(text)]].key == text
  }

  function Answer<S>(s: State<S>, hash: string -> nat, text: string): Option<S> {
    if Hits(s, hash, text) then Some(s.entries[s.cache[hash(text)]].stmt) else None
  }

  function Get<S>(s: State<S>, hash: string -> nat, text: string): State<S> {
    if Hits(s, hash, text) then s.(lru := ToFront(s.lru, s.cache[hash(text)])) else s
  }

  /** `evict`: the hash of the element that goes is unmapped, whatever it is mapped to. */
  function EvictOne<S>(s: State<S>): State<S> {
    if s.lru == [] || s.lru[|s.lru| - 1] !in s.entries then s else
    var back := s.lru[|s.lru| - 1];
    s.(lru := s.lru[..|s.lru| - 1], cache := s.cache - {s.entries[back].hash})
  }

  function Evicted<S>(s: State<S>, capacity: nat): State<S>
    decreases |s.lru|
  {
    if |s.lru| < capacity || |EvictOne(s).lru| >= |s.lru| then s else Evicted(EvictOne(s), capacity)
  }

  function Put<S>(s: State<S>, hash: string -> nat, capacity: nat, text: string, stmt: S): State<S> {
    var h := hash(text);
    if Hits(s, hash, text) then
      var e := s.cache[h];
      s.(lru := ToFront(s.lru, e), entries := s.entries[e := s.entries[e].(stmt := stmt)])
    else
      var r, e := Evicted(s, capacity), Element(s.next);
      State(r.cache[h := e], [e] + r.lru, r.entries[e := Entry(h, text, stmt)], s.next + 1)
  }

  // ----- histories of calls

  datatype Op<S> = DoPut(sql: string, stmt: S) | DoGet(sql: string) | DoClear

  function Step<S>(s: State<S>, hash: string -> nat, capacity: nat, op: Op<S>): State<S> {
    match op
    case DoPut(sql, stmt) => Put(s, hash, capacity, Norm(sql), stmt)
    case DoGet(sql) => Get(s, hash, Norm(sql))
    case DoClear => s.(cache := map[], lru := [])
  }

  function Run<S>(hash: string -> nat, capacity: nat, ops: seq<Op<S>>): State<S> {
    if ops == [] then Start() else Step(Run(hash, capacity, ops[..|ops| - 1]), hash, capacity, ops[|ops| - 1])
  }

  /** The latest put of a text with hash `h`, or -1. */
  ghost function LastPut<S>(hash: string -> nat, ops: seq<Op<S>>, h: nat): (i: int)
    ensures -1 <= i < |ops|
    ensures i >= 0 ==> ops[i].DoPut? && hash(Norm(ops[i].sql)) == h
    ensures forall j :: i < j < |ops| && ops[j].DoPut? ==> hash(Norm(ops[j].sql)) != h
  {
    if ops == [] then -1 else
    var n := |ops| - 1;
    if ops[n].DoPut? && hash(Norm(ops[n].sql)) == h then n else LastPut(hash, ops[..n], h)
  }

  /** The list has no element twice, every element in it has an entry, and every mapped element
      is in it under its own hash. */
  ghost predicate Shape<S>(s: State<S>) {
    && NoDuplicates(s.lru)
    && (forall e :: e in s.lru ==> e in s.entries && e.id < s.next)
    && forall h :: h in s.cache ==> s.cache[h] in s.lru && s.entries[s.cache[h]].hash == h
  }

  /** The mapped element of `h` holds the latest put of any text with that hash. */
  ghost predicate CurrentAt<S>(s: State<S>, hash: string -> nat, ops: seq<Op<S>>, h: nat)
    requires h in s.cache && s.cache[h] in s.entries
  {
    var i, e := LastPut(hash, ops, h), s.entries[s.cache[h]];
    i >= 0 && e.key == Norm(ops[i].sql) && e.stmt == ops[i].stmt
  }

  ghost predicate Current<S>(s: State<S>, hash: string -> nat, ops: seq<Op<S>>)
    requires Shape(s)
  {
    forall h :: h in s.cache ==> CurrentAt(s, hash, ops, h)
  }

  lemma ToFrontFacts(s: seq<Element>, e: Element)
    requires NoDuplicates(s)
    ensures NoDuplicates(ToFront(s, e)) && |ToFront(s, e)| == |s|
    ensures forall x :: x in ToFront(s, e) <==> x in s
  {
    if e in s {
      var k, r := IndexIn(s, e), ToFront(s, e);
      assert forall i :: 0 <= i < |r| ==> r[i] == if i == 0 then e else if i <= k then s[i - 1] else s[i];
      forall x | x in s ensures x in r {
        var i :| 0 <= i < |s| && s[i] == x;
        assert r[if i == k then 0 else if i < k then i + 1 else i] == x;
      }
    }
  }

  lemma EvictOneKeeps<S>(s: State<S>)
    requires Shape(s) && s.lru != []
    ensures var r := EvictOne(s); Shape(r) && |r.lru| == |s.lru| - 1 && r.next == s.next && r.entries == s.entries
    ensures forall h :: h in EvictOne(s).cache ==> h in s.cache && EvictOne(s).cache[h] == s.cache[h]
  {
    var r, n := EvictOne(s), |s.lru| - 1;
    forall h | h in r.cache ensures r.cache[h] in r.lru {
      var k :| 0 <= k < |s.lru| && s.lru[k] == s.cache[h];
      assert k != n;
      assert r.lru[k] == s.cache[h];
    }
  }

  lemma {:induction false} EvictedKeeps<S>(s: State<S>, capacity: nat)
    requires Shape(s) && capacity > 0
    ensures var r := Evicted(s, capacity); Shape(r) && |r.lru| < capacity && r.next == s.next && r.entries == s.entries
    ensures forall h :: h in Evicted(s, capacity).cache ==> h in s.cache && Evicted(s, capacity).cache[h] == s.cache[h]
    decreases |s.lru|
  {
    if |s.lru| >= capacity {
      EvictOneKeeps(s);
      EvictedKeeps(EvictOne(s), capacity);
    }
  }

  lemma {:induction false} EvictedIsPrefix<S>(s: State<S>, capacity: nat)
    ensures Evicted(s, capacity).lru <= s.lru
    decreases |s.lru|
  {
    if |s.lru| >= capacity && |EvictOne(s).lru| < |s.lru| {
      EvictedIsPrefix(EvictOne(s), capacity);
    }
  }

  /** A put keeps the shape and the capacity, and only its own hash can change what it is mapped to. */
  lemma PutKeeps<S>(s: State<S>, hash: string -> nat, capacity: nat, text: string, stmt: S)
    requires Shape(s) && 0 < capacity && |s.lru| <= capacity
    ensures var r := Put(s, hash, capacity, text, stmt); Shape(r) && |r.lru| <= capacity
    ensures Hits(Put(s, hash, capacity, text, stmt), hash, text)
    ensures Answer(Put(s, hash, capacity, text, stmt), hash, text) == Some(stmt)
    ensures var r := Put(s, hash, capacity, text, stmt);
      forall h :: h in r.cache && h != hash(text) ==>
        h in s.cache && r.cache[h] == s.cache[h] && r.entries[r.cache[h]] == s.entries[s.cache[h]]
  {
    var r := Put(s, hash, capacity, text, stmt);
    if Hits(s, hash, text) {
      ToFrontFacts(s.lru, s.cache[hash(text)]);
    } else {
      EvictedKeeps(s, capacity);
      EvictedIsPrefix(s, capacity);
      assert Element(s.next) !in s.lru;
      assert forall e :: e in Evicted(s, capacity).lru ==> e in s.lru;
    }
  }

  lemma StepKeeps<S>(s: State<S>, hash: string -> nat, capacity: nat, ops: seq<Op<S>>)
    requires ops != [] && 0 < capacity && Shape(s) && |s.lru| <= capacity
    requires Current(s, hash, ops[..|ops| - 1])
    ensures var r := Step(s, hash, capacity, ops[|ops| - 1]); Shape(r) && |r.lru| <= capacity && Current(r, hash, ops)
  {
    var before, op := ops[..|ops| - 1], ops[|ops| - 1];
    var r := Step(s, hash, capacity, op);
    match op
    case DoPut(sql, stmt) =>
      PutKeeps(s, hash, capacity, Norm(sql), stmt);
      forall h | h in r.cache ensures CurrentAt(r, hash, ops, h) {
        assert h != hash(Norm(sql)) ==> CurrentAt(s, hash, before, h);
      }
    case DoGet(sql) =>
      if Hits(s, hash, Norm(sql)) {
        ToFrontFacts(s.lru, s.cache[hash(Norm(sql))]);
      }
      forall h | h in r.cache ensures CurrentAt(r, hash, ops, h) {
        assert CurrentAt(s, hash, before, h);
      }
    case DoClear =>
  }

  lemma {:induction false} RunKeeps<S>(hash: string -> nat, capacity: nat, ops: seq<Op<S>>)
    requires 0 < capacity
    ensures var s := Run(hash, capacity, ops); Shape(s) && |s.lru| <= capacity && Current(s, hash, ops)
  {
    if ops != [] {
      RunKeeps(hash, capacity, ops[..|ops| - 1]);
      StepKeeps(Run(hash, capacity, ops[..|ops| - 1]), hash, capacity, ops);
    }
  }

  /** Whatever collides, whatever was evicted: a hit is the statement of the latest put of the
      same normalised text, and the list stays within the capacity. */
  lemma HitIsLatestPut<S>(hash: string -> nat, capacity: nat, ops: seq<Op<S>>, sql: string) returns (i: nat)
    requires 0 < capacity && Answer(Run(hash, capacity, ops), hash, Norm(sql)).Some?
    ensures i < |ops| && ops[i].DoPut? && Norm(ops[i].sql) == Norm(sql)
    ensures Answer(Run(hash, capacity, ops), hash, Norm(sql)) == Some(ops[i].stmt)
    ensures forall j :: i < j < |ops| && ops[j].DoPut? ==> Norm(ops[j].sql) != Norm(sql)
  {
    RunKeeps(hash, capacity, ops);
    assert CurrentAt(Run(hash, capacity, ops), hash, ops, hash(Norm(sql)));
    i := LastPut(hash, ops, hash(Norm(sql)));
  }

  // ----- parsing through the cache

  /** `ParseCachedWith`: the answer.  A miss parses, and a parse that fails answers nothing. */
  function CachedParse<S>(s: State<S>, hash: string -> nat, parse: string -> Option<S>, sql: string): Option<S> {
    if Hits(s, hash, Norm(sql)) then Answer(s, hash, Norm(sql)) else parse(sql)
  }

  /** Only parsed statements were put. */
  ghost predicate Parsed<S>(parse: string -> Option<S>, ops: seq<Op<S>>) {
    forall i :: 0 <= i < |ops| && ops[i].DoPut? ==> parse(ops[i].sql) == Some(ops[i].stmt)
  }

  /** Texts with one normal form parse alike, when one of them parses. */
  ghost predicate CaseBlind<S>(parse: string -> Option<S>) {
    forall a, b :: Norm(a) == Norm(b) && parse(a).Some? ==> parse(b) == parse(a)
  }

  /** The cache is transparent after every history. */
  ghost predicate Transparent<S(!new)>(hash: string -> nat, capacity: nat, parse: string -> Option<S>) {
    forall ops, sql :: Parsed(parse, ops) ==> CachedParse(Run(hash, capacity, ops), hash, parse, sql) == parse(sql)
  }

  lemma CaseBlindSuffices<S>(hash: string -> nat, capacity: nat, parse: string -> Option<S>, ops: seq<Op<S>>, sql: string)
    requires 0 < capacity && CaseBlind(parse) && Parsed(parse, ops)
    ensures CachedParse(Run(hash, capacity, ops), hash, parse, sql) == parse(sql)
  {
    if Hits(Run(hash, capacity, ops), hash, Norm(sql)) {
      var i := HitIsLatestPut(hash, capacity, ops, sql);
      assert parse(ops[i].sql).Some?;
    }
  }

  lemma RunOne<S>(hash: string -> nat, capacity: nat, a: string, stmt: S)
    ensures Run(hash, capacity, [DoPut(a, stmt)]) == Put(Start(), hash, capacity, Norm(a), stmt)
  {
    var ops := [DoPut(a, stmt)];
    assert ops[..0] == [];
    assert Run(hash, capacity, ops) == Step(Run(hash, capacity, ops[..0]), hash, capacity, ops[0]);
  }

  lemma OnePutAnswers<S>(hash: string -> nat, capacity: nat, a: string, b: string, stmt: S)
    requires 0 < capacity && Norm(a) == Norm(b)
    ensures Answer(Run(hash, capacity, [DoPut(a, stmt)]), hash, Norm(b)) == Some(stmt)
  {
    RunOne(hash, capacity, a, stmt);
    PutKeeps(Start<S>(), hash, capacity, Norm(a), stmt);
  }

  /** Parsing through the cache is parsing exactly when the parser cannot tell apart texts that
      differ only in letter case and surrounding space. */
  lemma CacheTransparentIffCaseBlind<S(!new)>(hash: string -> nat, capacity: nat, parse: string -> Option<S>)
    requires 0 < capacity
    ensures Transparent(hash, capacity, parse) <==> CaseBlind(parse)
  {
    if CaseBlind(parse) {
      forall ops, sql | Parsed(parse, ops) ensures CachedParse(Run(hash, capacity, ops), hash, parse, sql) == parse(sql) {
        CaseBlindSuffices(hash, capacity, parse, ops, sql);
      }
    }
    if Transparent(hash, capacity, parse) {
      forall a, b | Norm(a) == Norm(b) && parse(a).Some? ensures parse(b) == parse(a) {
        OnePutAnswers(hash, capacity, a, b, parse(a).value);
        var ops := [DoPut(a, parse(a).value)];
        assert Parsed(parse, ops);
        assert CachedParse(Run(hash, capacity, ops), hash, parse, b) == parse(b);
      }
    }
  }

  /** A string literal keeps its case when parsed, so such a parser is not case blind. */
  lemma LiteralsAreNotCaseBlind<S>(parse: string -> Option<S>)
    requires parse("select 'A'").Some? && parse("select 'a'") != parse("select 'A'")
    ensures !CaseBlind(parse)
  {
    var a, b := "select 'A'", "select 'a'";
    assert Trim(a) == a && Trim(b) == b;
    assert Norm(a) == Norm(b);
  }

  // ----- orphans

  /** Every listed element answers for its own hash: the list holds nothing that cannot be hit. */
  ghost predicate AllMapped<S>(s: State<S>)
    requires Shape(s)
  {
    forall e :: e in s.lru ==> s.entries[e].hash in s.cache && s.cache[s.entries[e].hash] == e
  }

  ghost predicate Reachable<S>(hash: string -> nat, capacity: nat, ops: seq<Op<S>>)
    requires 0 < capacity
  {
    RunKeeps(hash, capacity, ops);
    AllMapped(Run(hash, capacity, ops))
  }

  ghost predicate CollisionFree(hash: string -> nat) {
    forall a, b :: hash(Norm(a)) == hash(Norm(b)) ==> Norm(a) == Norm(b)
  }

  lemma {:induction false} EvictedMapped<S>(s: State<S>, capacity: nat)
    requires Shape(s) && AllMapped(s) && capacity > 0
    ensures Shape(Evicted(s, capacity)) && AllMapped(Evicted(s, capacity))
    decreases |s.lru|
  {
    if |s.lru| >= capacity {
      EvictOneKeeps(s);
      EvictOneMapped(s);
      EvictedMapped(EvictOne(s), capacity);
    }
  }

  lemma EvictOneMapped<S>(s: State<S>)
    requires Shape(s) && AllMapped(s) && s.lru != []
    ensures Shape(EvictOne(s)) && AllMapped(EvictOne(s))
  {
    EvictOneKeeps(s);
    var n, r := |s.lru| - 1, EvictOne(s);
    forall e | e in r.lru ensures s.entries[e].hash in r.cache {
      var k :| 0 <= k < |r.lru| && r.lru[k] == e;
      assert s.lru[k] == e && s.lru[n] != e;
      assert s.cache[s.entries[s.lru[n]].hash] == s.lru[n];
    }
  }

  lemma PutMapped<S>(s: State<S>, hash: string -> nat, capacity: nat, text: string, stmt: S)
    requires Shape(s) && AllMapped(s) && 0 < capacity && |s.lru| <= capacity
    requires hash(text) in s.cache ==> Hits(s, hash, text)
    ensures Shape(Put(s, hash, capacity, text, stmt)) && AllMapped(Put(s, hash, capacity, text, stmt))
  {
    PutKeeps(s, hash, capacity, text, stmt);
    if Hits(s, hash, text) {
      ToFrontFacts(s.lru, s.cache[hash(text)]);
    } else {
      EvictedKeeps(s, capacity);
      EvictedMapped(s, capacity);
      EvictedIsPrefix(s, capacity);
      assert forall e :: e in Evicted(s, capacity).lru ==> e in s.lru;
    }
  }

  lemma {:induction false} CollisionFreeReachable<S>(hash: string -> nat, capacity: nat, ops: seq<Op<S>>)
    requires 0 < capacity && CollisionFree(hash)
    ensures Reachable(hash, capacity, ops)
  {
    RunKeeps(hash, capacity, ops);
    if ops != [] {
      var before, op := ops[..|ops| - 1], ops[|ops| - 1];
      var s := Run(hash, capacity, before);
      CollisionFreeReachable(hash, capacity, before);
      RunKeeps(hash, capacity, before);
      match op
      case DoPut(sql, stmt) =>
        assert hash(Norm(sql)) in s.cache ==> CurrentAt(s, hash, before, hash(Norm(sql)));
        PutMapped(s, hash, capacity, Norm(sql), stmt);
      case DoGet(sql) =>
        if Hits(s, hash, Norm(sql)) {
          ToFrontFacts(s.lru, s.cache[hash(Norm(sql))]);
        }
      case DoClear =>
    }
  }

  lemma CollisionOrphans<S>(hash: string -> nat, capacity: nat, a: string, b: string, stmt: S)
    requires 1 < capacity && hash(Norm(a)) == hash(Norm(b)) && Norm(a) != Norm(b)
    ensures !Reachable(hash, capacity, [DoPut(a, stmt), DoPut(b, stmt)])
  {
    var ops := [DoPut(a, stmt), DoPut(b, stmt)];
    RunOne(hash, capacity, a, stmt);
    assert ops[..1] == [DoPut(a, stmt)];
    var s1 := Run(hash, capacity, ops[..1]);
    var s2 := Run(hash, capacity, ops);
    assert s2 == Put(s1, hash, capacity, Norm(b), stmt);
    assert s2.lru == [Element(1), Element(0)] && s2.entries[Element(0)].hash == hash(Norm(b));
    assert s2.lru[1] in s2.lru && s2.cache[hash(Norm(b))] == Element(1);
    RunKeeps(hash, capacity, ops);
  }

  /** And when the dead element is evicted, the live statement that replaced it is no longer found,
      although it is still listed. */
  lemma OrphanUnmapsLive<S>(hash: string -> nat, a: string, b: string, c: string, stmt: S)
    requires hash(Norm(a)) == hash(Norm(b)) != hash(Norm(c)) && Norm(a) != Norm(b)
    ensures var two, three := Run(hash, 2, [DoPut(a, stmt), DoPut(b, stmt)]), Run(hash, 2, [DoPut(a, stmt), DoPut(b, stmt), DoPut(c, stmt)]);
      && Answer(two, hash, Norm(b)) == Some(stmt) && Answer(three, hash, Norm(b)) == None
      && Element(1) in three.lru && Element(1) in three.entries && three.entries[Element(1)] == Entry(hash(Norm(b)), Norm(b), stmt)
  {
    hide Norm, Put;
    var ops := [DoPut(a, stmt), DoPut(b, stmt), DoPut(c, stmt)];
    var two := [DoPut(a, stmt), DoPut(b, stmt)];
    assert ops[..2] == two && two[..1] == [DoPut(a, stmt)];
    RunOne(hash, 2, a, stmt);
    assert Run(hash, 2, two) == Put(Run(hash, 2, two[..1]), hash, 2, Norm(b), stmt);
    assert Run(hash, 2, ops) == Put(Run(hash, 2, ops[..2]), hash, 2, Norm(c), stmt);
    PutTwo(hash, Norm(a), Norm(b), stmt);
    PutThree(hash, Norm(a), Norm(b), Norm(c), stmt);
  }

  /** The state after two colliding puts. */
  function Collided<S>(hash: string -> nat, a: string, b: string, stmt: S): State<S> {
    State(map[hash(b) := Element(1)], [Element(1), Element(0)], map[Element(0) := Entry(hash(a), a, stmt), Element(1) := Entry(hash(b), b, stmt)], 2)
  }

  lemma PutTwo<S>(hash: string -> nat, a: string, b: string, stmt: S)
    requires hash(a) == hash(b) && a != b
    ensures Put(Put(Start<S>(), hash, 2, a, stmt), hash, 2, b, stmt) == Collided(hash, a, b, stmt)
  {
    var one := Put(Start<S>(), hash, 2, a, stmt);
    assert one == State(map[hash(a) := Element(0)], [Element(0)], map[Element(0) := Entry(hash(a), a, stmt)], 1);
  }

  lemma PutThree<S>(hash: string -> nat, a: string, b: string, c: string, stmt: S)
    requires hash(a) == hash(b) != hash(c)
    ensures var three := Put(Collided(hash, a, b, stmt), hash, 2, c, stmt);
      && !Hits(three, hash, b) && Element(1) in three.lru && Element(1) in three.entries && three.entries[Element(1)] == Entry(hash(b), b, stmt)
  {
    var s := Collided(hash, a, b, stmt);
    var gone := EvictOne(s);
    assert gone.lru == [Element(1)] && gone.cache == map[];
    assert Evicted(gone, 2) == gone && Evicted(s, 2) == gone;
    var three := Put(s, hash, 2, c, stmt);
    assert three.lru == [Element(2), Element(1)] && three.lru[1] in three.lru;
  }

  /** The list is free of dead elements after every history exactly when no two texts collide:
      a colliding put leaves the old element in the list, where it takes room and, once evicted,
      unmaps the statement that replaced it. */
  lemma ReachableIffCollisionFree<S(!new)>(hash: string -> nat, capacity: nat, stmt: S)
    requires 1 < capacity
    ensures (forall ops: seq<Op<S>> :: Reachable(hash, capacity, ops)) <==> CollisionFree(hash)
  {
    if CollisionFree(hash) {
      forall ops: seq<Op<S>> ensures Reachable(hash, capacity, ops) {
        CollisionFreeReachable(hash, capacity, ops);
      }
    } else {
      var a, b :| hash(Norm(a)) == hash(Norm(b)) && Norm(a) != Norm(b);
      CollisionOrphans(hash, capacity, a, b, stmt);
    }
  }

  // ----- the cache object

  const DEFAULT_CAPACITY := 256

  class StatementCache<S> {
    const hash: string -> nat
    const capacity: nat
    var cache: map<nat, Element>
    var lru: seq<Element>
    var entries: map<Element, Entry<S>>
    var next: nat

    function Model(): State<S>
      reads this
    {
      State(cache, lru, entries, next)
    }

    ghost predicate Valid()
      reads this
    {
      Shape(Model()) && 0 < capacity && |lru| <= capacity
    }

    constructor (hash: string -> nat, limit: int)
      ensures Valid() && Model() == Start() && this.hash == hash
      ensures capacity == if limit <= 0 then DEFAULT_CAPACITY else limit
    {
      this.hash := hash;
      capacity := if limit <= 0 then DEFAULT_CAPACITY else limit;
      cache, lru, entries, next := map[], [], map[], 0;
    }

    method MoveToFront(e: Element)
      requires e in lru
      modifies `lru
      ensures lru == ToFront(old(lru), e)
    {
      var k := IndexIn(lru, e);
      lru := [e] + lru[..k] + lru[k + 1..];
    }

    method Lookup(sql: string) returns (stmt: Option<S>)
      requires Valid()
      modifies this
      ensures Valid() && Model() == Get(old(Model()), hash, Norm(sql))
      ensures stmt == Answer(old(Model()), hash, Norm(sql))
    {
      var h := hash(Norm(sql));
      if h !in cache {
        return None;
      }
      var entry := entries[cache[h]];
      var same := EqualTrimmedAndLower(entry.key, sql);
      if !same {
        return None;
      }
      ToFrontFacts(lru, cache[h]);
      MoveToFront(cache[h]);
      return Some(entry.stmt);
    }

    method Evict()
      requires Shape(Model())
      modifies `cache, `lru
      ensures Shape(Model()) && Model() == EvictOne(old(Model()))
      ensures old(lru) != [] ==> |lru| == |old(lru)| - 1
    {
      if lru == [] {
        return;
      }
      EvictOneKeeps(Model());
      var back := lru[|lru| - 1];
      lru := lru[..|lru| - 1];
      cache := cache - {entries[back].hash};
    }

    method Store(sql: string, stmt: S)
      requires Valid()
      modifies this
      ensures Valid() && Model() == Put(old(Model()), hash, capacity, Norm(sql), stmt)
    {
      var h := hash(Norm(sql));
      PutKeeps(Model(), hash, capacity, Norm(sql), stmt);
      if h in cache {
        var e := cache[h];
        var same := EqualTrimmedAndLower(entries[e].key, sql);
        if same {
          MoveToFront(e);
          entries := entries[e := entries[e].(stmt := stmt)];
          return;
        }
      }
      while |lru| >= capacity
        invariant Shape(Model()) && next == old(next)
        invariant Evicted(Model(), capacity) == Evicted(old(Model()), capacity)
        decreases |lru|
      {
        Evict();
      }
      var e := Element(next);
      NormIsTrimAndLower(sql);
      entries := entries[e := Entry(h, Trim(Lower(sql)), stmt)];
      lru := [e] + lru;
      cache := cache[h := e];
      next := next + 1;
    }

    method Clear()
      requires Valid()
      modifies `cache, `lru
      ensures Valid() && Model() == old(Model()).(cache := map[], lru := [])
    {
      cache, lru := map[], [];
    }

    /** `ParseCachedWith`. */
    method Parse(parse: string -> Option<S>, sql: string) returns (stmt: Option<S>)
      requires Valid()
      modifies this
      ensures Valid() && stmt == CachedParse(old(Model()), hash, parse, sql)
      ensures Model() ==
        if Hits(old(Model()), hash, Norm(sql)) then Get(old(Model()), hash, Norm(sql))
        else if parse(sql).None? then old(Model())
        else Put(old(Model()), hash, capacity, Norm(sql), parse(sql).value)
    {
      stmt := Lookup(sql);
      if stmt.None? {
        stmt := parse(sql);
        if stmt.Some? {
          Store(sql, stmt.value);
        }
      }
    }
  }
}
