/** The audit log: entries chained by hash in a system table. */
module Audit {
  import opened Text

  const ID_LIMIT: nat := 0x1_0000_0000_0000_0000

  /** `occurredAt` is the RFC 3339 form of the time; the zero time is "". */
  datatype Entry = Entry(id: nat, occurredAt: string, actor: string, action: string, target: string, detail: string,
                         prevHash: string, entryHash: string)

  function Fields(e: Entry): seq<string> {
    [Decimal(e.id), e.occurredAt, e.actor, e.action, e.target, e.detail]
  }

  /** The text that is hashed for an entry. */
  function Payload(e: Entry, prev: string): string {
    Join(Fields(e) + [prev], '|')
  }

  /** `hash` stands for the hexadecimal SHA-256 throughout. */
  function HashChain(hash: string -> string, e: Entry, prev: string): string {
    hash(Payload(e, prev))
  }

  function Sealed(hash: string -> string, e: Entry, prev: string): Entry {
    e.(prevHash := prev, entryHash := HashChain(hash, e, prev))
  }

  function LastHash(entries: seq<Entry>): string {
    if entries == [] then "" else entries[|entries| - 1].entryHash
  }

  /** The chain condition: each entry's hash is over its own fields and the hash before it. */
  ghost predicate Linked(hash: string -> string, entries: seq<Entry>, i: nat)
    requires i < |entries|
  {
    entries[i].entryHash == HashChain(hash, entries[i], LastHash(entries[..i]))
  }

  ghost predicate Accepted(hash: string -> string, entries: seq<Entry>) {
    forall i :: 0 <= i < |entries| ==> Linked(hash, entries, i)
  }

  /** `VerifyChain`: the verdict, and the number of entries that were found in order. */
  method VerifyChain(hash: string -> string, entries: seq<Entry>) returns (ok: bool, n: nat)
    ensures ok <==> Accepted(hash, entries)
    ensures n <= |entries| && Accepted(hash, entries[..n]) && (ok <==> n == |entries|)
    ensures !ok ==> !Linked(hash, entries, n)
  {
    var prev := "";
    n := 0;
    while n < |entries|
      invariant n <= |entries| && prev == LastHash(entries[..n])
      invariant forall i :: 0 <= i < n ==> Linked(hash, entries, i)
    {
      var e := entries[n];
      if HashChain(hash, e, prev) != e.entryHash {
        AcceptedPrefix(hash, entries, n);
        assert !Linked(hash, entries, n);
        return false, n;
      }
      prev := e.entryHash;
      n := n + 1;
      assert entries[..n] == entries[..n - 1] + [e];
    }
    assert entries[..n] == entries;
    ok := true;
  }

  lemma AcceptedPrefix(hash: string -> string, entries: seq<Entry>, n: nat)
    requires n <= |entries| && forall i :: 0 <= i < n ==> Linked(hash, entries, i)
    ensures Accepted(hash, entries[..n])
  {
    forall i | 0 <= i < n
      ensures Linked(hash, entries[..n], i)
    {
      assert Linked(hash, entries, i) && entries[..n][..i] == entries[..i];
    }
  }

  lemma AcceptedPush(hash: string -> string, entries: seq<Entry>, e: Entry)
    requires Accepted(hash, entries)
    ensures Accepted(hash, entries + [e]) <==> e.entryHash == HashChain(hash, e, LastHash(entries))
  {
    var more := entries + [e];
    forall i | 0 <= i < |entries|
      ensures Linked(hash, more, i)
    {
      assert Linked(hash, entries, i) && more[..i] == entries[..i];
    }
    assert more[..|entries|] == entries;
    assert Linked(hash, more, |entries|) <==> e.entryHash == HashChain(hash, e, LastHash(entries));
  }

  // ----- the log and its operations

  /** The table, and the fields of `TableLog`. */
  datatype Log = Log(rows: seq<Entry>, nextID: nat, lastHash: string)

  const EMPTY: Log := Log([], 0, "")

  /** `Append`; the insert may fail, and then only the counter has moved. */
  function Append(hash: string -> string, log: Log, e: Entry, now: string, insertFails: bool): Log
  {
    var nextID := if e.id == 0 then (log.nextID + 1) % ID_LIMIT else log.nextID;
    var id := if e.id == 0 then nextID else e.id;
    var at := if e.occurredAt == "" then now else e.occurredAt;
    var sealed := Sealed(hash, e.(id := id, occurredAt := at), log.lastHash);
    if insertFails then log.(nextID := nextID) else Log(log.rows + [sealed], nextID, sealed.entryHash)
  }

  /** The entries `TruncateKeepLast(n)` keeps: a negative `n`, or one that is not below the
      length, keeps them all. */
  function Kept(entries: seq<Entry>, n: int): seq<Entry> {
    if 0 < n < |entries| then entries[|entries| - n..] else if n == 0 then [] else entries
  }

  /** The entries sealed again from the start of a chain. */
  function Rechained(hash: string -> string, entries: seq<Entry>): (r: seq<Entry>)
    ensures |r| == |entries|
  {
    if entries == [] then [] else
    var front := Rechained(hash, entries[..|entries| - 1]);
    front + [Sealed(hash, entries[|entries| - 1], LastHash(front))]
  }

  function MaxId(entries: seq<Entry>): nat {
    if entries == [] then 0 else
    var m := MaxId(entries[..|entries| - 1]);
    if entries[|entries| - 1].id > m then entries[|entries| - 1].id else m
  }

  datatype Fault = NoFault | ReadFails | TruncateFails | InsertFails(at: nat)

  /** `TruncateKeepLast`, which may stop at a failed read, a failed truncation or a failed
      insert; the counter has then seen the entry whose insert failed. */
  function TruncateKeepLast(hash: string -> string, log: Log, n: int, fault: Fault): Log
  {
    if fault.ReadFails? || fault.TruncateFails? then log else
    var kept := Kept(log.rows, n);
    var done := if fault.InsertFails? && fault.at < |kept| then fault.at else |kept|;
    var seen := if done < |kept| then done + 1 else done;
    var rows := Rechained(hash, kept[..done]);
    Log(rows, MaxId(kept[..seen]), LastHash(rows))
  }

  /** A new process over the same table: `NewTableLog` starts with an empty last hash. */
  function Restart(log: Log): Log {
    Log(log.rows, 0, "")
  }

  lemma NoneRechained(hash: string -> string, entries: seq<Entry>)
    ensures Rechained(hash, entries[..0]) == [] && MaxId(entries[..0]) == 0
  {
  }

  lemma RechainedNext(hash: string -> string, entries: seq<Entry>, i: nat)
    requires i < |entries|
    ensures var r := Rechained(hash, entries[..i]);
            Rechained(hash, entries[..i + 1]) == r + [Sealed(hash, entries[i], LastHash(r))]
    ensures var m := MaxId(entries[..i]);
            MaxId(entries[..i + 1]) == if entries[i].id > m then entries[i].id else m
  {
    assert entries[..i + 1][..i] == entries[..i];
  }

  lemma {:induction false} RechainedAccepted(hash: string -> string, entries: seq<Entry>)
    ensures Accepted(hash, Rechained(hash, entries))
    ensures forall i :: 0 <= i < |entries| ==> Fields(Rechained(hash, entries)[i]) == Fields(entries[i])
  {
    if entries != [] {
      var front := entries[..|entries| - 1];
      RechainedAccepted(hash, front);
      AcceptedPush(hash, Rechained(hash, front), Sealed(hash, entries[|entries| - 1], LastHash(Rechained(hash, front))));
    }
  }

  // ----- whole histories

  datatype Op =
    | DoAppend(e: Entry, now: string, insertFails: bool)
    | DoTruncate(n: int, fault: Fault)
    | DoRestart

  function Step(hash: string -> string, log: Log, op: Op): Log {
    match op
    case DoAppend(e, now, fails) => Append(hash, log, e, now, fails)
    case DoTruncate(n, fault) => TruncateKeepLast(hash, log, n, fault)
    case DoRestart => Restart(log)
  }

  function History(hash: string -> string, ops: seq<Op>): Log {
    if ops == [] then EMPTY else Step(hash, History(hash, ops[..|ops| - 1]), ops[|ops| - 1])
  }

  ghost predicate Intact(hash: string -> string, log: Log) {
    Accepted(hash, log.rows) && log.lastHash == LastHash(log.rows)
  }

  /** The process is only ever restarted over an empty table. */
  ghost predicate CleanRestarts(hash: string -> string, ops: seq<Op>) {
    forall i :: 0 <= i < |ops| && ops[i].DoRestart? ==> History(hash, ops[..i]).rows == []
  }

  lemma StepIntact(hash: string -> string, log: Log, op: Op)
    requires Intact(hash, log) && (op.DoRestart? ==> log.rows == [])
    ensures Intact(hash, Step(hash, log, op))
  {
    match op
    case DoAppend(e, now, fails) =>
      var after := Append(hash, log, e, now, fails);
      if !fails { AcceptedPush(hash, log.rows, after.rows[|log.rows|]); }
    case DoTruncate(n, fault) =>
      if !fault.ReadFails? && !fault.TruncateFails? {
        var kept := Kept(log.rows, n);
        RechainedAccepted(hash, kept[..if fault.InsertFails? && fault.at < |kept| then fault.at else |kept|]);
      }
    case DoRestart =>
  }

  /** Every history of appends, truncations and faults from an empty table leaves a chain that
      `VerifyChain` accepts, as long as no restart happens over a non-empty table. */
  lemma {:induction false} HistoryAccepted(hash: string -> string, ops: seq<Op>)
    requires CleanRestarts(hash, ops)
    ensures Intact(hash, History(hash, ops))
  {
    if ops != [] {
      var before, k := ops[..|ops| - 1], |ops| - 1;
      forall i | 0 <= i < |before| && before[i].DoRestart?
        ensures History(hash, before[..i]).rows == []
      {
        assert before[..i] == ops[..i] && ops[i].DoRestart?;
      }
      HistoryAccepted(hash, before);
      StepIntact(hash, History(hash, before), ops[k]);
    }
  }

  ghost predicate CollisionFree(hash: string -> string) {
    (forall x, y :: hash(x) == hash(y) ==> x == y) && (forall x :: hash(x) != "")
  }

  predicate BarFree(e: Entry) {
    forall f :: f in Fields(e) ==> Without(f, '|')
  }

  predicate AllBarFree(entries: seq<Entry>) {
    forall i :: 0 <= i < |entries| ==> BarFree(entries[i])
  }

  /** Equal in what is hashed. */
  predicate SameFields(x: Entry, y: Entry) {
    x.id == y.id && x.occurredAt == y.occurredAt && x.actor == y.actor && x.action == y.action && x.target == y.target && x.detail == y.detail
  }

  /** Equal in everything `VerifyChain` looks at; the stored previous hash is not. */
  predicate SameRecord(x: Entry, y: Entry) {
    SameFields(x, y) && x.entryHash == y.entryHash
  }

  /** After a restart over an accepted table, the next append leaves an accepted chain exactly
      when the table was empty: the restarted log has forgotten the last hash. */
  lemma RestartBreaksChain(hash: string -> string, log: Log, e: Entry, now: string)
    requires CollisionFree(hash) && Accepted(hash, log.rows)
    ensures Accepted(hash, Append(hash, Restart(log), e, now, false).rows) <==> log.rows == []
  {
    var sealed := Append(hash, Restart(log), e, now, false).rows[|log.rows|];
    AcceptedPush(hash, log.rows, sealed);
    var last := LastHash(log.rows);
    HashedOnceNonEmpty(hash, log.rows);
    if last != "" { LastPart(Fields(sealed), "", last, '|'); }
  }

  lemma HashedOnceNonEmpty(hash: string -> string, entries: seq<Entry>)
    requires CollisionFree(hash) && Accepted(hash, entries)
    ensures LastHash(entries) == "" <==> entries == []
  {
    assert entries != [] ==> Linked(hash, entries, |entries| - 1);
  }

  /** Two joined lists that differ only in their last part are different strings. */
  lemma {:induction false} LastPart(xs: seq<string>, a: string, b: string, sep: char)
    requires a != b
    ensures Join(xs + [a], sep) != Join(xs + [b], sep)
  {
    if xs != [] {
      assert (xs + [a])[1..] == xs[1..] + [a] && (xs + [b])[1..] == xs[1..] + [b];
      var p, s, t := xs[0] + [sep], Join(xs[1..] + [a], sep), Join(xs[1..] + [b], sep);
      LastPart(xs[1..], a, b, sep);
      assert s == (p + s)[|p|..] && t == (p + t)[|p|..];
    }
  }

  /** What hexadecimal digests have: no bar. */
  ghost predicate BarFreeHash(hash: string -> string) {
    forall x :: Without(hash(x), '|')
  }

  /** Tamper evidence: an accepted chain with bar-free fields is the only accepted chain with its
      last hash, whatever the length and the fields of the other. */
  lemma {:induction false} LastHashFixesChain(hash: string -> string, xs: seq<Entry>, ys: seq<Entry>)
    requires CollisionFree(hash) && BarFreeHash(hash) && Accepted(hash, xs) && Accepted(hash, ys)
    requires AllBarFree(xs) && LastHash(xs) == LastHash(ys)
    ensures |xs| == |ys| && forall i :: 0 <= i < |xs| ==> SameRecord(xs[i], ys[i])
    decreases |xs|
  {
    hide Accepted, Payload, BarFree, Without;
    HashedOnceNonEmpty(hash, xs);
    HashedOnceNonEmpty(hash, ys);
    if xs != [] {
      var x, y := xs[|xs| - 1], ys[|ys| - 1];
      var front, back := xs[..|xs| - 1], ys[..|ys| - 1];
      LastLink(hash, xs);
      LastLink(hash, ys);
      PayloadFixesEntry(x, LastHash(front), y, LastHash(back));
      LastHashFixesChain(hash, front, back);
    }
  }

  /** The last entry of an accepted chain, and the chain before it. */
  lemma LastLink(hash: string -> string, xs: seq<Entry>)
    requires Accepted(hash, xs) && xs != []
    ensures var front := xs[..|xs| - 1];
      && Accepted(hash, front) && LastHash(xs) == hash(Payload(xs[|xs| - 1], LastHash(front)))
      && (BarFreeHash(hash) ==> Without(LastHash(front), '|'))
  {
    hide Payload;
    var front := xs[..|xs| - 1];
    AcceptedPrefix(hash, xs, |front|);
    assert Linked(hash, xs, |xs| - 1);
    assert front != [] ==> Linked(hash, front, |front| - 1);
  }

  lemma PayloadFixesEntry(x: Entry, p: string, y: Entry, q: string)
    requires BarFree(x) && Without(p, '|') && Payload(x, p) == Payload(y, q)
    ensures p == q && SameFields(x, y)
  {
    var a, b := Fields(x) + [p], Fields(y) + [q];
    assert forall i :: 0 <= i < 6 ==> a[i] == Fields(x)[i];
    JoinFixesParts(a, b, '|');
    assert a[6] == p && b[6] == q && a[0] == b[0] && a[1] == b[1] && a[2] == b[2] && a[3] == b[3] && a[4] == b[4] && a[5] == b[5];
    DecimalInjective(x.id, y.id);
  }

  /** After a bar-free previous hash, no entry with other fields is hashed as the same text, exactly
      when the entry's own fields are free of bars. */
  lemma PayloadFixesEntryIff(x: Entry, p: string)
    requires Without(p, '|')
    ensures (forall y, q :: Payload(y, q) == Payload(x, p) ==> q == p && SameFields(x, y)) <==> BarFree(x)
  {
    if BarFree(x) {
      forall y, q | Payload(y, q) == Payload(x, p) ensures q == p && SameFields(x, y) {
        PayloadFixesEntry(x, p, y, q);
      }
    } else {
      var y := Disguised(x, p);
    }
  }

  function WithTexts(e: Entry, fs: seq<string>): Entry
    requires |fs| == 7
  {
    e.(occurredAt := fs[1], actor := fs[2], action := fs[3], target := fs[4], detail := fs[5])
  }

  lemma BarWhere(x: Entry) returns (i: nat)
    requires !BarFree(x)
    ensures 1 <= i < 6 && !Without(Fields(x)[i], '|')
  {
    DecimalReadsBack(x.id);
    var f :| f in Fields(x) && !Without(f, '|');
    i :| 0 <= i < 6 && Fields(x)[i] == f;
  }

  /** An entry with a bar in a field has a double: the text around the bar moves to a neighbour. */
  lemma Disguised(x: Entry, p: string) returns (y: Entry)
    requires !BarFree(x)
    ensures Payload(y, p) == Payload(x, p) && !SameFields(x, y)
  {
    var i := BarWhere(x);
    var xs := Fields(x) + [p];
    if i < 5 {
      var u, w := MoveRight(xs, i, '|');
      y := WithTexts(x, xs[i := u][i + 1 := w]);
      assert Fields(y) + [p] == xs[i := u][i + 1 := w];
      assert Fields(y)[i] == u;
    } else {
      var w, v := MoveLeft(xs, i, '|');
      y := WithTexts(x, xs[i - 1 := w][i := v]);
      assert Fields(y) + [p] == xs[i - 1 := w][i := v];
      assert Fields(y)[i] == v;
    }
  }

  /** So an accepted chain with a bar in some entry can be changed there unseen. */
  lemma BarsHideTampering(hash: string -> string, xs: seq<Entry>, k: nat) returns (ys: seq<Entry>)
    requires Accepted(hash, xs) && k < |xs| && !BarFree(xs[k])
    ensures Accepted(hash, ys) && |ys| == |xs| && LastHash(ys) == LastHash(xs) && !SameFields(xs[k], ys[k])
  {
    var y := Disguised(xs[k], LastHash(xs[..k]));
    y := y.(entryHash := xs[k].entryHash);
    assert Fields(y) == Fields(y.(entryHash := ""));
    ys := xs[k := y];
    forall i | 0 <= i < |ys|
      ensures Linked(hash, ys, i)
    {
      assert Linked(hash, xs, i);
      assert LastHash(ys[..i]) == LastHash(xs[..i]);
      assert i == k ==> Payload(y, LastHash(xs[..k])) == Payload(xs[k], LastHash(xs[..k]));
    }
  }

  /** The last hash vouches for an accepted chain exactly when its fields are free of bars. */
  lemma TamperEvidentIff(hash: string -> string, xs: seq<Entry>)
    requires CollisionFree(hash) && BarFreeHash(hash) && Accepted(hash, xs)
    ensures (forall ys :: Accepted(hash, ys) && LastHash(ys) == LastHash(xs) ==>
               |ys| == |xs| && forall i :: 0 <= i < |xs| ==> SameRecord(xs[i], ys[i])) <==> AllBarFree(xs)
  {
    if AllBarFree(xs) {
      forall ys | Accepted(hash, ys) && LastHash(ys) == LastHash(xs)
        ensures |ys| == |xs| && forall i :: 0 <= i < |xs| ==> SameRecord(xs[i], ys[i])
      {
        LastHashFixesChain(hash, xs, ys);
      }
    } else {
      var k :| 0 <= k < |xs| && !BarFree(xs[k]);
      var ys := BarsHideTampering(hash, xs, k);
    }
  }

  // ----- the class

  class TableLog {
    const hash: string -> string
    var rows: seq<Entry>
    var nextID: nat
    var lastHash: string

    ghost function Model(): Log
      reads this
    {
      Log(rows, nextID, lastHash)
    }

    /** A log over a table that already holds `rows`. */
    constructor (hash: string -> string, rows: seq<Entry>)
      ensures this.hash == hash && this.rows == rows && Model() == Restart(Log(rows, 0, ""))
    {
      this.hash, this.rows, nextID, lastHash := hash, rows, 0, "";
    }

    method AppendEntry(e: Entry, now: string, insertFails: bool) returns (ok: bool)
      modifies this
      ensures ok == !insertFails && Model() == Append(hash, old(Model()), e, now, insertFails)
    {
      var entry := e;
      if entry.id == 0 {
        nextID := (nextID + 1) % ID_LIMIT;
        entry := entry.(id := nextID);
      }
      if entry.occurredAt == "" {
        entry := entry.(occurredAt := now);
      }
      entry := entry.(prevHash := lastHash);
      entry := entry.(entryHash := HashChain(hash, entry, lastHash));
      if insertFails {
        return false;
      }
      rows := rows + [entry];
      lastHash := entry.entryHash;
      return true;
    }

    method Truncate(n: int, fault: Fault) returns (ok: bool)
      modifies this
      ensures ok <==> !fault.ReadFails? && !fault.TruncateFails? && (fault.InsertFails? ==> fault.at >= |Kept(old(rows), n)|)
      ensures Model() == TruncateKeepLast(hash, old(Model()), n, fault)
    {
      hide HashChain, Rechained, MaxId;
      if fault.ReadFails? || fault.TruncateFails? {
        return false;
      }
      var entries := Kept(rows, n);
      NoneRechained(hash, entries);
      rows, lastHash, nextID := [], "", 0;
      var i := 0;
      while i < |entries|
        invariant i <= |entries| && (fault.InsertFails? ==> i <= fault.at)
        invariant rows == Rechained(hash, entries[..i]) && lastHash == LastHash(rows)
        invariant nextID == MaxId(entries[..i])
      {
        var e := entries[i];
        RechainedNext(hash, entries, i);
        if e.id > nextID {
          nextID := e.id;
        }
        if fault == InsertFails(i) {
          return false;
        }
        var sealed := Sealed(hash, e, lastHash);
        rows := rows + [sealed];
        lastHash := sealed.entryHash;
        i := i + 1;
      }
      assert entries[..i] == entries;
      return true;
    }
  }
}
