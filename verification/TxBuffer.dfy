/** The operation buffer of a transaction: in memory, or spilled to a file once it is long.  A file
    is the list of its lines. */
module TxBuffers {
  import opened Ast
  import opened PendingOps
  import opened Results
  import opened Sets

  /** `failed` is the sticky spill error. */
  datatype Tx = Tx(ops: seq<PendingOp>, spilled: bool, file: seq<WireOp>, failed: bool, counter: nat,
                   savepoints: map<string, nat>, order: seq<string>)

  const START := Tx([], false, [], false, 0, map[], [])

  /** When to spill, and whether there is a directory to spill to. */
  datatype Config = Config(threshold: int, dir: bool)

  function EncodeOps(ops: seq<PendingOp>): Result<seq<WireOp>> {
    if ops == [] then Ok([]) else
    var front, last := EncodeOps(ops[..|ops| - 1]), EncodeOp(ops[|ops| - 1]);
    if front.Err? then front else if last.Err? then Err(last.error) else Ok(front.value + [last.value])
  }

  function DecodeOps(lines: seq<WireOp>): Result<seq<PendingOp>> {
    if lines == [] then Ok([]) else
    var front, last := DecodeOps(lines[..|lines| - 1]), DecodeOp(lines[|lines| - 1]);
    if front.Err? then front else if last.Err? then Err(last.error) else Ok(front.value + [last.value])
  }

  /** `spillToDisk`; `fault` says that writing the file fails. */
  function Spill(tx: Tx, fault: bool): Tx {
    var lines := EncodeOps(tx.ops);
    if lines.Err? || fault then tx.(failed := true) else tx.(spilled := true, file := lines.value, ops := [])
  }

  /** `AddOp`. */
  function Add(tx: Tx, c: Config, fault: bool, op: PendingOp): Tx {
    var t := tx.(counter := tx.counter + 1);
    if t.spilled then
      var line := EncodeOp(op);
      if line.Err? || fault then t.(failed := true) else t.(file := t.file + [line.value])
    else
      var t := t.(ops := t.ops + [op]);
      if |t.ops| >= c.threshold && c.dir then Spill(t, fault) else t
  }

  /** `ReadOps`, with a file that can be read. */
  function Read(tx: Tx): Result<seq<PendingOp>> {
    if tx.failed then Err("spill failed") else if !tx.spilled then Ok(tx.ops) else DecodeOps(tx.file)
  }

  /** `Savepoint`: a name used again moves to the new position but keeps its place in the order. */
  function Mark(tx: Tx, name: string): Tx {
    tx.(savepoints := tx.savepoints[name := tx.counter], order := if name in tx.savepoints then tx.order else tx.order + [name])
  }

  /** Drops the savepoints that come after `name` in the order. */
  function Forget(tx: Tx, name: string): Tx {
    if name !in tx.order then tx else
    var k := IndexIn(tx.order, name) + 1;
    tx.(order := tx.order[..k], savepoints := map n | n in tx.savepoints && n !in tx.order[k..] :: tx.savepoints[n])
  }

  /** `ReleaseSavepoint`. */
  function Release(tx: Tx, name: string): Tx {
    if name !in tx.savepoints then tx
    else if name !in tx.order then tx.(savepoints := tx.savepoints - {name})
    else
      var k := IndexIn(tx.order, name);
      tx.(savepoints := tx.savepoints - {name}, order := RemoveAt(tx.order, k))
  }

  function Least(a: nat, b: nat): nat {
    if a < b then a else b
  }

  /** `RollbackToSavepoint`. */
  function Rollback(tx: Tx, name: string, fault: bool): Tx {
    if name !in tx.savepoints || Read(tx).Err? then tx else
    var ops := Read(tx).value;
    var n := Least(tx.savepoints[name], |ops|);
    var kept := ops[..n];
    if !tx.spilled then Forget(tx.(ops := kept, counter := n), name)
    else if kept == [] then Forget(tx.(spilled := false, file := [], ops := [], counter := n), name)
    else
      var lines := EncodeOps(kept);
      if lines.Err? || fault then tx.(failed := true) else Forget(tx.(file := lines.value, counter := n), name)
  }

  // ----- histories

  datatype Action =
    | DoAdd(op: PendingOp, fault: bool)
    | DoMark(name: string)
    | DoRelease(name: string)
    | DoRollback(name: string, fault: bool)

  function Step(tx: Tx, c: Config, a: Action): Tx {
    match a
    case DoAdd(op, fault) => Add(tx, c, fault, op)
    case DoMark(name) => Mark(tx, name)
    case DoRelease(name) => Release(tx, name)
    case DoRollback(name, fault) => Rollback(tx, name, fault)
  }

  function Run(c: Config, tx: Tx, h: seq<Action>): Tx {
    if h == [] then tx else Step(Run(c, tx, h[..|h| - 1]), c, h[|h| - 1])
  }

  /** The buffer that keeps everything in memory. */
  const UNBOUNDED := Config(0, false)

  /** Every action as it goes when no write fails. */
  function Faultless(h: seq<Action>): seq<Action> {
    if h == [] then [] else
    var a := h[|h| - 1];
    Faultless(h[..|h| - 1]) + [match a
      case DoAdd(op, _) => DoAdd(op, false)
      case DoRollback(name, _) => DoRollback(name, false)
      case _ => a]
  }

  /** The spilled buffer holds on file what the unbounded buffer holds in memory. */
  ghost predicate Mirrors(tx: Tx, log: Tx) {
    && !log.failed && !log.spilled && log.counter == |log.ops|
    && (!tx.failed ==>
        && tx.counter == log.counter && tx.savepoints == log.savepoints && tx.order == log.order
        && if tx.spilled then EncodeOps(log.ops) == Ok(tx.file) else tx.ops == log.ops)
  }

  function RecodedAll(ops: seq<PendingOp>): (r: seq<PendingOp>)
    ensures |r| == |ops| && forall i :: 0 <= i < |ops| ==> r[i] == Recoded(ops[i])
  {
    if ops == [] then [] else RecodedAll(ops[..|ops| - 1]) + [Recoded(ops[|ops| - 1])]
  }

  lemma {:induction false} OpsRoundTrip(ops: seq<PendingOp>)
    requires EncodeOps(ops).Ok?
    ensures DecodeOps(EncodeOps(ops).value) == Ok(RecodedAll(ops))
  {
    if ops != [] {
      var n, lines := |ops| - 1, EncodeOps(ops).value;
      OpsRoundTrip(ops[..n]);
      OpRoundTrip(ops[n]);
      assert lines[..|lines| - 1] == EncodeOps(ops[..n]).value;
    }
  }

  lemma {:induction false} RecodedAllEncodesAlike(ops: seq<PendingOp>)
    ensures EncodeOps(RecodedAll(ops)) == EncodeOps(ops)
  {
    if ops != [] {
      var n, r := |ops| - 1, RecodedAll(ops);
      RecodedAllEncodesAlike(ops[..n]);
      RecodedEncodesAlike(ops[n]);
      assert r[..n] == RecodedAll(ops[..n]);
    }
  }

  lemma {:induction false} EncodePart(ops: seq<PendingOp>, n: nat)
    requires EncodeOps(ops).Ok? && n <= |ops|
    ensures EncodeOps(ops[..n]).Ok?
    decreases |ops|
  {
    if n < |ops| {
      EncodePart(ops[..|ops| - 1], n);
      assert ops[..|ops| - 1][..n] == ops[..n];
    } else {
      assert ops[..n] == ops;
    }
  }

  /** What is read back is the log, or its recoded form once spilled. */
  lemma ReadMirrors(tx: Tx, log: Tx)
    requires Mirrors(tx, log)
    ensures Read(tx) == if tx.failed then Err("spill failed") else if tx.spilled then Ok(RecodedAll(log.ops)) else Ok(log.ops)
  {
    if !tx.failed && tx.spilled {
      OpsRoundTrip(log.ops);
    }
  }

  lemma AddMirrors(tx: Tx, log: Tx, c: Config, fault: bool, op: PendingOp)
    requires Mirrors(tx, log)
    ensures Mirrors(Add(tx, c, fault, op), Add(log, UNBOUNDED, false, op))
  {
    assert (log.ops + [op])[..|log.ops|] == log.ops;
  }

  lemma ForgetMirrors(tx: Tx, log: Tx, name: string)
    requires Mirrors(tx, log) && !tx.failed
    ensures Mirrors(Forget(tx, name), Forget(log, name))
  {
  }

  lemma {:induction false} RecodedPart(ops: seq<PendingOp>, n: nat)
    requires n <= |ops|
    ensures RecodedAll(ops)[..n] == RecodedAll(ops[..n])
    decreases |ops|
  {
    if n < |ops| {
      RecodedPart(ops[..|ops| - 1], n);
      assert ops[..|ops| - 1][..n] == ops[..n];
      assert RecodedAll(ops)[..n] == RecodedAll(ops[..|ops| - 1])[..n];
    } else {
      assert ops[..n] == ops;
    }
  }

  lemma RewriteMirrors(ops: seq<PendingOp>, n: nat)
    requires EncodeOps(ops).Ok? && n <= |ops|
    ensures EncodeOps(RecodedAll(ops)[..n]) == EncodeOps(ops[..n]) && EncodeOps(ops[..n]).Ok?
  {
    RecodedPart(ops, n);
    RecodedAllEncodesAlike(ops[..n]);
    EncodePart(ops, n);
  }

  lemma SpilledRollbackMirrors(tx: Tx, log: Tx, name: string, fault: bool)
    requires Mirrors(tx, log) && !tx.failed && tx.spilled && name in tx.savepoints
    ensures Mirrors(Rollback(tx, name, fault), Rollback(log, name, false))
  {
    ReadMirrors(tx, log);
    var n := Least(tx.savepoints[name], |log.ops|);
    var cut := log.(ops := log.ops[..n], counter := n);
    RewriteMirrors(log.ops, n);
    var lines := EncodeOps(log.ops[..n]).value;
    assert Rollback(log, name, false) == Forget(cut, name);
    if n == 0 {
      ForgetMirrors(tx.(spilled := false, file := [], ops := [], counter := n), cut, name);
    } else if !fault {
      ForgetMirrors(tx.(file := lines, counter := n), cut, name);
    }
  }

  lemma RollbackMirrors(tx: Tx, log: Tx, name: string, fault: bool)
    requires Mirrors(tx, log)
    ensures Mirrors(Rollback(tx, name, fault), Rollback(log, name, false))
  {
    if !tx.failed && name in tx.savepoints && tx.spilled {
      SpilledRollbackMirrors(tx, log, name, fault);
    }
  }

  lemma {:induction false} RunMirrors(c: Config, h: seq<Action>)
    ensures Mirrors(Run(c, START, h), Run(UNBOUNDED, START, Faultless(h)))
  {
    if h != [] {
      var n, f := |h| - 1, Faultless(h);
      RunMirrors(c, h[..n]);
      assert f[..|f| - 1] == Faultless(h[..n]);
      var tx, log := Run(c, START, h[..n]), Run(UNBOUNDED, START, Faultless(h[..n]));
      match h[n]
      case DoAdd(op, fault) => AddMirrors(tx, log, c, fault, op);
      case DoRollback(name, fault) => RollbackMirrors(tx, log, name, fault);
      case _ =>
    }
  }

  /** The buffer that never spills and never fails, after a history. */
  function LogState(h: seq<Action>): Tx {
    Run(UNBOUNDED, START, Faultless(h))
  }

  /** The log of a history: what that buffer holds. */
  function Log(h: seq<Action>): seq<PendingOp> {
    LogState(h).ops
  }

  /** Whatever the threshold and whatever fails, reading the buffer gives every operation of the
      log in order, as it was buffered or as it was written out, or the sticky error. */
  lemma ReadIsLog(c: Config, h: seq<Action>)
    ensures var tx := Run(c, START, h);
      Read(tx) == if tx.failed then Err("spill failed") else if tx.spilled then Ok(RecodedAll(Log(h))) else Ok(Log(h))
  {
    RunMirrors(c, h);
    ReadMirrors(Run(c, START, h), Run(UNBOUNDED, START, Faultless(h)));
  }

  lemma {:induction false} EncodedWritable(ops: seq<PendingOp>)
    requires EncodeOps(ops).Ok?
    ensures forall i :: 0 <= i < |ops| ==> Writable(ops[i])
  {
    if ops != [] {
      EncodedWritable(ops[..|ops| - 1]);
      OpRoundTrip(ops[|ops| - 1]);
    }
  }

  /** Only operations that can be written out ever get to the file. */
  lemma SpilledWritable(c: Config, h: seq<Action>)
    ensures var tx := Run(c, START, h); !tx.failed && tx.spilled ==> forall i :: 0 <= i < |Log(h)| ==> Writable(Log(h)[i])
  {
    RunMirrors(c, h);
    var tx := Run(c, START, h);
    if !tx.failed && tx.spilled {
      EncodedWritable(Log(h));
    }
  }

  /** Nothing fails in the history, and everything added can be written out. */
  ghost predicate Sound(h: seq<Action>) {
    forall i :: 0 <= i < |h| ==>
      (h[i].DoAdd? ==> !h[i].fault && Writable(h[i].op)) && (h[i].DoRollback? ==> !h[i].fault)
  }

  lemma {:induction false} WritableEncodes(ops: seq<PendingOp>)
    requires forall op :: op in ops ==> Writable(op)
    ensures EncodeOps(ops).Ok?
  {
    if ops != [] {
      WritableEncodes(ops[..|ops| - 1]);
      OpRoundTrip(ops[|ops| - 1]);
    }
  }

  /** The error state is entered only by a failing write or an operation that cannot be written. */
  lemma {:induction false} NeverFails(c: Config, h: seq<Action>)
    requires Sound(h)
    ensures !Run(c, START, h).failed && forall op :: op in Run(c, START, h).ops ==> Writable(op)
  {
    if h != [] {
      var before := h[..|h| - 1];
      NeverFails(c, before);
      RunMirrors(c, before);
      StepNeverFails(c, Run(c, START, before), Run(UNBOUNDED, START, Faultless(before)), h[|h| - 1]);
    }
  }

  lemma StepNeverFails(c: Config, tx: Tx, log: Tx, a: Action)
    requires Mirrors(tx, log) && !tx.failed && forall op :: op in tx.ops ==> Writable(op)
    requires (a.DoAdd? ==> !a.fault && Writable(a.op)) && (a.DoRollback? ==> !a.fault)
    ensures !Step(tx, c, a).failed && forall op :: op in Step(tx, c, a).ops ==> Writable(op)
  {
    match a
    case DoAdd(op, _) =>
      OpRoundTrip(op);
      WritableEncodes(tx.ops + [op]);
    case DoRollback(name, _) =>
      ReadMirrors(tx, log);
      if tx.spilled && name in tx.savepoints {
        RewriteMirrors(log.ops, Least(tx.savepoints[name], |log.ops|));
      }
    case _ =>
  }

  // ----- savepoints

  /** The history neither sets the savepoint again nor loses it, and rolls back to no position
      below it. */
  ghost predicate Undisturbed(tx: Tx, h: seq<Action>, name: string, floor: nat) {
    forall i: nat :: i < |h| ==> UndisturbedAt(tx, h, name, floor, i)
  }

  ghost predicate UndisturbedAt(tx: Tx, h: seq<Action>, name: string, floor: nat, i: nat)
    requires i < |h|
  {
    var t := Run(UNBOUNDED, tx, h[..i]);
    && h[i] != DoMark(name) && name in Step(t, UNBOUNDED, h[i]).savepoints
    && (h[i].DoRollback? && h[i].name in t.savepoints ==> t.savepoints[h[i].name] >= floor)
  }

  ghost predicate Holds(tx: Tx, name: string, ops: seq<PendingOp>) {
    && !tx.failed && !tx.spilled && name in tx.savepoints && tx.savepoints[name] == |ops|
    && ops <= tx.ops
  }

  lemma {:induction false} HoldsOn(tx: Tx, h: seq<Action>, name: string, ops: seq<PendingOp>)
    requires Holds(tx, name, ops) && Undisturbed(tx, h, name, |ops|)
    ensures Holds(Run(UNBOUNDED, tx, h), name, ops)
  {
    if h != [] {
      var n := |h| - 1;
      forall i: nat | i < n ensures UndisturbedAt(tx, h[..n], name, |ops|, i) {
        assert UndisturbedAt(tx, h, name, |ops|, i);
        assert h[..n][..i] == h[..i];
      }
      HoldsOn(tx, h[..n], name, ops);
      assert UndisturbedAt(tx, h, name, |ops|, n);
    }
  }

  /** In memory, rolling back to a savepoint gives the operations from when it was set. */
  lemma RollbackInMemory(tx: Tx, name: string, h: seq<Action>)
    requires !tx.failed && !tx.spilled && tx.counter == |tx.ops|
    requires Undisturbed(Mark(tx, name), h, name, |tx.ops|)
    ensures Rollback(Run(UNBOUNDED, Mark(tx, name), h), name, false).ops == tx.ops
  {
    HoldsOn(Mark(tx, name), h, name, tx.ops);
  }

  lemma {:induction false} RunAppend(c: Config, tx: Tx, g: seq<Action>, h: seq<Action>)
    ensures Run(c, tx, g + h) == Run(c, Run(c, tx, g), h)
  {
    if h == [] {
      assert g + h == g;
    } else {
      assert (g + h)[..|g + h| - 1] == g + h[..|h| - 1];
      RunAppend(c, tx, g, h[..|h| - 1]);
    }
  }

  lemma {:induction false} FaultlessAppend(g: seq<Action>, h: seq<Action>)
    ensures Faultless(g + h) == Faultless(g) + Faultless(h)
  {
    if h == [] {
      assert g + h == g;
    } else {
      assert (g + h)[..|g + h| - 1] == g + h[..|h| - 1];
      FaultlessAppend(g, h[..|h| - 1]);
    }
  }

  lemma FaultlessOne(a: Action)
    ensures a.DoMark? ==> Faultless([a]) == [a]
    ensures a.DoRollback? ==> Faultless([a]) == [DoRollback(a.name, false)]
  {
    assert [a][..0] == [];
  }

  lemma RunOne(tx: Tx, a: Action)
    ensures Run(UNBOUNDED, tx, [a]) == Step(tx, UNBOUNDED, a)
  {
    assert [a][..0] == [];
  }

  /** Set a savepoint, go on, and roll back to it. */
  function ThereAndBack(before: seq<Action>, name: string, h: seq<Action>, fault: bool): seq<Action> {
    before + [DoMark(name)] + h + [DoRollback(name, fault)]
  }

  lemma BackState(before: seq<Action>, name: string, h: seq<Action>, fault: bool)
    ensures LogState(ThereAndBack(before, name, h, fault)) ==
      Rollback(Run(UNBOUNDED, Mark(LogState(before), name), Faultless(h)), name, false)
  {
    hide Faultless, Run, Mark, Rollback;
    var mark, back := [DoMark(name)], [DoRollback(name, fault)];
    FaultlessAppend(before, mark);
    FaultlessAppend(before + mark, h);
    FaultlessAppend(before + mark + h, back);
    FaultlessOne(mark[0]);
    FaultlessOne(back[0]);
    var start := LogState(before);
    RunAppend(UNBOUNDED, START, Faultless(before), mark);
    RunAppend(UNBOUNDED, START, Faultless(before) + mark, Faultless(h));
    RunAppend(UNBOUNDED, START, Faultless(before) + mark + Faultless(h), [DoRollback(name, false)]);
    RunOne(start, mark[0]);
    RunOne(Run(UNBOUNDED, Mark(start, name), Faultless(h)), DoRollback(name, false));
  }

  /** Rolling back to a savepoint undoes everything since: whatever the threshold and whatever
      fails, the buffer reads as it was when the savepoint was set, as buffered or as written out,
      or it reads as the sticky error. */
  lemma RollbackRestores(c: Config, before: seq<Action>, name: string, h: seq<Action>, fault: bool)
    requires Undisturbed(Mark(LogState(before), name), Faultless(h), name, |Log(before)|)
    ensures var tx := Run(c, START, ThereAndBack(before, name, h, fault));
      Read(tx) == if tx.failed then Err("spill failed") else if tx.spilled then Ok(RecodedAll(Log(before))) else Ok(Log(before))
  {
    hide Run, ThereAndBack, Undisturbed;
    RunMirrors(UNBOUNDED, before);
    BackState(before, name, h, fault);
    RollbackInMemory(LogState(before), name, Faultless(h));
    ReadIsLog(c, ThereAndBack(before, name, h, fault));
  }

  /** The order lists the savepoints once each, by rising position. */
  ghost predicate RankedBy<T(!new)>(order: seq<T>, marks: map<T, nat>, counter: nat) {
    && (forall n :: n in marks <==> n in order)
    && (forall i, j :: 0 <= i < j < |order| ==> order[i] != order[j] && marks[order[i]] <= marks[order[j]])
    && forall n :: n in marks ==> marks[n] <= counter
  }

  ghost predicate Ranked(tx: Tx) {
    RankedBy(tx.order, tx.savepoints, tx.counter)
  }

  /** Nothing was buffered since the savepoints that follow the name in the order: so a name that is
      set again must be the last, or be followed by savepoints of this moment only. */
  ghost predicate TidyBy<T(!new)>(order: seq<T>, marks: map<T, nat>, counter: nat, name: T) {
    name in order ==> forall j :: IndexIn(order, name) < j < |order| && order[j] in marks ==> marks[order[j]] == counter
  }

  ghost predicate Tidy(tx: Tx, name: string) {
    TidyBy(tx.order, tx.savepoints, tx.counter, name)
  }

  ghost predicate TidyAt(c: Config, h: seq<Action>, i: nat)
    requires i < |h|
  {
    h[i].DoMark? ==> Tidy(Run(c, START, h[..i]), h[i].name)
  }

  lemma CutRanked<T(!new)>(order: seq<T>, marks: map<T, nat>, counter: nat, k: nat, kept: map<T, nat>)
    requires RankedBy(order, marks, counter) && k < |order|
    requires kept == map n | n in marks && n !in order[k + 1..] :: marks[n]
    ensures RankedBy(order[..k + 1], kept, marks[order[k]])
  {
    var front := order[..k + 1];
    forall m ensures m in kept <==> m in front {
      if m in order {
        var i := IndexIn(order, m);
        assert i <= k ==> m == front[i];
        assert i > k ==> m == order[k + 1..][i - k - 1];
      }
    }
    forall m | m in kept ensures kept[m] <= marks[order[k]] {
      var i :| 0 <= i < |front| && front[i] == m;
      assert order[i] == m;
    }
  }

  lemma RemovedAt<T>(order: seq<T>, k: nat, i: nat) returns (o: nat)
    requires k < |order| && i < |order| - 1
    ensures o < |order| && o != k && RemoveAt(order, k)[i] == order[o] && o == if i < k then i else i + 1
  {
    o := if i < k then i else i + 1;
  }

  lemma RemovedPairs<T(!new)>(order: seq<T>, marks: map<T, nat>, counter: nat, k: nat, i: nat, j: nat)
    requires RankedBy(order, marks, counter) && k < |order| && i < j < |order| - 1
    ensures var r := RemoveAt(order, k); r[i] in marks && r[j] in marks && r[i] != r[j] && marks[r[i]] <= marks[r[j]]
  {
    var p := RemovedAt(order, k, i);
    var q := RemovedAt(order, k, j);
    assert order[p] in order && order[q] in order;
  }

  lemma TakeOutRanked<T(!new)>(order: seq<T>, marks: map<T, nat>, counter: nat, k: nat)
    requires RankedBy(order, marks, counter) && k < |order|
    ensures RankedBy(RemoveAt(order, k), marks - {order[k]}, counter)
  {
    var rest, kept := RemoveAt(order, k), marks - {order[k]};
    forall m | m in kept ensures m in rest {
      var i := IndexIn(order, m);
      assert rest[if i < k then i else i - 1] == m;
    }
    forall m | m in rest ensures m in kept {
      var i :| 0 <= i < |rest| && rest[i] == m;
      var o := RemovedAt(order, k, i);
      assert order[o] in order;
    }
    forall i: nat, j: nat | i < j < |rest| ensures rest[i] != rest[j] && marks[rest[i]] <= marks[rest[j]] {
      RemovedPairs(order, marks, counter, k, i, j);
    }
  }

  lemma PushRanked<T(!new)>(order: seq<T>, marks: map<T, nat>, counter: nat, name: T)
    requires RankedBy(order, marks, counter) && name !in marks
    ensures RankedBy(order + [name], marks[name := counter], counter)
  {
    assert forall i :: 0 <= i < |order| ==> order[i] in order;
  }

  /** A name set again keeps its place, so the order stays by position exactly when that is tidy. */
  lemma RemarkRankedIff<T(!new)>(order: seq<T>, marks: map<T, nat>, counter: nat, name: T)
    requires RankedBy(order, marks, counter) && name in marks
    ensures RankedBy(order, marks[name := counter], counter) <==> TidyBy(order, marks, counter, name)
  {
    var k, after := IndexIn(order, name), marks[name := counter];
    assert forall i :: 0 <= i < |order| ==> order[i] in marks && (order[i] == name <==> i == k);
    if RankedBy(order, after, counter) {
      forall j | k < j < |order| ensures marks[order[j]] == counter {
        assert after[order[k]] <= after[order[j]];
      }
    }
  }

  lemma MarkRankedIff(tx: Tx, name: string)
    requires Ranked(tx)
    ensures Ranked(Mark(tx, name)) <==> Tidy(tx, name)
  {
    if name in tx.savepoints {
      RemarkRankedIff(tx.order, tx.savepoints, tx.counter, name);
    } else {
      PushRanked(tx.order, tx.savepoints, tx.counter, name);
    }
  }

  lemma ForgetRanked(tx: Tx, name: string, bound: nat)
    requires RankedBy(tx.order, tx.savepoints, bound) && name in tx.savepoints && tx.counter == tx.savepoints[name]
    ensures Ranked(Forget(tx, name))
  {
    var k := IndexIn(tx.order, name);
    CutRanked(tx.order, tx.savepoints, bound, k, map m | m in tx.savepoints && m !in tx.order[k + 1..] :: tx.savepoints[m]);
  }

  /** The counter counts the operations that can be read. */
  ghost predicate Counted(tx: Tx) {
    Read(tx).Ok? ==> |Read(tx).value| == tx.counter
  }

  lemma RollbackRanked(tx: Tx, name: string, fault: bool)
    requires Ranked(tx) && Counted(tx)
    ensures Ranked(Rollback(tx, name, fault))
  {
    hide Read, Forget, EncodeOps;
    var r := Rollback(tx, name, fault);
    if name in tx.savepoints && Read(tx).Ok? {
      var n := tx.savepoints[name];
      var kept := Read(tx).value[..n];
      var cut := if !tx.spilled then tx.(ops := kept, counter := n)
        else if kept == [] then tx.(spilled := false, file := [], ops := [], counter := n)
        else if EncodeOps(kept).Ok? then tx.(file := EncodeOps(kept).value, counter := n) else tx.(counter := n);
      ForgetRanked(cut, name, tx.counter);
    }
  }

  lemma StepRankedIff(tx: Tx, c: Config, a: Action)
    requires Ranked(tx) && Counted(tx)
    ensures Ranked(Step(tx, c, a)) <==> (a.DoMark? ==> Tidy(tx, a.name))
  {
    match a
    case DoRelease(name) =>
      if name in tx.savepoints {
        TakeOutRanked(tx.order, tx.savepoints, tx.counter, IndexIn(tx.order, name));
      }
    case DoRollback(name, fault) => RollbackRanked(tx, name, fault);
    case DoMark(name) => MarkRankedIff(tx, name);
    case DoAdd(op, fault) => AddKeepsOrder(tx, c, fault, op);
  }

  lemma AddKeepsOrder(tx: Tx, c: Config, fault: bool, op: PendingOp)
    ensures var t := Add(tx, c, fault, op); t.order == tx.order && t.savepoints == tx.savepoints && t.counter == tx.counter + 1
  {
  }

  lemma RunCounted(c: Config, h: seq<Action>)
    ensures Counted(Run(c, START, h))
  {
    RunMirrors(c, h);
    ReadMirrors(Run(c, START, h), LogState(h));
  }

  ghost predicate RankedAt(c: Config, h: seq<Action>, i: nat)
    requires i <= |h|
  {
    Ranked(Run(c, START, h[..i]))
  }

  lemma PrefixRun(c: Config, h: seq<Action>, i: nat)
    requires i < |h|
    ensures Run(c, START, h[..i + 1]) == Step(Run(c, START, h[..i]), c, h[i])
  {
    hide Step;
    assert h[..i + 1][..i] == h[..i];
  }

  lemma {:induction false} TidyRanked(c: Config, h: seq<Action>, n: nat)
    requires n <= |h| && forall i: nat :: i < n ==> TidyAt(c, h, i)
    ensures RankedAt(c, h, n)
  {
    hide Run, Ranked, Tidy;
    if n == 0 {
      StartRanked(c, h);
    } else {
      TidyRanked(c, h, n - 1);
      PrefixRun(c, h, n - 1);
      RunCounted(c, h[..n - 1]);
      assert TidyAt(c, h, n - 1);
      StepRankedIff(Run(c, START, h[..n - 1]), c, h[n - 1]);
    }
  }

  lemma StartRanked(c: Config, h: seq<Action>)
    ensures RankedAt(c, h, 0)
  {
    assert h[..0] == [];
  }

  /** At every moment of a history, with any threshold and any faults, the savepoints are listed by
      rising position up to the end of the buffer: exactly when every name that is set again is
      followed only by savepoints of that moment. */
  lemma SavepointsRankedIff(c: Config, h: seq<Action>)
    ensures (forall i: nat :: i <= |h| ==> RankedAt(c, h, i)) <==> forall i: nat :: i < |h| ==> TidyAt(c, h, i)
  {
    hide Run, Ranked, Tidy;
    if forall i: nat :: i < |h| ==> TidyAt(c, h, i) {
      forall i: nat | i <= |h| ensures RankedAt(c, h, i) {
        TidyRanked(c, h, i);
      }
    }
    if forall i: nat :: i <= |h| ==> RankedAt(c, h, i) {
      forall i: nat | i < |h| ensures TidyAt(c, h, i) {
        assert RankedAt(c, h, i) && RankedAt(c, h, i + 1);
        PrefixRun(c, h, i);
        RunCounted(c, h[..i]);
        StepRankedIff(Run(c, START, h[..i]), c, h[i]);
      }
    }
  }

  /** A savepoint that was set again survives a rollback to an earlier one, with a position behind
      the end of the buffer. */
  lemma RepeatedNameLeftBehind(x: PendingOp)
    ensures var t0 := Add(Mark(START, "a"), UNBOUNDED, false, x);
      var t1 := Add(Mark(t0, "b"), UNBOUNDED, false, x);
      var t2 := Rollback(Mark(t1, "a"), "b", false);
      t2.counter == 1 && "a" in t2.savepoints && t2.savepoints["a"] == 2
  {
    var t0 := Add(Mark(START, "a"), UNBOUNDED, false, x);
    var t1 := Add(Mark(t0, "b"), UNBOUNDED, false, x);
    var t2 := Mark(t1, "a");
    assert t2.order == ["a", "b"] && t2.savepoints == map["a" := 2, "b" := 1];
    assert IndexIn(t2.order, "b") == 1;
  }

  // ----- the transaction object

  lemma EncodeOpsPush(ops: seq<PendingOp>, i: nat)
    requires i < |ops|
    ensures EncodeOps(ops[..i + 1]) ==
      if EncodeOps(ops[..i]).Err? then EncodeOps(ops[..i])
      else if EncodeOp(ops[i]).Err? then Err(EncodeOp(ops[i]).error)
      else Ok(EncodeOps(ops[..i]).value + [EncodeOp(ops[i]).value])
  {
    assert ops[..i + 1][..i] == ops[..i];
  }

  lemma {:induction false} EncodeOpsFails(ops: seq<PendingOp>, i: nat)
    requires i <= |ops| && EncodeOps(ops[..i]).Err?
    ensures EncodeOps(ops) == EncodeOps(ops[..i])
    decreases |ops| - i
  {
    if i < |ops| {
      EncodeOpsPush(ops, i);
      EncodeOpsFails(ops, i + 1);
    } else {
      assert ops[..i] == ops;
    }
  }

  /** `writeOpsToFile`: the lines, or the first error. */
  method WriteOps(ops: seq<PendingOp>) returns (lines: Result<seq<WireOp>>)
    ensures lines == EncodeOps(ops)
  {
    var written := [];
    for i := 0 to |ops|
      invariant EncodeOps(ops[..i]) == Ok(written)
    {
      EncodeOpsPush(ops, i);
      var line := EncodeOp(ops[i]);
      if line.Err? {
        EncodeOpsFails(ops, i + 1);
        return Err(line.error);
      }
      written := written + [line.value];
    }
    assert ops[..|ops|] == ops;
    return Ok(written);
  }

  lemma DecodeOpsPush(lines: seq<WireOp>, i: nat)
    requires i < |lines|
    ensures DecodeOps(lines[..i + 1]) ==
      if DecodeOps(lines[..i]).Err? then DecodeOps(lines[..i])
      else if DecodeOp(lines[i]).Err? then Err(DecodeOp(lines[i]).error)
      else Ok(DecodeOps(lines[..i]).value + [DecodeOp(lines[i]).value])
  {
    assert lines[..i + 1][..i] == lines[..i];
  }

  lemma {:induction false} DecodeOpsFails(lines: seq<WireOp>, i: nat)
    requires i <= |lines| && DecodeOps(lines[..i]).Err?
    ensures DecodeOps(lines) == DecodeOps(lines[..i])
    decreases |lines| - i
  {
    if i < |lines| {
      DecodeOpsPush(lines, i);
      DecodeOpsFails(lines, i + 1);
    } else {
      assert lines[..i] == lines;
    }
  }

  /** The line loop of `ReadOps`. */
  method ReadLines(lines: seq<WireOp>) returns (ops: Result<seq<PendingOp>>)
    ensures ops == DecodeOps(lines)
  {
    var read := [];
    for i := 0 to |lines|
      invariant DecodeOps(lines[..i]) == Ok(read)
    {
      DecodeOpsPush(lines, i);
      var op := DecodeOp(lines[i]);
      if op.Err? {
        DecodeOpsFails(lines, i + 1);
        return Err(op.error);
      }
      read := read + [op.value];
    }
    assert lines[..|lines|] == lines;
    return Ok(read);
  }

  class Transaction {
    var ops: seq<PendingOp>
    var spilled: bool
    var file: seq<WireOp>
    var failed: bool
    var counter: nat
    var savepoints: map<string, nat>
    var order: seq<string>

    function Model(): Tx
      reads this
    {
      Tx(ops, spilled, file, failed, counter, savepoints, order)
    }

    constructor ()
      ensures Model() == START
    {
      ops, spilled, file, failed, counter, savepoints, order := [], false, [], false, 0, map[], [];
    }

    method SpillToDisk(fault: bool)
      modifies this
      ensures Model() == Spill(old(Model()), fault)
    {
      var lines := WriteOps(ops);
      if lines.Err? || fault {
        failed := true;
      } else {
        spilled, file, ops := true, lines.value, [];
      }
    }

    method AddOp(c: Config, fault: bool, op: PendingOp)
      modifies this
      ensures Model() == Add(old(Model()), c, fault, op)
    {
      counter := counter + 1;
      if spilled {
        var line := EncodeOp(op);
        if line.Err? || fault {
          failed := true;
        } else {
          file := file + [line.value];
        }
      } else {
        ops := ops + [op];
        if |ops| >= c.threshold && c.dir {
          SpillToDisk(fault);
        }
      }
    }

    method ReadOps() returns (r: Result<seq<PendingOp>>)
      ensures r == Read(Model())
    {
      if failed {
        return Err("spill failed");
      }
      if !spilled {
        return Ok(ops);
      }
      r := ReadLines(file);
    }

    method Savepoint(name: string)
      modifies `savepoints, `order
      ensures Model() == Mark(old(Model()), name)
    {
      if name !in savepoints {
        order := order + [name];
      }
      savepoints := savepoints[name := counter];
    }

    method ReleaseSavepoint(name: string) returns (known: bool)
      modifies `savepoints, `order
      ensures Model() == Release(old(Model()), name) && known == (name in old(savepoints))
    {
      if name !in savepoints {
        return false;
      }
      savepoints := savepoints - {name};
      if name in order {
        order := RemoveAt(order, IndexIn(order, name));
      }
      return true;
    }

    method ForgetLater(name: string)
      modifies `savepoints, `order
      ensures Model() == Forget(old(Model()), name)
    {
      if name !in order {
        return;
      }
      var k := IndexIn(order, name) + 1;
      var gone := order[k..];
      for i := 0 to |gone|
        invariant order == old(order)
        invariant savepoints == map n | n in old(savepoints) && n !in gone[..i] :: old(savepoints)[n]
      {
        assert gone[..i + 1] == gone[..i] + [gone[i]];
        savepoints := savepoints - {gone[i]};
      }
      assert gone[..|gone|] == gone;
      order := order[..k];
    }

    /** Fails on an unknown name, a failed buffer or a failing write. */
    method RollbackToSavepoint(name: string, fault: bool) returns (ok: bool)
      modifies this
      ensures Model() == Rollback(old(Model()), name, fault)
      ensures ok <==> name in old(savepoints) && Read(old(Model())).Ok? && !Rollback(old(Model()), name, fault).failed
    {
      if name !in savepoints {
        return false;
      }
      var all := ReadOps();
      if all.Err? {
        return false;
      }
      var n := Least(savepoints[name], |all.value|);
      var kept := all.value[..n];
      if spilled {
        if |kept| == 0 {
          spilled, file, ops := false, [], [];
        } else {
          var lines := WriteOps(kept);
          if lines.Err? || fault {
            failed := true;
            return false;
          }
          file := lines.value;
        }
      } else {
        ops := kept;
      }
      counter := n;
      ForgetLater(name);
      return true;
    }
  }
}
