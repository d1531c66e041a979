/** Committing the buffered operations, and when the overlay showed what the commit produces. */
module TxCommits {
  import opened Ast
  import opened Correlation
  import opened Evaluation
  import opened Freezing
  import opened PendingOps
  import opened Results
  import opened Text
  import opened TxOverlays
  import opened WireCodec

  /** What the storage adds when a statement is executed: constraints on the old and new rows, the
      columns that count up and their next values, and the statement forms not looked into. */
  datatype Keeper = Keeper(
    admits: (seq<Row>, seq<Row>) -> bool,
    serial: set<nat>,
    next: (nat, nat) -> int,
    other: (Payload, seq<Row>) -> Result<seq<Row>>)

  // ----- INSERT

  /** The row with the counting columns filled in where it leaves them NULL. */
  function Numbered(k: Keeper, row: Row, j: nat): Row {
    seq(|row|, i requires 0 <= i < |row| => if i in k.serial && row[i].Null? then Int(k.next(i, j)) else row[i])
  }

  function NumberedAll(k: Keeper, rows: seq<Row>): seq<Row> {
    seq(|rows|, j requires 0 <= j < |rows| => Numbered(k, rows[j], j))
  }

  // ----- UPDATE

  /** Which rows the condition holds for; all are tested before any is changed. */
  function Hits(env: Env, t: Table, clock: Clock, at: Path, cond: Expr, rows: seq<Row>): (r: Result<seq<bool>>)
    ensures r.Ok? ==> |r.value| == |rows|
  {
    if rows == [] then Ok([]) else
    var n := |rows| - 1;
    var front := Hits(env, t, clock, at, cond, rows[..n]);
    if front.Err? then front else
    var hit := Test(env, clock, at + [n], cond, OnRow(t, rows[n]));
    if hit.Err? then Err(hit.error) else Ok(front.value + [hit.value])
  }

  /** The hit rows with the assignments evaluated on each of them. */
  function Rewritten(env: Env, t: Table, clock: Clock, at: Path, s: seq<Assignment>, rows: seq<Row>, hits: seq<bool>): Result<seq<Row>>
    requires |hits| == |rows|
  {
    if rows == [] then Ok([]) else
    var n := |rows| - 1;
    var front := Rewritten(env, t, clock, at, s, rows[..n], hits[..n]);
    if front.Err? then front
    else if !hits[n] then Ok(front.value + [rows[n]])
    else
      var settings := Settings(env, t, clock, at + [n], s, rows[n]);
      if settings.Err? then Err(settings.error) else Ok(front.value + [AssignedAll(t.columns, rows[n], settings.value)])
  }

  // ----- the commit

  function Executed(env: Env, t: Table, k: Keeper, clock: Clock, at: Path, op: PendingOp, rows: seq<Row>): Result<seq<Row>> {
    var p := op.payload;
    if op.kind == "insert" then
      if !p.Insert? then Err("invalid insert payload type")
      else if p.select || p.onConflict || p.orReplace then k.other(p, rows)
      else
        var new_ := Inserted(env, t, clock, at, p);
        if new_.Err? then new_ else Ok(rows + NumberedAll(k, new_.value))
    else if op.kind == "update" then
      if !p.Update? then Err("invalid update payload type")
      else if p.fromTable != "" || p.fromQuery then Err("UPDATE FROM is not supported")
      else
        var hits := Hits(env, t, clock, at + [1], p.cond, rows);
        if hits.Err? then Err(hits.error) else Rewritten(env, t, clock, at + [0], p.assignments, rows, hits.value)
    else if op.kind == "delete" then
      if !p.Delete? then Err("invalid delete payload type") else KeptRows(env, t, clock, at, p.cond, rows)
    else if op.kind == "truncate" then
      if !p.Truncate? then Err("invalid truncate payload type") else Ok([])
    else Ok(rows)
  }

  /** One operation of `applyOps`: executed, and refused by a constraint it breaks. */
  function CommitOp(env: Env, t: Table, k: Keeper, clock: Clock, at: Path, op: PendingOp, rows: seq<Row>): Result<seq<Row>> {
    var r := Executed(env, t, k, clock, at, op, rows);
    if r.Ok? && !k.admits(rows, r.value) then Err("constraint failed") else r
  }

  /** What committing leaves in the table. */
  function Commit(env: Env, t: Table, k: Keeper, clock: Clock, db: string, name: string, ops: seq<PendingOp>, base: seq<Row>): Result<seq<Row>> {
    if ops == [] then Ok(base) else
    var n := |ops| - 1;
    var before := Commit(env, t, k, clock, db, name, ops[..n], base);
    if before.Err? || ops[n].db != db || ops[n].table != name then before
    else CommitOp(env, t, k, clock, [n], ops[n], before.value)
  }

  // ----- an UPDATE, in the overlay and in the commit

  lemma {:induction false} ScanNothing(columns: seq<string>, name: string, i: nat)
    requires i <= |columns|
    ensures Scan(columns, [], name, i).Err?
    decreases |columns| - i
  {
    if i < |columns| {
      ScanNothing(columns, name, i + 1);
    }
  }

  lemma NoRowEmpty(t: Table)
    requires NoOldNew(t)
    ensures Empty(OnRow(t, []))
  {
    forall table, name ensures OnRow(t, [])(table, name).Err? {
      ScanNothing(t.columns, name, 0);
      ScanNothing(t.columns, table + "." + name, 0);
    }
  }

  predicate AssignmentsPlain(s: seq<Assignment>) {
    forall i :: 0 <= i < |s| ==> Plain(s[i].value)
  }

  /** Values that could be had without a row are the values on every row, at any moment. */
  lemma {:induction false} SettingsSame(env: Env, t: Table, c: Clock, at: Path, c2: Clock, at2: Path, s: seq<Assignment>, row: Row)
    requires NoOldNew(t) && AssignmentsPlain(s) && AssignmentsQuiet(s) && Settings(env, t, c, at, s).Ok?
    ensures Settings(env, t, c2, at2, s, row) == Settings(env, t, c, at, s)
  {
    hide Eval, Plain, Volatile, OnRow;
    if s != [] {
      var n := |s| - 1;
      SettingsSame(env, t, c, at, c2, at2, s[..n], row);
      NoRowEmpty(t);
      Rowless(env, c, at + [n], s[n].value, OnRow(t, []), OnRow(t, row));
      ClockFree(env, c, at + [n], c2, at2 + [n], s[n].value, OnRow(t, row));
    }
  }

  lemma TestAt(env: Env, c: Clock, p: Path, c2: Clock, p2: Path, cond: Expr, scope: Scope)
    requires !Volatile(cond)
    ensures Test(env, c, p, cond, scope) == Test(env, c2, p2, cond, scope)
  {
    hide Eval, Volatile;
    ClockFree(env, c, p, c2, p2, cond, scope);
  }

  lemma {:induction false} RowsMatch(env: Env, t: Table, c: Clock, at: Path, c2: Clock, at2: Path, p: Payload, settings: seq<Setting>, rows: seq<Row>)
    requires p.Update? && !Volatile(p.cond) && Hits(env, t, c2, at2 + [1], p.cond, rows).Ok?
    requires forall q: Path, row: Row :: Settings(env, t, c2, q, p.assignments, row) == Ok(settings)
    ensures UpdatedRows(env, t, c, at + [1], p.cond, settings, rows)
      == Rewritten(env, t, c2, at2 + [0], p.assignments, rows, Hits(env, t, c2, at2 + [1], p.cond, rows).value)
  {
    hide Settings, Test, Volatile, OnRow, AssignedAll;
    if rows != [] {
      var n := |rows| - 1;
      var hits := Hits(env, t, c2, at2 + [1], p.cond, rows).value;
      RowsMatch(env, t, c, at, c2, at2, p, settings, rows[..n]);
      assert hits[..n] == Hits(env, t, c2, at2 + [1], p.cond, rows[..n]).value;
      TestAt(env, c, at + [1] + [n], c2, at2 + [1] + [n], p.cond, OnRow(t, rows[n]));
      assert Settings(env, t, c2, at2 + [0] + [n], p.assignments, rows[n]) == Ok(settings);
    }
  }

  /** The operation does not look at the clock, and is of the forms looked into. */
  ghost predicate Simple(t: Table, op: PendingOp) {
    var p := op.payload;
    && Unclocked(t, op)
    && (p.Insert? ==> !p.select && !p.onConflict && !p.orReplace)
    && (p.Update? ==> AssignmentsPlain(p.assignments))
  }

  lemma UpdateMatches(env: Env, t: Table, k: Keeper, c: Clock, at: Path, c2: Clock, at2: Path, op: PendingOp, rows: seq<Row>)
    requires op.kind == "update" && NoOldNew(t) && Simple(t, op) && Executed(env, t, k, c2, at2, op, rows).Ok?
    requires Settings(env, t, c, at + [0], op.payload.assignments).Ok?
    ensures ApplyOp(env, t, c, at, op, rows) == Executed(env, t, k, c2, at2, op, rows)
  {
    hide Settings, UpdatedRows, Rewritten, Hits, Volatile, QuietTable, RowsQuiet;
    var p := op.payload;
    assert op.kind != "insert";
    var settings := Settings(env, t, c, at + [0], p.assignments).value;
    forall q: Path, row: Row ensures Settings(env, t, c2, q, p.assignments, row) == Ok(settings) {
      SettingsSame(env, t, c, at + [0], c2, q, p.assignments, row);
    }
    RowsMatch(env, t, c, at, c2, at2, p, settings, rows);
  }

  /** Whatever order the overlay visits the assignments in, it shows `shown`. */
  ghost predicate Shown(env: Env, t: Table, c: Clock, at: Path, op: PendingOp, rows: seq<Row>, shown: Result<seq<Row>>) {
    forall r :: MayApply(env, t, c, at, op, rows, r) ==> r == shown
  }

  /** On the rows that are hit, different spellings of one column are given one value. */
  ghost predicate Undisputed(t: Table, settings: seq<Setting>, rows: seq<Row>, hits: seq<bool>)
    requires |hits| == |rows|
  {
    forall i :: 0 <= i < |rows| && hits[i] ==> Agreed(t.columns, |rows[i]|, Gathered(settings))
  }

  lemma {:induction false} HitTested(env: Env, t: Table, c: Clock, at: Path, cond: Expr, rows: seq<Row>, i: nat)
    requires Hits(env, t, c, at, cond, rows).Ok? && i < |rows|
    ensures Test(env, c, at + [i], cond, OnRow(t, rows[i])) == Ok(Hits(env, t, c, at, cond, rows).value[i])
  {
    hide Test, OnRow;
    var n := |rows| - 1;
    if i < n {
      HitTested(env, t, c, at, cond, rows[..n], i);
    }
  }

  lemma {:induction false} UpdatedAt(env: Env, t: Table, c: Clock, at: Path, cond: Expr, settings: seq<Setting>, rows: seq<Row>, i: nat)
    requires UpdatedRows(env, t, c, at, cond, settings, rows).Ok? && i < |rows|
    ensures var r, hit := UpdatedRows(env, t, c, at, cond, settings, rows).value, Test(env, c, at + [i], cond, OnRow(t, rows[i]));
      |r| == |rows| && hit.Ok? && r[i] == if hit.value then AssignedAll(t.columns, rows[i], settings) else rows[i]
  {
    hide Test, OnRow, AssignedAll;
    var n := |rows| - 1;
    if n > 0 {
      UpdatedAt(env, t, c, at, cond, settings, rows[..n], if i < n then i else 0);
    } else {
      assert rows[..n] == [];
    }
  }

  lemma UpdateShown(env: Env, t: Table, k: Keeper, c: Clock, at: Path, c2: Clock, at2: Path, op: PendingOp, rows: seq<Row>)
    requires op.kind == "update" && NoOldNew(t) && Simple(t, op) && CommitOp(env, t, k, c2, at2, op, rows).Ok?
    requires Settings(env, t, c, at + [0], op.payload.assignments).Ok?
    ensures Hits(env, t, c2, at2 + [1], op.payload.cond, rows).Ok?
    ensures Shown(env, t, c, at, op, rows, CommitOp(env, t, k, c2, at2, op, rows))
      <==> Undisputed(t, Settings(env, t, c, at + [0], op.payload.assignments).value, rows, Hits(env, t, c2, at2 + [1], op.payload.cond, rows).value)
  {
    hide Settings, UpdatedRows, Rewritten, Hits, Test, Simple, MayUpdate, Agreed, Gathered, OnRow;
    assert op.kind != "insert";
    var p, settings := op.payload, Settings(env, t, c, at + [0], op.payload.assignments).value;
    var hits, updates := Hits(env, t, c2, at2 + [1], p.cond, rows).value, Gathered(settings);
    UpdateMatches(env, t, k, c, at, c2, at2, op, rows);
    forall i | 0 <= i < |rows| ensures Test(env, c, at + [1] + [i], p.cond, OnRow(t, rows[i])) == Ok(hits[i]) {
      HitTested(env, t, c2, at2 + [1], p.cond, rows, i);
      SimpleTest(t, op);
      TestAt(env, c, at + [1] + [i], c2, at2 + [1] + [i], p.cond, OnRow(t, rows[i]));
    }
    if Undisputed(t, settings, rows, hits) {
      forall r | MayApply(env, t, c, at, op, rows, r) ensures r == CommitOp(env, t, k, c2, at2, op, rows) {
        UpdateDetermined(env, t, c, at + [1], p.cond, settings, rows, r);
      }
    } else {
      var i :| 0 <= i < |rows| && hits[i] && !Agreed(t.columns, |rows[i]|, updates);
      OrderIrrelevantIff(t.columns, rows[i], settings);
      var row :| MayAssign(t.columns, rows[i], updates, row) && row != AssignedAll(t.columns, rows[i], settings);
      UpdatedAt(env, t, c, at + [1], p.cond, settings, rows, i);
      var r := SomeUpdate(env, t, c, at + [1], p.cond, settings, updates, rows, i, row);
      assert MayApply(env, t, c, at, op, rows, Ok(r));
    }
  }

  lemma SimpleTest(t: Table, op: PendingOp)
    requires Simple(t, op) && op.payload.Update?
    ensures !Volatile(op.payload.cond)
  {
    hide Volatile;
  }

  /** An UPDATE that can be committed is shown by the overlay as it is committed, whatever order it
      visits the assignments in, exactly when its values can be had without a row and different
      spellings of one column are given one value on the rows it hits. */
  lemma UpdateMatchesIff(env: Env, t: Table, k: Keeper, c: Clock, at: Path, c2: Clock, at2: Path, op: PendingOp, rows: seq<Row>)
    requires op.kind == "update" && NoOldNew(t) && Simple(t, op) && CommitOp(env, t, k, c2, at2, op, rows).Ok?
    ensures Hits(env, t, c2, at2 + [1], op.payload.cond, rows).Ok?
    ensures var settings, hits := Settings(env, t, c, at + [0], op.payload.assignments), Hits(env, t, c2, at2 + [1], op.payload.cond, rows).value;
      Shown(env, t, c, at, op, rows, CommitOp(env, t, k, c2, at2, op, rows)) <==> settings.Ok? && Undisputed(t, settings.value, rows, hits)
  {
    hide Settings, UpdatedRows, Rewritten, Hits, Simple, MayUpdate, Undisputed;
    assert op.kind != "insert";
    if Settings(env, t, c, at + [0], op.payload.assignments).Ok? {
      UpdateShown(env, t, k, c, at, c2, at2, op, rows);
    } else {
      assert MayApply(env, t, c, at, op, rows, ApplyOp(env, t, c, at, op, rows));
    }
  }

  // ----- which values can be had without a row

  lemma {:induction false} ColumnMissed(env: Env, c: Clock, p: Path, e: Expr, none: Scope)
    requires Empty(none) && Strict(e) && ColumnsOf(e) != {}
    ensures Eval(env, c, p, e, none).Err? && !e.Nil?
    decreases e, 0
  {
    hide Apply, WithinBounds, ToRaw;
    match e
    case Binary(l, _, r) => EitherMissed(env, c, p, l, r, none);
    case And(l, r) => EitherMissed(env, c, p, l, r, none);
    case Or(l, r) => EitherMissed(env, c, p, l, r, none);
    case Not(x) => ColumnMissed(env, c, p + [0], x, none);
    case Between(x, lower, upper, _) =>
      if ColumnsOf(x) != {} {
        ColumnMissed(env, c, p + [0], x, none);
      } else if ColumnsOf(lower) != {} {
        ColumnMissed(env, c, p + [1], lower, none);
      } else {
        ColumnMissed(env, c, p + [2], upper, none);
      }
    case Cast(x, _) => ColumnMissed(env, c, p + [0], x, none);
    case Call(_, args) => AllMissed(env, c, p, args, none);
    case _ =>
  }

  lemma {:induction false} EitherMissed(env: Env, c: Clock, p: Path, l: Expr, r: Expr, none: Scope)
    requires Empty(none) && Strict(l) && Strict(r) && ColumnsOf(l) + ColumnsOf(r) != {}
    ensures (!l.Nil? && Eval(env, c, p + [0], l, none).Err?) || (!r.Nil? && Eval(env, c, p + [1], r, none).Err?)
    decreases (if ColumnsOf(l) != {} then l else r), 1
  {
    if ColumnsOf(l) != {} {
      ColumnMissed(env, c, p + [0], l, none);
    } else {
      ColumnMissed(env, c, p + [1], r, none);
    }
  }

  lemma {:induction false} AllMissed(env: Env, c: Clock, p: Path, es: seq<Expr>, none: Scope)
    requires Empty(none) && AllStrict(es) && ColumnsOfAll(es) != {}
    ensures EvalAll(env, c, p, es, none).Err?
    decreases es, 0
  {
    var n := |es| - 1;
    if ColumnsOfAll(es[..n]) != {} {
      AllMissed(env, c, p, es[..n], none);
    } else {
      ColumnMissed(env, c, p + [n], es[n], none);
    }
  }

  predicate AssignmentsStrict(s: seq<Assignment>) {
    forall i :: 0 <= i < |s| ==> Strict(s[i].value)
  }

  predicate MentionsColumn(s: seq<Assignment>) {
    exists i :: 0 <= i < |s| && ColumnsOf(s[i].value) != {}
  }

  /** Values that could be had on some row can be had without one exactly when no column occurs. */
  lemma {:induction false} SettingsWithoutRowIff(env: Env, t: Table, c: Clock, at: Path, c2: Clock, at2: Path, s: seq<Assignment>, row: Row)
    requires NoOldNew(t) && AssignmentsStrict(s) && AssignmentsQuiet(s) && Settings(env, t, c2, at2, s, row).Ok?
    ensures Settings(env, t, c, at, s).Ok? <==> !MentionsColumn(s)
  {
    hide Eval, Listless, Volatile, ColumnsOf, OnRow, Plain;
    if s != [] {
      var n := |s| - 1;
      var e := s[n].value;
      SettingsWithoutRowIff(env, t, c, at, c2, at2, s[..n], row);
      NoRowEmpty(t);
      if ColumnsOf(e) != {} {
        ColumnMissed(env, c, at + [n], e, OnRow(t, []));
      } else {
        ScopesAgree(env, c, at + [n], e, OnRow(t, []), OnRow(t, row));
        ClockFree(env, c, at + [n], c2, at2 + [n], e, OnRow(t, row));
        assert MentionsColumn(s) ==> MentionsColumn(s[..n]) by {
          if MentionsColumn(s) {
            var i :| 0 <= i < |s| && ColumnsOf(s[i].value) != {};
            assert s[..n][i] == s[i];
          }
        }
      }
    }
  }

  lemma {:induction false} HitEvaluated(env: Env, t: Table, c: Clock, at: Path, s: seq<Assignment>, rows: seq<Row>, hits: seq<bool>, i: nat)
    requires |hits| == |rows| && i < |rows| && hits[i] && Rewritten(env, t, c, at, s, rows, hits).Ok?
    ensures Settings(env, t, c, at + [i], s, rows[i]).Ok?
  {
    var n := |rows| - 1;
    if i < n {
      HitEvaluated(env, t, c, at, s, rows[..n], hits[..n], i);
    }
  }

  /** An UPDATE without IN lists that hits a row and can be committed is shown by the overlay as it is
      committed exactly when none of its values mentions a column and different spellings of one column
      are given one value. */
  lemma UpdateMatchesByNames(env: Env, t: Table, k: Keeper, c: Clock, at: Path, c2: Clock, at2: Path, op: PendingOp, rows: seq<Row>, i: nat)
    requires op.kind == "update" && NoOldNew(t) && Simple(t, op) && CommitOp(env, t, k, c2, at2, op, rows).Ok?
    requires AssignmentsStrict(op.payload.assignments) && i < |rows|
    requires Hits(env, t, c2, at2 + [1], op.payload.cond, rows).Ok? && Hits(env, t, c2, at2 + [1], op.payload.cond, rows).value[i]
    ensures var settings, hits := Settings(env, t, c, at + [0], op.payload.assignments), Hits(env, t, c2, at2 + [1], op.payload.cond, rows).value;
      && (settings.Ok? <==> !MentionsColumn(op.payload.assignments))
      && (Shown(env, t, c, at, op, rows, CommitOp(env, t, k, c2, at2, op, rows)) <==>
          !MentionsColumn(op.payload.assignments) && Undisputed(t, settings.value, rows, hits))
  {
    hide Settings, Rewritten, Hits, MayApply, MentionsColumn, AssignmentsStrict, Undisputed;
    var p := op.payload;
    assert op.kind != "insert";
    UpdateMatchesIff(env, t, k, c, at, c2, at2, op, rows);
    HitEvaluated(env, t, c2, at2 + [0], p.assignments, rows, Hits(env, t, c2, at2 + [1], p.cond, rows).value, i);
    SettingsWithoutRowIff(env, t, c, at + [0], c2, at2 + [0] + [i], p.assignments, rows[i]);
  }

  // ----- an INSERT, in the overlay and in the commit

  /** Every row gives the counting columns a value. */
  predicate Numbers(k: Keeper, rows: seq<Row>) {
    forall j, i :: 0 <= j < |rows| && 0 <= i < |rows[j]| && i in k.serial ==> !rows[j][i].Null?
  }

  lemma NumberedIff(k: Keeper, rows: seq<Row>)
    ensures NumberedAll(k, rows) == rows <==> Numbers(k, rows)
  {
    var all := NumberedAll(k, rows);
    if Numbers(k, rows) {
      forall j | 0 <= j < |rows| ensures all[j] == rows[j] {
        assert forall i :: 0 <= i < |rows[j]| ==> all[j][i] == rows[j][i];
      }
    } else {
      var j, i :| 0 <= j < |rows| && 0 <= i < |rows[j]| && i in k.serial && rows[j][i].Null?;
      assert all[j][i] != rows[j][i];
    }
  }

  /** An INSERT that can be committed is shown as it is committed exactly when it leaves no counting
      column NULL. */
  lemma InsertMatchesIff(env: Env, t: Table, k: Keeper, c: Clock, c2: Clock, at: Path, op: PendingOp, rows: seq<Row>)
    requires op.kind == "insert" && Simple(t, op) && CommitOp(env, t, k, c2, at, op, rows).Ok?
    ensures Inserted(env, t, c, at, op.payload).Ok?
    ensures Shown(env, t, c, at, op, rows, CommitOp(env, t, k, c2, at, op, rows))
      <==> Numbers(k, Inserted(env, t, c, at, op.payload).value)
  {
    hide Inserted, NumberedAll, Numbers, Quiet, QuietTable;
    SameInserted(env, t, c, c2, at, op);
    var new_ := Inserted(env, t, c, at, op.payload).value;
    NumberedIff(k, new_);
    assert MayApply(env, t, c, at, op, rows, ApplyOp(env, t, c, at, op, rows));
    if rows + NumberedAll(k, new_) == rows + new_ {
      assert (rows + NumberedAll(k, new_))[|rows|..] == NumberedAll(k, new_) && (rows + new_)[|rows|..] == new_;
    }
  }

  lemma SameInserted(env: Env, t: Table, c: Clock, c2: Clock, at: Path, op: PendingOp)
    requires op.kind == "insert" && op.payload.Insert? && Unclocked(t, op)
    ensures Inserted(env, t, c, at, op.payload) == Inserted(env, t, c2, at, op.payload)
  {
    hide Inserted, Quiet, QuietTable;
    ApplyQuiet(env, t, c, c2, at, op, []);
    var a, b := Inserted(env, t, c, at, op.payload), Inserted(env, t, c2, at, op.payload);
    assert a.Ok? ==> [] + a.value == a.value;
    assert b.Ok? ==> [] + b.value == b.value;
  }

  // ----- whole transactions

  /** The operation is of the forms looked into, leaves no counting column NULL, and gives different
      spellings of one column one value. */
  ghost predicate Regular(env: Env, t: Table, k: Keeper, c: Clock, at: Path, op: PendingOp) {
    var p := op.payload;
    && Simple(t, op)
    && (p.Insert? && Inserted(env, t, c, at, p).Ok? ==> Numbers(k, Inserted(env, t, c, at, p).value))
    && (p.Update? && Settings(env, t, c, at + [0], p.assignments).Ok? ==>
        forall width: nat :: Agreed(t.columns, width, Gathered(Settings(env, t, c, at + [0], p.assignments).value)))
  }

  /** The values of an UPDATE can be had without a row. */
  predicate NeedsNoRow(env: Env, t: Table, c: Clock, at: Path, op: PendingOp) {
    op.kind == "update" && op.payload.Update? ==> Settings(env, t, c, at + [0], op.payload.assignments).Ok?
  }

  lemma OpMatches(env: Env, t: Table, k: Keeper, c: Clock, c2: Clock, at: Path, op: PendingOp, rows: seq<Row>, r: Result<seq<Row>>)
    requires NoOldNew(t) && Regular(env, t, k, c, at, op) && CommitOp(env, t, k, c2, at, op, rows).Ok?
    requires MayApply(env, t, c, at, op, rows, r)
    ensures if NeedsNoRow(env, t, c, at, op) then r == CommitOp(env, t, k, c2, at, op, rows) else r.Err?
  {
    hide Settings, UpdatedRows, KeptRows, Inserted, Rewritten, Hits, Numbers, Quiet, QuietTable, NumberedAll, Agreed, Gathered, MayUpdate;
    if op.kind == "update" {
      assert op.kind != "insert";
      if Settings(env, t, c, at + [0], op.payload.assignments).Ok? {
        UpdateShown(env, t, k, c, at, c2, at, op, rows);
      }
    } else if op.kind == "insert" {
      InsertMatchesIff(env, t, k, c, c2, at, op, rows);
    } else if op.kind == "delete" {
      ApplyQuiet(env, t, c, c2, at, op, rows);
    }
  }

  ghost predicate RegularAt(env: Env, t: Table, k: Keeper, c: Clock, db: string, name: string, ops: seq<PendingOp>, i: nat)
    requires i < |ops|
  {
    Concerns(ops[i], db, name) ==> Regular(env, t, k, c, [i], ops[i])
  }

  ghost predicate NeedsNoRowAt(env: Env, t: Table, c: Clock, db: string, name: string, ops: seq<PendingOp>, i: nat)
    requires i < |ops|
  {
    Concerns(ops[i], db, name) ==> NeedsNoRow(env, t, c, [i], ops[i])
  }

  /** Where the transaction can be committed, everything it can read at any moment is what the commit
      leaves in the table, or an error; and it is an error exactly when some UPDATE of the table needs a
      row for its values. */
  lemma {:induction false} OverlayMatchesCommit(env: Env, t: Table, k: Keeper, c: Clock, c2: Clock, db: string, name: string,
                                                ops: seq<PendingOp>, base: seq<Row>, r: Result<seq<Row>>)
    requires NoOldNew(t) && Commit(env, t, k, c2, db, name, ops, base).Ok? && MayReplay(env, t, c, db, name, ops, base, r)
    requires forall i: nat :: i < |ops| ==> RegularAt(env, t, k, c, db, name, ops, i)
    ensures if forall i: nat :: i < |ops| ==> NeedsNoRowAt(env, t, c, db, name, ops, i)
            then r == Commit(env, t, k, c2, db, name, ops, base) else r.Err?
  {
    hide Regular, NeedsNoRow, MayApply, CommitOp;
    if ops != [] {
      var n := |ops| - 1;
      var front := ops[..n];
      forall i: nat | i < n ensures RegularAt(env, t, k, c, db, name, front, i) {
        assert RegularAt(env, t, k, c, db, name, ops, i);
      }
      var before :| MayReplay(env, t, c, db, name, front, base, before) && MayStep(env, t, c, db, name, [n], ops[n], before, r);
      OverlayMatchesCommit(env, t, k, c, c2, db, name, front, base, before);
      forall i: nat | i < n ensures NeedsNoRowAt(env, t, c, db, name, front, i) <==> NeedsNoRowAt(env, t, c, db, name, ops, i) {
        assert front[i] == ops[i];
      }
      assert RegularAt(env, t, k, c, db, name, ops, n);
      if before.Ok? && Concerns(ops[n], db, name) {
        OpMatches(env, t, k, c, c2, [n], ops[n], before.value, r);
      }
      if forall i: nat :: i < n ==> NeedsNoRowAt(env, t, c, db, name, front, i) {
        assert NeedsNoRowAt(env, t, c, db, name, ops, n) ==> forall i: nat :: i < |ops| ==> NeedsNoRowAt(env, t, c, db, name, ops, i) by {
          forall i: nat | i < n ensures NeedsNoRowAt(env, t, c, db, name, ops, i) {
            assert NeedsNoRowAt(env, t, c, db, name, front, i);
          }
        }
      } else {
        var i: nat :| i < n && !NeedsNoRowAt(env, t, c, db, name, front, i);
        assert !NeedsNoRowAt(env, t, c, db, name, ops, i);
      }
    }
  }

  /** `UPDATE t SET x = x + 1`: the commit adds one, and every read before it fails. */
  lemma IncrementNotShown(env: Env, k: Keeper, c: Clock, c2: Clock, at: Path, t: Table, op: PendingOp, v: Raw, w: Raw)
    requires t.columns == ["x"] && t.context == Context(map[], None, None)
    requires op.kind == "update" && op.payload == Update("t", [Assignment("x", Binary(Col("", "x"), Sum, Val(IntVal(1))))], Nil, false, "", "", false)
    requires env.operate(Sum, v, Int(1)) == Ok(w) && k.admits([[v]], [[w]])
    ensures forall r :: MayApply(env, t, c, at, op, [[v]], r) ==> r.Err?
    ensures CommitOp(env, t, k, c2, at, op, [[v]]) == Ok([[w]])
  {
    hide ToRaw, Lower;
    var s, e := op.payload.assignments, Binary(Col("", "x"), Sum, Val(IntVal(1)));
    assert op.kind != "insert";
    NoRowEmpty(t);
    assert s[..0] == [] && Eval(env, c, at + [0] + [0], e, OnRow(t, [])).Err?;
    assert Settings(env, t, c, at + [0], s).Err?;
    IncrementCommitted(env, t, c2, at, s, v, w);
    assert ApplyOp(env, t, c, at, op, [[v]]).Err?;
  }

  /** `UPDATE t SET x = 1, X = 2`: the commit leaves 2, and a read before it may show 1. */
  lemma TwoSpellings(env: Env, k: Keeper, c: Clock, c2: Clock, at: Path, t: Table, op: PendingOp, v: Raw)
    requires t.columns == ["x"] && t.context == Context(map[], None, None)
    requires op.kind == "update" && op.payload == Update("t", [Assignment("x", Val(IntVal(1))), Assignment("X", Val(IntVal(2)))], Nil, false, "", "", false)
    requires k.admits([[v]], [[Int(2)]])
    ensures MayApply(env, t, c, at, op, [[v]], Ok([[Int(1)]])) && MayApply(env, t, c, at, op, [[v]], Ok([[Int(2)]]))
    ensures CommitOp(env, t, k, c2, at, op, [[v]]) == Ok([[Int(2)]])
  {
    var s, settings := op.payload.assignments, [Setting("x", Int(1)), Setting("X", Int(2))];
    assert op.kind != "insert";
    TwoSettings(env, t, c, at + [0], s, []);
    TwoSettings(env, t, c2, at + [0] + [0], s, [v]);
    TwoAssigned(v);
    OneHit(env, t, c2, at + [1], [v]);
    OneRewritten(env, t, c2, at + [0], s, [v], settings);
    OneMayUpdate(env, t, c, at + [1], Gathered(settings), [v], [Int(1)]);
    OneMayUpdate(env, t, c, at + [1], Gathered(settings), [v], [Int(2)]);
  }

  lemma TwoSettings(env: Env, t: Table, c: Clock, at: Path, s: seq<Assignment>, row: Row)
    requires s == [Assignment("x", Val(IntVal(1))), Assignment("X", Val(IntVal(2)))]
    ensures Settings(env, t, c, at, s, row) == Ok([Setting("x", Int(1)), Setting("X", Int(2))])
  {
    hide OnRow;
    assert |"int"| == 3 && ToRaw(IntVal(1)) == Int(1) && ToRaw(IntVal(2)) == Int(2);
    OneSetting(env, t, c, at, s[0], row, Int(1));
    var front, both := [Setting("x", Int(1))], [Setting("x", Int(1)), Setting("X", Int(2))];
    assert s[..1] == [s[0]] && |s| - 1 == 1 && front + [Setting("X", Int(2))] == both;
    assert Settings(env, t, c, at, s[..1], row) == Ok(front);
    assert Eval(env, c, at + [1], s[1].value, OnRow(t, row)) == Ok(Int(2)) && s[1].column == "X";
  }

  lemma TwoAssigned(v: Raw)
    ensures var settings := [Setting("x", Int(1)), Setting("X", Int(2))];
      && AssignedAll(["x"], [v], settings) == [Int(2)]
      && MayAssign(["x"], [v], Gathered(settings), [Int(1)]) && MayAssign(["x"], [v], Gathered(settings), [Int(2)])
  {
    var one, two := Setting("x", Int(1)), Setting("X", Int(2));
    var there, back := [one, two], [two, one];
    assert Lower("x") == "x" == Lower("X") && "x" != "X";
    assert Target(["x"], 1, "x") == Some(0) && Target(["x"], 1, "X") == Some(0);
    assert there[..1] == [one] && back[..1] == [two] && there[..1][..0] == [] && back[..1][..0] == [];
    assert Gathered(there[..1][..0]) == map[];
    assert Gathered(there[..1]) == map["x" := Int(1)];
    assert Gathered(there) == map["x" := Int(1), "X" := Int(2)];
    TwoInOrder(v, one, two);
    TwoInOrder(v, two, one);
    assert there[0] == one && there[1] == two && back[0] == two && back[1] == one;
    assert Lists(there, Gathered(there), {}) && Lists(back, Gathered(there), {});
  }

  lemma TwoInOrder(v: Raw, a: Setting, b: Setting)
    requires Target(["x"], 1, a.column) == Some(0) && Target(["x"], 1, b.column) == Some(0)
    ensures AssignedAll(["x"], [v], [a, b]) == [b.value]
  {
    hide Target;
    var row: Row, mid: Row, done: Row, both := [v], [a.value], [b.value], [a, b];
    assert both[..1] == [a] && both[..1][..0] == [] && row[0 := a.value] == mid && mid[0 := b.value] == done;
    assert AssignedAll(["x"], row, both[..1][..0]) == row;
    assert AssignedAll(["x"], row, both[..1]) == mid;
  }

  lemma OneMayUpdate(env: Env, t: Table, c: Clock, at: Path, updates: map<string, Raw>, row: Row, done: Row)
    requires MayAssign(t.columns, row, updates, done)
    ensures MayUpdate(env, t, c, at, Nil, updates, [row], Ok([done]))
  {
    hide OnRow, MayAssign;
    var rows, none: seq<Row>, all := [row], [], [done];
    assert rows[..0] == [] && all[..0] == none;
    assert MayUpdate(env, t, c, at, Nil, updates, rows[..0], Ok(none));
    assert MayAddRow(env, t, c, at + [0], Nil, updates, row, Ok(none), Ok(all));
  }

  lemma OneHit(env: Env, t: Table, c: Clock, at: Path, row: Row)
    ensures Hits(env, t, c, at, Nil, [row]) == Ok([true])
  {
    hide OnRow;
    var rows, none: seq<bool> := [row], [];
    assert rows[..0] == [] && none + [true] == [true];
    assert Hits(env, t, c, at, Nil, rows[..0]) == Ok(none);
  }

  lemma OneRewritten(env: Env, t: Table, c: Clock, at: Path, s: seq<Assignment>, row: Row, settings: seq<Setting>)
    requires Settings(env, t, c, at + [0], s, row) == Ok(settings)
    ensures Rewritten(env, t, c, at, s, [row], [true]) == Ok([AssignedAll(t.columns, row, settings)])
  {
    hide Settings, AssignedAll;
    var rows, none: seq<Row> := [row], [];
    assert rows[..0] == [] && [true][..0] == [] && none + [AssignedAll(t.columns, row, settings)] == [AssignedAll(t.columns, row, settings)];
    assert Rewritten(env, t, c, at, s, rows[..0], [true][..0]) == Ok(none);
  }

  lemma OneSetting(env: Env, t: Table, c: Clock, at: Path, a: Assignment, row: Row, w: Raw)
    requires Eval(env, c, at + [0], a.value, OnRow(t, row)) == Ok(w)
    ensures Settings(env, t, c, at, [a], row) == Ok([Setting(a.column, w)])
  {
    hide Eval, OnRow;
    var s, none: seq<Setting> := [a], [];
    assert s[..0] == [] && none + [Setting(a.column, w)] == [Setting(a.column, w)];
    assert Settings(env, t, c, at, s[..0], row) == Ok(none);
  }

  lemma OneAssigned(column: string, v: Raw, w: Raw)
    ensures AssignedAll([column], [v], [Setting(column, w)]) == [w]
  {
    var settings, row: Row, done: Row := [Setting(column, w)], [v], [w];
    assert settings[..0] == [] && AssignedAll([column], row, settings[..0]) == row;
    assert Target([column], 1, column) == Some(0) && row[0 := w] == done;
  }

  lemma IncrementCommitted(env: Env, t: Table, c: Clock, at: Path, s: seq<Assignment>, v: Raw, w: Raw)
    requires t.columns == ["x"] && t.context == Context(map[], None, None) && env.operate(Sum, v, Int(1)) == Ok(w)
    requires s == [Assignment("x", Binary(Col("", "x"), Sum, Val(IntVal(1))))]
    ensures Hits(env, t, c, at + [1], Nil, [[v]]) == Ok([true])
    ensures Rewritten(env, t, c, at + [0], s, [[v]], [true]) == Ok([[w]])
  {
    hide Hits, Rewritten, Settings, AssignedAll;
    var scope, p := OnRow(t, [v]), at + [0] + [0] + [0];
    assert scope("", "x") == Ok(v);
    assert |"int"| == 3 && ToRaw(IntVal(1)) == Int(1);
    assert Eval(env, c, p + [0], Col("", "x"), scope) == Ok(v) && Eval(env, c, p + [1], Val(IntVal(1)), scope) == Ok(Int(1));
    assert Eval(env, c, p, s[0].value, scope) == Ok(w);
    OneSetting(env, t, c, at + [0] + [0], s[0], [v], w);
    OneAssigned("x", v, w);
    OneHit(env, t, c, at + [1], [v]);
    OneRewritten(env, t, c, at + [0], s, [v], [Setting("x", w)]);
  }

  // ----- the forms not looked into

  /** INSERT ... SELECT is shown as no rows at all, and ON CONFLICT and OR REPLACE as appended rows;
      the commit does something else with all three. */
  lemma OtherForms(env: Env, t: Table, k: Keeper, c: Clock, at: Path, op: PendingOp, rows: seq<Row>)
    requires op.kind == "insert" && op.payload.Insert? && (op.payload.select || op.payload.onConflict || op.payload.orReplace)
    ensures Executed(env, t, k, c, at, op, rows) == k.other(op.payload, rows)
    ensures op.payload.rows == [] && Inserted(env, t, c, at, op.payload).Ok? ==> ApplyOp(env, t, c, at, op, rows) == Ok(rows)
    ensures var plain := op.(payload := op.payload.(select := false, onConflict := false, orReplace := false));
      ApplyOp(env, t, c, at, op, rows) == ApplyOp(env, t, c, at, plain, rows)
  {
    if op.payload.rows == [] {
      assert rows + [] == rows;
    }
  }

  // ----- the commit of what came back from the file

  lemma {:induction false} HitsSame(env: Env, t: Table, c: Clock, at: Path, cond: Expr, cond2: Expr, rows: seq<Row>)
    requires SameTests(env, t, c, cond, c, cond2)
    ensures Hits(env, t, c, at, cond, rows) == Hits(env, t, c, at, cond2, rows)
  {
    hide Test, OnRow;
    if rows != [] {
      HitsSame(env, t, c, at, cond, cond2, rows[..|rows| - 1]);
    }
  }

  lemma {:induction false} RewrittenBare(env: Env, t: Table, c: Clock, at: Path, s: seq<Assignment>, rows: seq<Row>, hits: seq<bool>)
    requires |hits| == |rows| && AssignmentsSupported(s) && (AssignmentsUnqualified(s) || PlainTable(t))
    ensures Rewritten(env, t, c, at, BareAssignments(s), rows, hits) == Rewritten(env, t, c, at, s, rows, hits)
  {
    hide Settings, AssignedAll, AssignmentsSupported, AssignmentsUnqualified, PlainTable, BareAssignments;
    if rows != [] {
      var n := |rows| - 1;
      RewrittenBare(env, t, c, at, s, rows[..n], hits[..n]);
      SettingsBare(env, t, c, at + [n], s, rows[n]);
    }
  }

  lemma UpdateRecoded(env: Env, t: Table, k: Keeper, c: Clock, at: Path, op: PendingOp, rows: seq<Row>)
    requires Writable(op) && op.payload.Update? && (NoQualifiers(op) || PlainTable(t))
    ensures Executed(env, t, k, c, at, Recoded(op), rows) == Executed(env, t, k, c, at, op, rows)
  {
    hide Hits, Rewritten, SameTests, Bare, Supported, Unqualified, PlainTable, AssignmentsSupported, AssignmentsUnqualified, BareAssignments;
    var p := op.payload;
    assert op.kind == "update" && op.kind != "insert";
    BareTests(env, t, c, p.cond);
    HitsSame(env, t, c, at + [1], Bare(p.cond), p.cond, rows);
    var hits := Hits(env, t, c, at + [1], p.cond, rows);
    if hits.Ok? {
      RewrittenBare(env, t, c, at + [0], p.assignments, rows, hits.value);
    }
  }

  lemma ExecutedRecoded(env: Env, t: Table, k: Keeper, c: Clock, at: Path, op: PendingOp, rows: seq<Row>)
    requires Writable(op) && (NoQualifiers(op) || PlainTable(t)) && !(op.payload.Insert? && op.payload.orReplace)
    ensures Executed(env, t, k, c, at, Recoded(op), rows) == Executed(env, t, k, c, at, op, rows)
  {
    hide Hits, Rewritten, Inserted, KeptRows, SameTests, Bare, Supported, Unqualified, PlainTable, NumberedAll, RowsSupported;
    match op.payload
    case Insert(_, _, _, _, _, _, _) => InsertedBare(env, t, c, at, op);
    case Update(_, _, _, _, _, _, _) => UpdateRecoded(env, t, k, c, at, op, rows);
    case Delete(_, cond, _) =>
      BareTests(env, t, c, cond);
      KeptRowsSame(env, t, c, Bare(cond), c, cond, at, rows);
    case _ =>
  }

  /** INSERT OR REPLACE that was spilled is committed as a plain INSERT. */
  lemma OrReplaceForgotten(env: Env, t: Table, k: Keeper, c: Clock, at: Path, op: PendingOp, rows: seq<Row>)
    requires Writable(op) && op.payload.Insert? && op.payload.orReplace
    ensures Executed(env, t, k, c, at, op, rows) == k.other(op.payload, rows)
    ensures Executed(env, t, k, c, at, Recoded(op), rows) == Executed(env, t, k, c, at, op.(payload := op.payload.(orReplace := false)), rows)
  {
    hide Inserted, NumberedAll, RowsSupported;
    InsertedBare(env, t, c, at, op);
    SameValues(env, t, c, at, op.payload);
  }

  lemma SameValues(env: Env, t: Table, c: Clock, at: Path, p: Payload)
    requires p.Insert?
    ensures Inserted(env, t, c, at, p.(orReplace := false)) == Inserted(env, t, c, at, p)
  {
    hide BuildRows;
  }

  /** A trip through the file cannot be seen in the commit, whatever the storage does, exactly when the
      operation is not an INSERT OR REPLACE. */
  lemma CommitRecodedIff(env: Env, t: Table, op: PendingOp)
    requires Writable(op) && (NoQualifiers(op) || PlainTable(t))
    ensures (forall k, c: Clock, at, rows :: CommitOp(env, t, k, c, at, Recoded(op), rows) == CommitOp(env, t, k, c, at, op, rows))
       <==> !(op.payload.Insert? && op.payload.orReplace)
  {
    hide Executed, Writable, NoQualifiers, PlainTable, BarePayload;
    if op.payload.Insert? && op.payload.orReplace {
      var k, c, rows := Contrary(env, t, op);
    } else {
      forall k, c: Clock, at, rows ensures CommitOp(env, t, k, c, at, Recoded(op), rows) == CommitOp(env, t, k, c, at, op, rows) {
        ExecutedRecoded(env, t, k, c, at, op, rows);
      }
    }
  }

  lemma Contrary(env: Env, t: Table, op: PendingOp) returns (k: Keeper, c: Clock, rows: seq<Row>)
    requires Writable(op) && op.payload.Insert? && op.payload.orReplace
    ensures CommitOp(env, t, k, c, [], Recoded(op), rows) != CommitOp(env, t, k, c, [], op, rows)
  {
    hide Inserted, NumberedAll, RowsSupported;
    c, rows := STOPPED, [];
    var ok := Inserted(env, t, c, [], op.payload).Ok?;
    k := Keeper((a, b) => true, {}, (i, j) => 0, (p, rs) => if ok then Err("key exists") else Ok([]));
    OrReplaceForgotten(env, t, k, c, [], op, rows);
    SameValues(env, t, c, [], op.payload);
  }
}
