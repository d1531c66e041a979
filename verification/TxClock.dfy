/** When the moment of a replay can be seen in its result. */
module TxClocks {
  import opened Ast
  import opened Evaluation
  import opened Freezing
  import opened PendingOps
  import opened Readings
  import opened Results
  import opened Text
  import opened TxOverlays

  // ----- an operation fails when something in it does

  ghost predicate Fails(env: Env, c: Clock, e: Expr) {
    !e.Nil? && forall p, scope :: Eval(env, c, p, e, scope).Err?
  }

  /** The value cannot be had, or no column takes it. */
  ghost predicate Refused(env: Env, c: Clock, t: Table, e: Expr) {
    forall p, scope, i :: RefusedAt(t, Eval(env, c, p, e, scope), i)
  }

  predicate RefusedAt(t: Table, v: Result<Raw>, i: nat) {
    v.Err? || t.normalize(v.value, i).Err?
  }

  ghost predicate RowRefused(env: Env, c: Clock, t: Table, es: seq<Expr>) {
    exists j :: 0 <= j < |es| && Refused(env, c, t, es[j])
  }

  ghost predicate ColumnRefused(env: Env, c: Clock, t: Table, i: nat) {
    i < |t.columns| && i in t.computed && t.computed[i].Ok? && Refused(env, c, t, t.computed[i].value)
  }

  ghost predicate TableRefused(env: Env, c: Clock, t: Table) {
    exists i :: ColumnRefused(env, c, t, i)
  }

  ghost predicate RowsRefused(env: Env, c: Clock, t: Table, rows: seq<seq<Expr>>) {
    exists i :: 0 <= i < |rows| && RowRefused(env, c, t, rows[i])
  }

  ghost predicate AssignmentsFail(env: Env, c: Clock, s: seq<Assignment>) {
    exists i :: 0 <= i < |s| && Fails(env, c, s[i].value)
  }

  ghost predicate Trouble(env: Env, c: Clock, t: Table, op: PendingOp) {
    match op.payload
    case Insert(_, _, rows, _, _, _, _) => RowsRefused(env, c, t, rows) || TableRefused(env, c, t)
    case Update(_, assignments, cond, _, _, _, _) => AssignmentsFail(env, c, assignments) || Fails(env, c, cond)
    case Delete(_, cond, _) => Fails(env, c, cond)
    case _ => false
  }

  /** The payload is of the operation's kind, and there is something to evaluate it on. */
  predicate Working(op: PendingOp, rows: seq<Row>) {
    match op.payload
    case Insert(_, _, values, _, _, _, _) => op.kind == "insert" && values != []
    case Update(_, _, _, _, _, _, _) => op.kind == "update" && rows != []
    case Delete(_, _, _) => op.kind == "delete" && rows != []
    case Truncate(_) => op.kind == "truncate"
    case Unknown => false
  }

  lemma {:induction false} FillRowFails(env: Env, t: Table, c: Clock, at: Path, row: Row, es: seq<Expr>, targets: seq<nat>, j: nat)
    requires j < |es| <= |targets| && Refused(env, c, t, es[j])
    ensures FillRow(env, t, c, at, row, es, targets).Err?
  {
    hide Eval;
    var n := |es| - 1;
    if j < n {
      FillRowFails(env, t, c, at, row, es[..n], targets, j);
    } else {
      assert RefusedAt(t, Eval(env, c, at + [n], es[n], NO_SCOPE), targets[n]);
    }
  }

  lemma {:induction false} ComputedFails(env: Env, t: Table, c: Clock, at: Path, row: Row, n: nat, k: nat)
    requires k < n && ColumnRefused(env, c, t, k)
    ensures Computed(env, t, c, at, row, n).Err?
  {
    hide Eval, OnRow;
    var i := n - 1;
    var front := Computed(env, t, c, at, row, i);
    if k < i {
      ComputedFails(env, t, c, at, row, i, k);
    } else if front.Ok? {
      assert RefusedAt(t, Eval(env, c, at + [i], t.computed[i].value, OnRow(t, front.value)), i);
    }
  }

  lemma BuildRowFails(env: Env, t: Table, c: Clock, at: Path, es: seq<Expr>, targets: seq<nat>, all: bool)
    requires RowRefused(env, c, t, es) || TableRefused(env, c, t)
    ensures BuildRow(env, t, c, at, es, targets, all).Err?
  {
    hide FillRow, Computed, Refused;
    if |es| == |targets| {
      var filled := FillRow(env, t, c, at, EmptyRow(|t.columns|), es, targets);
      if RowRefused(env, c, t, es) {
        var j :| 0 <= j < |es| && Refused(env, c, t, es[j]);
        FillRowFails(env, t, c, at, EmptyRow(|t.columns|), es, targets, j);
      } else if filled.Ok? {
        var k :| ColumnRefused(env, c, t, k);
        var row := if all then filled.value else Defaulted(t, filled.value, set i | i in targets);
        ComputedFails(env, t, c, at + [|es|], row, |t.columns|, k);
      }
    }
  }

  lemma {:induction false} BuildRowsFail(env: Env, t: Table, c: Clock, at: Path, rows: seq<seq<Expr>>, targets: seq<nat>, all: bool)
    requires rows != [] && (RowsRefused(env, c, t, rows) || TableRefused(env, c, t))
    ensures BuildRows(env, t, c, at, rows, targets, all).Err?
  {
    hide BuildRow, RowRefused, TableRefused;
    var n := |rows| - 1;
    if RowRefused(env, c, t, rows[n]) || TableRefused(env, c, t) {
      BuildRowFails(env, t, c, at + [n], rows[n], targets, all);
    } else {
      var k :| 0 <= k < |rows| && RowRefused(env, c, t, rows[k]);
      assert rows[..n][k] == rows[k];
      BuildRowsFail(env, t, c, at, rows[..n], targets, all);
    }
  }

  lemma InsertFails(env: Env, t: Table, c: Clock, at: Path, p: Payload)
    requires p.Insert? && p.rows != [] && (RowsRefused(env, c, t, p.rows) || TableRefused(env, c, t))
    ensures Inserted(env, t, c, at, p).Err?
  {
    hide BuildRows, RowsRefused, TableRefused;
    BuildRowsFail(env, t, c, at, p.rows, seq(|t.columns|, i => i), true);
    if MapColumns(t.columns, p.columns).Ok? {
      BuildRowsFail(env, t, c, at, p.rows, MapColumns(t.columns, p.columns).value, false);
    }
  }

  lemma {:induction false} SettingsFails(env: Env, t: Table, c: Clock, at: Path, s: seq<Assignment>)
    requires AssignmentsFail(env, c, s)
    ensures Settings(env, t, c, at, s).Err?
  {
    hide Eval, OnRow;
    var n := |s| - 1;
    if !Fails(env, c, s[n].value) {
      var k :| 0 <= k < |s| && Fails(env, c, s[k].value);
      assert s[..n][k] == s[k];
      SettingsFails(env, t, c, at, s[..n]);
    }
  }

  lemma TestFails(env: Env, c: Clock, at: Path, cond: Expr, scope: Scope)
    requires Fails(env, c, cond)
    ensures Test(env, c, at, cond, scope).Err?
  {
    hide Eval;
  }

  lemma KeptRowsFails(env: Env, t: Table, c: Clock, at: Path, cond: Expr, rows: seq<Row>)
    requires Fails(env, c, cond) && rows != []
    ensures KeptRows(env, t, c, at, cond, rows).Err?
  {
    hide Test, OnRow, Fails;
    var n := |rows| - 1;
    TestFails(env, c, at + [n], cond, OnRow(t, rows[n]));
  }

  lemma MayUpdateFailing(env: Env, t: Table, c: Clock, at: Path, cond: Expr, updates: map<string, Raw>, rows: seq<Row>, r: Result<seq<Row>>)
    requires Fails(env, c, cond) && rows != [] && MayUpdate(env, t, c, at, cond, updates, rows, r)
    ensures r.Err?
  {
    hide Test, OnRow, Fails, MayAssign;
    var n := |rows| - 1;
    TestFails(env, c, at + [n], cond, OnRow(t, rows[n]));
  }

  lemma OpFails(env: Env, t: Table, c: Clock, at: Path, op: PendingOp, rows: seq<Row>, r: Result<seq<Row>>)
    requires Working(op, rows) && Trouble(env, c, t, op) && MayApply(env, t, c, at, op, rows, r)
    ensures r.Err?
  {
    hide Inserted, Settings, UpdatedRows, KeptRows, MayUpdate, RowsRefused, TableRefused, AssignmentsFail, Fails, Gathered;
    match op.payload
    case Insert(_, _, _, _, _, _, _) => InsertFails(env, t, c, at, op.payload);
    case Update(_, assignments, cond, _, _, _, _) =>
      assert op.kind != "insert";
      if AssignmentsFail(env, c, assignments) {
        SettingsFails(env, t, c, at + [0], assignments);
      } else if Settings(env, t, c, at + [0], assignments).Ok? {
        MayUpdateFailing(env, t, c, at + [1], cond, Gathered(Settings(env, t, c, at + [0], assignments).value), rows, r);
      }
    case Delete(_, cond, _) => KeptRowsFails(env, t, c, at, cond, rows);
  }

  // ----- one environment, and clocks that may not be readable

  predicate ColumnStrict(t: Table, i: nat) {
    i in t.computed && t.computed[i].Ok? ==> Strict(t.computed[i].value)
  }

  /** Nothing in the operation or in a column it computes has a list to stop in, or a form not looked
      into. */
  ghost predicate OpStrict(t: Table, op: PendingOp) {
    match op.payload
    case Insert(_, _, rows, _, _, _, _) => (forall i :: 0 <= i < |rows| ==> AllStrict(rows[i])) && forall i: nat :: i < |t.columns| ==> ColumnStrict(t, i)
    case Update(_, s, cond, _, _, _, _) => Strict(cond) && forall i :: 0 <= i < |s| ==> Strict(s[i].value)
    case Delete(_, cond, _) => Strict(cond)
    case _ => true
  }

  lemma {:induction false} StrictAt(es: seq<Expr>, j: nat)
    requires AllStrict(es) && j < |es|
    ensures Strict(es[j])
  {
    if j < |es| - 1 {
      StrictAt(es[..|es| - 1], j);
    }
  }

  lemma {:induction false} VolatileAt(es: seq<Expr>) returns (j: nat)
    requires AnyVolatile(es)
    ensures j < |es| && Volatile(es[j])
  {
    j := |es| - 1;
    if !Volatile(es[j]) {
      j := VolatileAt(es[..j]);
    }
  }

  lemma StopsStrict(env: Env, t: Table, e: Expr)
    requires Strict(e) && Volatile(e)
    ensures Fails(env, STOPPED, e) && Refused(env, STOPPED, t, e)
  {
    hide Eval, Strict, Volatile;
    forall p, scope ensures Eval(env, STOPPED, p, e, scope).Err? && !e.Nil? {
      StrictFails(env, p, e, scope);
    }
    StrictFails(env, [], e, NO_SCOPE);
  }

  lemma StrictTrouble(env: Env, t: Table, op: PendingOp)
    requires OpStrict(t, op) && !Unclocked(t, op)
    ensures Trouble(env, STOPPED, t, op)
  {
    hide Strict, Volatile, Fails, Refused, AnyVolatile, AllStrict;
    match op.payload
    case Insert(_, _, rows, _, _, _, _) =>
      if !RowsQuiet(rows) {
        var i :| 0 <= i < |rows| && AnyVolatile(rows[i]);
        var j := VolatileAt(rows[i]);
        StrictAt(rows[i], j);
        StopsStrict(env, t, rows[i][j]);
        assert RowRefused(env, STOPPED, t, rows[i]);
      } else {
        var i: nat :| i < |t.columns| && !QuietColumn(t, i);
        assert ColumnStrict(t, i);
        StopsStrict(env, t, t.computed[i].value);
        assert ColumnRefused(env, STOPPED, t, i);
      }
    case Update(_, s, cond, _, _, _, _) =>
      if Volatile(cond) {
        StopsStrict(env, t, cond);
      } else {
        var i :| 0 <= i < |s| && Volatile(s[i].value);
        StopsStrict(env, t, s[i].value);
      }
    case Delete(_, cond, _) => StopsStrict(env, t, cond);
  }

  /** For every environment: an operation without lists that succeeds has the same possible results
      under every other clock, one that cannot be read included, exactly when neither it nor a column it
      computes is volatile. */
  lemma ApplySteadyIff(env: Env, t: Table, c: Clock, at: Path, op: PendingOp, rows: seq<Row>, r: Result<seq<Row>>)
    requires Working(op, rows) && OpStrict(t, op) && MayApply(env, t, c, at, op, rows, r) && r.Ok?
    ensures (forall c2: Clock :: SameResults(env, t, c, op, c2, op, at, rows)) <==> Unclocked(t, op)
  {
    hide MayApply, Unclocked, OpStrict, Working, Trouble;
    if Unclocked(t, op) {
      forall c2: Clock ensures SameResults(env, t, c, op, c2, op, at, rows) {
        ApplyQuiet(env, t, c, c2, at, op, rows);
      }
    } else {
      StrictTrouble(env, t, op);
      if MayApply(env, t, STOPPED, at, op, rows, r) {
        OpFails(env, t, STOPPED, at, op, rows, r);
      }
      assert !SameResults(env, t, c, op, STOPPED, op, at, rows);
    }
  }

  lemma {:induction false} FrozenRowsStrict(env: Env, clock: Clock, at: Path, rows: seq<seq<Expr>>)
    requires FreezeRows(env, clock, at, rows).Ok? && forall i :: 0 <= i < |rows| ==> AllStrict(rows[i])
    ensures var f := FreezeRows(env, clock, at, rows).value; |f| == |rows| && forall i :: 0 <= i < |f| ==> AllStrict(f[i])
  {
    hide AllStrict, FreezeAll;
    if rows != [] {
      var n := |rows| - 1;
      FrozenRowsStrict(env, clock, at, rows[..n]);
      AllFrozenStrict(env, clock, at + [n], rows[n]);
    }
  }

  lemma {:induction false} FrozenAssignmentsStrict(env: Env, clock: Clock, at: Path, s: seq<Assignment>)
    requires FreezeAssignments(env, clock, at, s).Ok? && forall i :: 0 <= i < |s| ==> Strict(s[i].value)
    ensures var f := FreezeAssignments(env, clock, at, s).value; |f| == |s| && forall i :: 0 <= i < |f| ==> Strict(f[i].value)
  {
    hide Strict, Freeze;
    if s != [] {
      var n := |s| - 1;
      FrozenAssignmentsStrict(env, clock, at, s[..n]);
      FrozenStrict(env, clock, at + [n], s[n].value);
    }
  }

  /** The operation with its statement frozen. */
  function FrozenOp(env: Env, clock: Clock, at: Path, op: PendingOp): PendingOp
    requires FreezePayload(env, clock, at, op.payload).Ok?
  {
    op.(payload := FreezePayload(env, clock, at, op.payload).value)
  }

  lemma FrozenOpStrict(env: Env, clock: Clock, at: Path, t: Table, op: PendingOp)
    requires FreezePayload(env, clock, at, op.payload).Ok? && OpStrict(t, op)
    ensures OpStrict(t, FrozenOp(env, clock, at, op)) && (FrozenOp(env, clock, at, op).payload.Insert? <==> op.payload.Insert?)
  {
    hide Strict, AllStrict, ColumnStrict, Freeze, FreezeRows, FreezeAssignments;
    match op.payload
    case Insert(_, _, rows, select, _, _, _) =>
      if !select {
        FrozenRowsStrict(env, clock, at, rows);
      }
    case Update(_, s, cond, _, _, _, _) =>
      FrozenAssignmentsStrict(env, clock, at + [0], s);
      FrozenStrict(env, clock, at + [1], cond);
    case Delete(_, cond, _) => FrozenStrict(env, clock, at, cond);
    case _ =>
  }

  /** So a frozen operation without lists has the same possible results under every clock exactly when
      no volatile call was sheltered from freezing and, for an INSERT, no computed column is volatile. */
  lemma FrozenReplaySteadyIff(env: Env, t: Table, freezing: Clock, p: Path, op: PendingOp, c: Clock, at: Path, rows: seq<Row>, r: Result<seq<Row>>)
    requires FreezePayload(env, freezing, p, op.payload).Ok? && OpStrict(t, op)
    requires Working(FrozenOp(env, freezing, p, op), rows) && MayApply(env, t, c, at, FrozenOp(env, freezing, p, op), rows, r) && r.Ok?
    ensures var f := FrozenOp(env, freezing, p, op);
      (forall c2: Clock :: SameResults(env, t, c, f, c2, f, at, rows)) <==> !PayloadSheltered(op.payload) && (op.payload.Insert? ==> QuietTable(t))
  {
    hide MayApply, Working, QuietTable, PayloadSheltered, Quiet, OpStrict, FreezePayload;
    FrozenOpStrict(env, freezing, p, t, op);
    FrozenQuietIff(env, freezing, p, op);
    ApplySteadyIff(env, t, c, at, FrozenOp(env, freezing, p, op), rows, r);
  }

  // ----- all environments, and clocks that can always be read

  predicate ColumnShows(t: Table, i: nat) {
    i in t.computed && t.computed[i].Ok? && Shows(t.computed[i].value)
  }

  ghost predicate TableShows(t: Table) {
    exists i: nat :: i < |t.columns| && ColumnShows(t, i)
  }

  predicate RowsShow(rows: seq<seq<Expr>>) {
    exists i :: 0 <= i < |rows| && AnyShows(rows[i])
  }

  predicate AssignmentsShow(s: seq<Assignment>) {
    exists i :: 0 <= i < |s| && Shows(s[i].value)
  }

  /** A reading gets to where it can be seen. */
  ghost predicate OpShows(t: Table, op: PendingOp) {
    match op.payload
    case Insert(_, _, rows, _, _, _, _) => RowsShow(rows) || TableShows(t)
    case Update(_, s, cond, _, _, _, _) => AssignmentsShow(s) || Shows(cond)
    case Delete(_, cond, _) => Shows(cond)
    case _ => false
  }

  /** No value of an UPDATE and no condition is itself a volatile call, as after freezing. */
  predicate NoneDirect(op: PendingOp) {
    match op.payload
    case Update(_, s, cond, _, _, _, _) => !IsVolatile(cond) && forall i :: 0 <= i < |s| ==> !IsVolatile(s[i].value)
    case Delete(_, cond, _) => !IsVolatile(cond)
    case _ => true
  }

  /** The table with other conversions and defaults. */
  function Reset(t: Table, normalize: (Raw, nat) -> Result<Raw>, defaults: map<nat, Raw>): Table {
    t.(normalize := normalize, defaults := defaults)
  }

  /** Under all readable clocks the operation has the same possible results on every row, whatever the
      operations on values, the conversions and the defaults are. */
  ghost predicate OpSettled(t: Table, op: PendingOp) {
    forall env, normalize, defaults, c1: Clock, c2: Clock, at, rows | Readable(c1) && Readable(c2) ::
      SameResults(env, Reset(t, normalize, defaults), c1, op, c2, op, at, rows)
  }

  lemma NotShownAgrees(env: Env, c1: Clock, c2: Clock, e: Expr)
    requires Readable(c1) && Readable(c2) && !Shows(e)
    ensures Agrees(env, c1, c2, e)
  {
    hide Eval, Shows, Readable;
    forall p, scope ensures Eval(env, c1, p, e, scope) == Eval(env, c2, p, e, scope) {
      NotShown(env, c1, c2, p, e, scope);
    }
  }

  lemma {:induction false} NoneShowsAt(es: seq<Expr>, j: nat)
    requires !AnyShows(es) && j < |es|
    ensures !Shows(es[j])
  {
    if j < |es| - 1 {
      NoneShowsAt(es[..|es| - 1], j);
    }
  }

  lemma {:induction false} ShowsAt(es: seq<Expr>) returns (j: nat)
    requires AnyShows(es)
    ensures j < |es| && Shows(es[j])
  {
    j := |es| - 1;
    if !Shows(es[j]) {
      j := ShowsAt(es[..j]);
    }
  }

  lemma NotShownOp(env: Env, t: Table, c1: Clock, c2: Clock, op: PendingOp)
    requires Readable(c1) && Readable(c2) && !OpShows(t, op)
    ensures OpAgrees(env, c1, c2, t, op)
  {
    hide Shows, Agrees, AnyShows, Readable;
    match op.payload
    case Insert(_, _, rows, _, _, _, _) =>
      forall i, j | 0 <= i < |rows| && 0 <= j < |rows[i]| ensures Agrees(env, c1, c2, rows[i][j]) {
        NoneShowsAt(rows[i], j);
        NotShownAgrees(env, c1, c2, rows[i][j]);
      }
      forall i: nat | i < |t.columns| ensures ColumnAgrees(env, c1, c2, t, i) {
        assert !ColumnShows(t, i);
        if i in t.computed && t.computed[i].Ok? {
          NotShownAgrees(env, c1, c2, t.computed[i].value);
        }
      }
    case Update(_, s, cond, _, _, _, _) =>
      forall i | 0 <= i < |s| ensures Agrees(env, c1, c2, s[i].value) {
        NotShownAgrees(env, c1, c2, s[i].value);
      }
      NotShownAgrees(env, c1, c2, cond);
    case Delete(_, cond, _) => NotShownAgrees(env, c1, c2, cond);
    case _ =>
  }

  lemma NotShownSettled(t: Table, op: PendingOp)
    requires !OpShows(t, op)
    ensures OpSettled(t, op)
  {
    hide SameResults, OpShows, OpAgrees, Readable;
    forall env, normalize, defaults, c1: Clock, c2: Clock, at, rows | Readable(c1) && Readable(c2)
      ensures SameResults(env, Reset(t, normalize, defaults), c1, op, c2, op, at, rows)
    {
      ResetShows(t, normalize, defaults, op);
      NotShownOp(env, Reset(t, normalize, defaults), c1, c2, op);
      ApplyAgrees(env, Reset(t, normalize, defaults), c1, c2, at, op, rows);
    }
  }

  lemma ResetShows(t: Table, normalize: (Raw, nat) -> Result<Raw>, defaults: map<nat, Raw>, op: PendingOp)
    ensures OpShows(Reset(t, normalize, defaults), op) <==> OpShows(t, op)
  {
    hide Shows, RowsShow, AssignmentsShow;
    var u := Reset(t, normalize, defaults);
    assert forall i: nat :: ColumnShows(u, i) <==> ColumnShows(t, i);
  }

  // ----- the same in an environment that refuses long texts

  function WaryNormalize(k: nat): (Raw, nat) -> Result<Raw> {
    (v, i) => Refusal(Long(k, v), Bool(false))
  }

  function FalseDefaults(n: nat): (m: map<nat, Raw>)
    ensures forall i: nat :: i < n ==> i in m && m[i] == Bool(false)
  {
    if n == 0 then map[] else FalseDefaults(n - 1)[n - 1 := Bool(false)]
  }

  function WaryTable(t: Table, k: nat): Table {
    Reset(t, WaryNormalize(k), FalseDefaults(|t.columns|))
  }

  lemma LateFails(k: nat, e: Expr)
    requires Shows(e) && !IsVolatile(e)
    ensures Fails(Wary(k), Late(k), e)
  {
    hide Eval, Errs, Wary, Late;
    forall p, scope ensures Eval(Wary(k), Late(k), p, e, scope).Err? && !e.Nil? {
      ErrsFails(k, p, e, scope);
    }
    ErrsFails(k, [], e, NO_SCOPE);
  }

  lemma LateRefused(t: Table, k: nat, e: Expr)
    requires Shows(e)
    ensures Refused(Wary(k), Late(k), WaryTable(t, k), e)
  {
    hide Eval, Shows, Wary, Late;
    forall p, scope, i ensures RefusedAt(WaryTable(t, k), Eval(Wary(k), Late(k), p, e, scope), i) {
      ShowsSpoilt(k, p, e, scope);
    }
  }

  lemma LateTrouble(t: Table, k: nat, op: PendingOp)
    requires OpShows(t, op) && NoneDirect(op)
    ensures Trouble(Wary(k), Late(k), WaryTable(t, k), op)
  {
    hide Shows, IsVolatile, Fails, Refused, AnyShows, Wary, Late;
    var u := WaryTable(t, k);
    match op.payload
    case Insert(_, _, rows, _, _, _, _) =>
      if RowsShow(rows) {
        var i :| 0 <= i < |rows| && AnyShows(rows[i]);
        var j := ShowsAt(rows[i]);
        LateRefused(t, k, rows[i][j]);
        assert RowRefused(Wary(k), Late(k), u, rows[i]);
      } else {
        var i: nat :| i < |t.columns| && ColumnShows(t, i);
        LateRefused(t, k, t.computed[i].value);
        assert ColumnRefused(Wary(k), Late(k), u, i);
      }
    case Update(_, s, cond, _, _, _, _) =>
      if Shows(cond) {
        LateFails(k, cond);
      } else {
        var i :| 0 <= i < |s| && Shows(s[i].value);
        LateFails(k, s[i].value);
      }
    case Delete(_, cond, _) => LateFails(k, cond);
  }

  // ----- and with short readings it does what it can do elsewhere

  function BlankRow(n: nat): Row {
    seq(n, i => Bool(false))
  }

  lemma {:induction false} ScanBlank(columns: seq<string>, row: Row, name: string, i: nat)
    requires i <= |columns| && Scan(columns, row, name, i).Ok?
    ensures Scan(columns, BlankRow(|row|), name, i) == Ok(Bool(false))
    decreases |columns| - i
  {
    if i < |columns| && !(i < |row| && Reaches(columns[i], name)) {
      ScanBlank(columns, row, name, i + 1);
    }
  }

  lemma {:induction false} ScanBoth(columns: seq<string>, row: Row, name: string, i: nat)
    requires i <= |columns|
    ensures Scan(columns, row, name, i).Ok? <==> Scan(columns, BlankRow(|row|), name, i).Ok?
    decreases |columns| - i
  {
    if i < |columns| {
      ScanBoth(columns, row, name, i + 1);
    }
  }

  lemma ResolveBlank(c: Context, row: Row, columns: seq<string>, name: string)
    ensures Resolve(c, row, Some(columns), name).Ok? <==> Resolve(c, BlankRow(|row|), Some(columns), name).Ok?
    ensures Resolve(c, row, Some(columns), name).Ok? ==> Resolve(c, BlankRow(|row|), Some(columns), name) == Ok(Bool(false))
  {
    hide Lower;
    ScanBoth(columns, row, name, 0);
    if Scan(columns, row, name, 0).Ok? {
      ScanBlank(columns, row, name, 0);
    }
  }

  /** Where a row has a column, the blank row has false. */
  lemma RowBlanks(t: Table, k: nat, row: Row)
    requires NoOldNew(t)
    ensures Blanks(OnRow(t, row), OnRow(WaryTable(t, k), BlankRow(|row|)))
  {
    hide Resolve;
    forall table, name | OnRow(t, row)(table, name).Ok? ensures OnRow(WaryTable(t, k), BlankRow(|row|))(table, name) == Ok(Bool(false)) {
      ResolveBlank(t.context, row, t.columns, name);
      ResolveBlank(t.context, row, t.columns, table + "." + name);
    }
  }

  /** The expression can be evaluated with every part of it, and its texts are short. */
  ghost predicate Fit(env: Env, k: nat, e: Expr) {
    Reached(env, e) && Longest(e) <= k
  }

  lemma {:induction false} FillRowWorks(env: Env, t: Table, c: Clock, p: Path, start: Row, k: nat, at: Path, row: Row, es: seq<Expr>, targets: seq<nat>)
    requires |es| <= |targets| && FillRow(env, t, c, p, start, es, targets).Ok? && forall i :: 0 <= i < |es| ==> Fit(env, k, es[i])
    ensures var r := FillRow(Wary(k), WaryTable(t, k), EARLY, at, row, es, targets);
      r.Ok? && |r.value| == |row| && forall i :: 0 <= i < |row| ==> r.value[i] == if i in targets[..|es|] then Bool(false) else row[i]
  {
    hide Eval, Wary, Reached, Longest;
    if es != [] {
      var n := |es| - 1;
      FillRowWorks(env, t, c, p, start, k, at, row, es[..n], targets);
      Evaluates(env, c, p + [n], NO_SCOPE, k, at + [n], NO_SCOPE, es[n]);
      assert targets[..n + 1] == targets[..n] + [targets[n]];
    }
  }

  lemma {:induction false} ComputedWorks(env: Env, t: Table, c: Clock, p: Path, row: Row, n: nat, k: nat, at: Path)
    requires NoOldNew(t) && Computed(env, t, c, p, row, n).Ok?
    requires forall i: nat :: i < n && i in t.computed && t.computed[i].Ok? ==> Fit(env, k, t.computed[i].value)
    ensures |Computed(env, t, c, p, row, n).value| == |row|
    ensures Computed(Wary(k), WaryTable(t, k), EARLY, at, BlankRow(|row|), n) == Ok(BlankRow(|row|))
  {
    hide Eval, Wary, OnRow, Reached, Longest, Blanks;
    if n > 0 {
      var i := n - 1;
      ComputedWorks(env, t, c, p, row, i, k, at);
      if i in t.computed {
        var front, e := Computed(env, t, c, p, row, i).value, t.computed[i].value;
        RowBlanks(t, k, front);
        assert Fit(env, k, e);
        Evaluates(env, c, p + [i], OnRow(t, front), k, at + [i], OnRow(WaryTable(t, k), BlankRow(|row|)), e);
        assert i < |row| ==> BlankRow(|row|)[i := Bool(false)] == BlankRow(|row|);
      }
    }
  }

  lemma BuildRowWorks(env: Env, t: Table, c: Clock, p: Path, k: nat, at: Path, es: seq<Expr>, targets: seq<nat>, all: bool)
    requires NoOldNew(t) && BuildRow(env, t, c, p, es, targets, all).Ok? && (all ==> targets == seq(|t.columns|, i => i))
    requires forall i :: 0 <= i < |es| ==> Fit(env, k, es[i])
    requires forall i: nat :: i < |t.columns| && i in t.computed && t.computed[i].Ok? ==> Fit(env, k, t.computed[i].value)
    ensures BuildRow(Wary(k), WaryTable(t, k), EARLY, at, es, targets, all).Ok?
  {
    hide FillRow, Computed, Wary, Fit;
    var n, u := |t.columns|, WaryTable(t, k);
    FillRowWorks(env, t, c, p, EmptyRow(n), k, at, EmptyRow(n), es, targets);
    FillRowWidth(env, t, c, p, EmptyRow(n), es, targets);
    var filled := FillRow(env, t, c, p, EmptyRow(n), es, targets).value;
    var blank := FillRow(Wary(k), u, EARLY, at, EmptyRow(n), es, targets).value;
    var row := if all then filled else Defaulted(t, filled, set i | i in targets);
    assert targets[..|es|] == targets;
    FilledBlank(t, k, blank, targets, all);
    ComputedWorks(env, t, c, p + [|es|], row, n, k, at + [|es|]);
  }

  lemma {:induction false} FillRowWidth(env: Env, t: Table, c: Clock, p: Path, row: Row, es: seq<Expr>, targets: seq<nat>)
    requires |es| <= |targets| && FillRow(env, t, c, p, row, es, targets).Ok?
    ensures |FillRow(env, t, c, p, row, es, targets).value| == |row|
  {
    hide Eval;
    if es != [] {
      FillRowWidth(env, t, c, p, row, es[..|es| - 1], targets);
    }
  }

  lemma FilledBlank(t: Table, k: nat, row: Row, targets: seq<nat>, all: bool)
    requires |row| == |t.columns| && (all ==> targets == seq(|t.columns|, i => i))
    requires forall i :: 0 <= i < |row| ==> row[i] == if i in targets then Bool(false) else Null
    ensures (if all then row else Defaulted(WaryTable(t, k), row, set i | i in targets)) == BlankRow(|t.columns|)
  {
    if all {
      forall i | 0 <= i < |row| ensures row[i] == Bool(false) {
        assert targets[i] == i;
      }
    }
  }

  predicate ColumnListless(t: Table, i: nat) {
    i in t.computed && t.computed[i].Ok? ==> Listless(t.computed[i].value)
  }

  /** Nothing in the operation or in a column it computes has a list to stop in. */
  ghost predicate OpListless(t: Table, op: PendingOp) {
    match op.payload
    case Insert(_, _, rows, _, _, _, _) => (forall i :: 0 <= i < |rows| ==> AllListless(rows[i])) && forall i: nat :: i < |t.columns| ==> ColumnListless(t, i)
    case Update(_, s, cond, _, _, _, _) => Listless(cond) && forall i :: 0 <= i < |s| ==> Listless(s[i].value)
    case Delete(_, cond, _) => Listless(cond)
    case _ => true
  }

  lemma {:induction false} ListlessAt(es: seq<Expr>, j: nat)
    requires AllListless(es) && j < |es|
    ensures Listless(es[j])
  {
    if j < |es| - 1 {
      ListlessAt(es[..|es| - 1], j);
    }
  }

  /** Everything the INSERT evaluates is fit. */
  ghost predicate RowsFit(env: Env, k: nat, rows: seq<seq<Expr>>) {
    forall i, j :: 0 <= i < |rows| && 0 <= j < |rows[i]| ==> Fit(env, k, rows[i][j])
  }

  ghost predicate TableFit(env: Env, k: nat, t: Table) {
    forall i: nat :: i < |t.columns| && i in t.computed && t.computed[i].Ok? ==> Fit(env, k, t.computed[i].value)
  }

  ghost predicate OpFit(env: Env, k: nat, t: Table, op: PendingOp) {
    match op.payload
    case Insert(_, _, rows, _, _, _, _) => RowsFit(env, k, rows) && TableFit(env, k, t)
    case Update(_, s, cond, _, _, _, _) => Fit(env, k, cond) && forall i :: 0 <= i < |s| ==> Fit(env, k, s[i].value)
    case Delete(_, cond, _) => Fit(env, k, cond)
    case _ => true
  }

  lemma {:induction false} BuildRowsWork(env: Env, t: Table, c: Clock, p: Path, k: nat, at: Path, rows: seq<seq<Expr>>, targets: seq<nat>, all: bool)
    requires NoOldNew(t) && BuildRows(env, t, c, p, rows, targets, all).Ok? && (all ==> targets == seq(|t.columns|, i => i))
    requires RowsFit(env, k, rows) && TableFit(env, k, t)
    ensures BuildRows(Wary(k), WaryTable(t, k), EARLY, at, rows, targets, all).Ok?
  {
    hide BuildRow, Wary, Fit, WaryTable;
    if rows != [] {
      var n := |rows| - 1;
      BuildRowsWork(env, t, c, p, k, at, rows[..n], targets, all);
      BuildRowWorks(env, t, c, p + [n], k, at + [n], rows[n], targets, all);
    }
  }

  lemma InsertedWorks(env: Env, t: Table, c: Clock, q: Path, k: nat, at: Path, p: Payload)
    requires p.Insert? && NoOldNew(t) && Inserted(env, t, c, q, p).Ok? && RowsFit(env, k, p.rows) && TableFit(env, k, t)
    ensures Inserted(Wary(k), WaryTable(t, k), EARLY, at, p).Ok?
  {
    hide BuildRows, RowsFit, TableFit, Wary;
    if p.columns == [] {
      BuildRowsWork(env, t, c, q, k, at, p.rows, seq(|t.columns|, i => i), true);
    } else {
      BuildRowsWork(env, t, c, q, k, at, p.rows, MapColumns(t.columns, p.columns).value, false);
    }
  }

  lemma {:induction false} SettingsWork(env: Env, t: Table, c: Clock, p: Path, k: nat, at: Path, s: seq<Assignment>)
    requires NoOldNew(t) && Settings(env, t, c, p, s).Ok? && forall i :: 0 <= i < |s| ==> Fit(env, k, s[i].value)
    ensures Settings(Wary(k), WaryTable(t, k), EARLY, at, s).Ok?
  {
    hide Eval, Wary, OnRow, Reached, Longest, WaryTable, Blanks;
    if s != [] {
      var n := |s| - 1;
      SettingsWork(env, t, c, p, k, at, s[..n]);
      RowBlanks(t, k, []);
      assert BlankRow(0) == [];
      assert Fit(env, k, s[n].value);
      Evaluates(env, c, p + [n], OnRow(t, []), k, at + [n], OnRow(WaryTable(t, k), []), s[n].value);
    }
  }

  function BlankRows(rows: seq<Row>): seq<Row> {
    seq(|rows|, i requires 0 <= i < |rows| => BlankRow(|rows[i]|))
  }

  lemma BlankTest(env: Env, t: Table, c: Clock, p: Path, k: nat, at: Path, cond: Expr, row: Row)
    requires NoOldNew(t) && Fit(env, k, cond) && Test(env, c, p, cond, OnRow(t, row)).Ok?
    ensures Test(Wary(k), EARLY, at, cond, OnRow(WaryTable(t, k), BlankRow(|row|))).Ok?
  {
    hide Test, OnRow, Wary, Reached, WaryTable, Blanks;
    RowBlanks(t, k, row);
    Tests(env, c, p, OnRow(t, row), k, at, OnRow(WaryTable(t, k), BlankRow(|row|)), cond);
  }

  lemma {:induction false} UpdatedRowsWork(env: Env, t: Table, c: Clock, p: Path, k: nat, at: Path, cond: Expr, settings: seq<Setting>, other: seq<Setting>, rows: seq<Row>)
    requires NoOldNew(t) && Fit(env, k, cond) && UpdatedRows(env, t, c, p, cond, settings, rows).Ok?
    ensures UpdatedRows(Wary(k), WaryTable(t, k), EARLY, at, cond, other, BlankRows(rows)).Ok?
  {
    hide Test, OnRow, Wary, Fit, WaryTable, AssignedAll, BlankRow;
    if rows != [] {
      var n, blank := |rows| - 1, BlankRows(rows);
      UpdatedRowsWork(env, t, c, p, k, at, cond, settings, other, rows[..n]);
      BlankTest(env, t, c, p + [n], k, at + [n], cond, rows[n]);
      assert blank[..n] == BlankRows(rows[..n]) && blank[n] == BlankRow(|rows[n]|);
    }
  }

  lemma {:induction false} KeptRowsWork(env: Env, t: Table, c: Clock, p: Path, k: nat, at: Path, cond: Expr, rows: seq<Row>)
    requires NoOldNew(t) && Fit(env, k, cond) && KeptRows(env, t, c, p, cond, rows).Ok?
    ensures KeptRows(Wary(k), WaryTable(t, k), EARLY, at, cond, BlankRows(rows)).Ok?
  {
    hide Test, OnRow, Wary, Fit, WaryTable, BlankRow;
    if rows != [] {
      var n, blank := |rows| - 1, BlankRows(rows);
      KeptRowsWork(env, t, c, p, k, at, cond, rows[..n]);
      BlankTest(env, t, c, p + [n], k, at + [n], cond, rows[n]);
      assert blank[..n] == BlankRows(rows[..n]) && blank[n] == BlankRow(|rows[n]|);
    }
  }

  lemma ApplyWorks(env: Env, t: Table, c: Clock, p: Path, k: nat, at: Path, op: PendingOp, rows: seq<Row>)
    requires NoOldNew(t) && Working(op, rows) && OpFit(env, k, t, op) && ApplyOp(env, t, c, p, op, rows).Ok?
    ensures ApplyOp(Wary(k), WaryTable(t, k), EARLY, at, op, BlankRows(rows)).Ok?
  {
    hide Inserted, Settings, UpdatedRows, KeptRows, Wary, WaryTable, RowsFit, TableFit, Fit, BlankRows;
    match op.payload
    case Insert(_, _, _, _, _, _, _) => InsertedWorks(env, t, c, p, k, at, op.payload);
    case Update(_, s, cond, _, _, _, _) =>
      assert op.kind != "insert";
      SettingsWork(env, t, c, p + [0], k, at + [0], s);
      var settings, other := Settings(env, t, c, p + [0], s).value, Settings(Wary(k), WaryTable(t, k), EARLY, at + [0], s).value;
      UpdatedRowsWork(env, t, c, p + [1], k, at + [1], cond, settings, other, rows);
    case Delete(_, cond, _) => KeptRowsWork(env, t, c, p, k, at, cond, rows);
    case _ =>
  }

  // ----- a bound for the texts

  function RowsBound(rows: seq<seq<Expr>>): (k: nat)
    ensures forall i, j :: 0 <= i < |rows| && 0 <= j < |rows[i]| ==> Longest(rows[i][j]) <= k
  {
    if rows == [] then 0 else Max(RowsBound(rows[..|rows| - 1]), RowBound(rows[|rows| - 1]))
  }

  function RowBound(es: seq<Expr>): (k: nat)
    ensures forall j :: 0 <= j < |es| ==> Longest(es[j]) <= k
  {
    if es == [] then 0 else Max(RowBound(es[..|es| - 1]), Longest(es[|es| - 1]))
  }

  function AssignmentsBound(s: seq<Assignment>): (k: nat)
    ensures forall i :: 0 <= i < |s| ==> Longest(s[i].value) <= k
  {
    if s == [] then 0 else Max(AssignmentsBound(s[..|s| - 1]), Longest(s[|s| - 1].value))
  }

  function ColumnsBound(t: Table, n: nat): (k: nat)
    ensures forall i: nat :: i < n && i in t.computed && t.computed[i].Ok? ==> Longest(t.computed[i].value) <= k
  {
    if n == 0 then 0
    else if n - 1 in t.computed && t.computed[n - 1].Ok? then Max(ColumnsBound(t, n - 1), Longest(t.computed[n - 1].value))
    else ColumnsBound(t, n - 1)
  }

  lemma SomeBound(env: Env, t: Table, op: PendingOp) returns (k: nat)
    requires FindsNothing(env) || OpListless(t, op)
    ensures OpFit(env, k, t, op)
  {
    hide Longest, Listless, AllListless, FindsNothing;
    match op.payload
    case Insert(_, _, rows, _, _, _, _) =>
      k := Max(RowsBound(rows), ColumnsBound(t, |t.columns|));
      forall i, j | 0 <= i < |rows| && 0 <= j < |rows[i]| ensures Fit(env, k, rows[i][j]) {
        if OpListless(t, op) {
          ListlessAt(rows[i], j);
        }
      }
      forall i: nat | i < |t.columns| && i in t.computed && t.computed[i].Ok? ensures Fit(env, k, t.computed[i].value) {
        assert OpListless(t, op) ==> ColumnListless(t, i);
      }
    case Update(_, s, cond, _, _, _, _) => k := Max(AssignmentsBound(s), Longest(cond));
    case Delete(_, cond, _) => k := Longest(cond);
    case _ => k := 0;
  }

  // ----- exactly when the moment shows

  lemma MayApplyOk(env: Env, t: Table, c: Clock, at: Path, op: PendingOp, rows: seq<Row>)
    requires ApplyOp(env, t, c, at, op, rows).Ok?
    ensures exists r :: MayApply(env, t, c, at, op, rows, Ok(r))
  {
    hide Inserted, Settings, UpdatedRows, KeptRows, MayUpdate, Gathered, Test;
    if op.kind == "update" && op.payload.Update? {
      assert op.kind != "insert";
      var settings := Settings(env, t, c, at + [0], op.payload.assignments).value;
      var r := SomeUpdate(env, t, c, at + [1], op.payload.cond, settings, Gathered(settings), rows, |rows|, []);
      assert MayApply(env, t, c, at, op, rows, Ok(r));
    } else {
      assert MayApply(env, t, c, at, op, rows, Ok(ApplyOp(env, t, c, at, op, rows).value));
    }
  }

  lemma {:induction false} MayUpdateOk(env: Env, t: Table, c: Clock, at: Path, cond: Expr, settings: seq<Setting>, updates: map<string, Raw>, rows: seq<Row>, r: Result<seq<Row>>)
    requires MayUpdate(env, t, c, at, cond, updates, rows, r) && r.Ok?
    ensures UpdatedRows(env, t, c, at, cond, settings, rows).Ok?
  {
    hide Test, OnRow, MayAssign, AssignedAll;
    if rows != [] {
      var n := |rows| - 1;
      var front :| MayUpdate(env, t, c, at, cond, updates, rows[..n], front) && MayAddRow(env, t, c, at + [n], cond, updates, rows[n], front, r);
      MayUpdateOk(env, t, c, at, cond, settings, updates, rows[..n], front);
    }
  }

  lemma ApplyOpOk(env: Env, t: Table, c: Clock, at: Path, op: PendingOp, rows: seq<Row>, r: Result<seq<Row>>)
    requires MayApply(env, t, c, at, op, rows, r) && r.Ok?
    ensures ApplyOp(env, t, c, at, op, rows).Ok?
  {
    hide Inserted, Settings, UpdatedRows, KeptRows, MayUpdate, Gathered;
    if op.kind == "update" && op.payload.Update? && Settings(env, t, c, at + [0], op.payload.assignments).Ok? {
      assert op.kind != "insert";
      var settings := Settings(env, t, c, at + [0], op.payload.assignments).value;
      MayUpdateOk(env, t, c, at + [1], op.payload.cond, settings, Gathered(settings), rows, r);
    }
  }

  lemma BlankWorking(op: PendingOp, rows: seq<Row>)
    requires Working(op, rows)
    ensures Working(op, BlankRows(rows))
  {
    assert |BlankRows(rows)| == |rows|;
  }

  lemma ShownUnsettled(env: Env, t: Table, c: Clock, at: Path, op: PendingOp, rows: seq<Row>, r: Result<seq<Row>>)
    requires NoOldNew(t) && Working(op, rows) && NoneDirect(op) && (FindsNothing(env) || OpListless(t, op))
    requires MayApply(env, t, c, at, op, rows, r) && r.Ok? && OpShows(t, op)
    ensures !OpSettled(t, op)
  {
    hide MayApply, ApplyOp, Working, NoneDirect, OpListless, OpShows, OpFit, Trouble, Wary, Late, BlankRows, WaryNormalize, FalseDefaults, FindsNothing;
    var k := SomeBound(env, t, op);
    var u, blank := WaryTable(t, k), BlankRows(rows);
    ApplyOpOk(env, t, c, at, op, rows, r);
    ApplyWorks(env, t, c, at, k, at, op, rows);
    MayApplyOk(Wary(k), u, EARLY, at, op, blank);
    var done :| MayApply(Wary(k), u, EARLY, at, op, blank, Ok(done));
    LateTrouble(t, k, op);
    BlankWorking(op, rows);
    if MayApply(Wary(k), u, Late(k), at, op, blank, Ok(done)) {
      OpFails(Wary(k), u, Late(k), at, op, blank, Ok(done));
    }
    assert !SameResults(Wary(k), u, EARLY, op, Late(k), op, at, blank);
    BothReadable(k);
  }

  lemma BothReadable(k: nat)
    ensures Readable(EARLY) && Readable(Late(k))
  {
  }

  /** For clocks that can always be read: an operation that can succeed has the same possible results at
      every moment, in every environment and with all conversions and defaults, exactly when no reading
      gets to where it can be seen in it or in a column it computes. */
  lemma ApplySettledIff(env: Env, t: Table, c: Clock, at: Path, op: PendingOp, rows: seq<Row>, r: Result<seq<Row>>)
    requires NoOldNew(t) && Working(op, rows) && NoneDirect(op) && (FindsNothing(env) || OpListless(t, op))
    requires MayApply(env, t, c, at, op, rows, r) && r.Ok?
    ensures OpSettled(t, op) <==> !OpShows(t, op)
  {
    hide MayApply, Working, NoneDirect, OpListless, OpShows, OpSettled, FindsNothing;
    if OpShows(t, op) {
      ShownUnsettled(env, t, c, at, op, rows, r);
    } else {
      NotShownSettled(t, op);
    }
  }

  // ----- frozen operations

  predicate RowsDrift(rows: seq<seq<Expr>>) {
    exists i :: 0 <= i < |rows| && AnyDrifts(rows[i])
  }

  predicate AssignmentsDrift(s: seq<Assignment>) {
    exists i :: 0 <= i < |s| && Drifts(s[i].value)
  }

  /** A volatile call stands where freezing does not go, and its reading can be seen. */
  predicate PayloadDrifts(p: Payload) {
    match p
    case Insert(_, _, rows, select, _, _, _) => if select then RowsShow(rows) else RowsDrift(rows)
    case Update(_, s, cond, _, _, _, _) => AssignmentsDrift(s) || Drifts(cond)
    case Delete(_, cond, _) => Drifts(cond)
    case _ => false
  }

  lemma {:induction false} FrozenRowsShowIff(env: Env, clock: Clock, at: Path, rows: seq<seq<Expr>>)
    requires FreezeRows(env, clock, at, rows).Ok?
    ensures RowsShow(FreezeRows(env, clock, at, rows).value) <==> RowsDrift(rows)
    ensures |FreezeRows(env, clock, at, rows).value| == |rows|
  {
    hide AnyShows, AnyDrifts, FreezeAll;
    if rows != [] {
      var n := |rows| - 1;
      var front, last := FreezeRows(env, clock, at, rows[..n]).value, FreezeAll(env, clock, at + [n], 0, rows[n]).value;
      FrozenRowsShowIff(env, clock, at, rows[..n]);
      AllFrozenShowsIff(env, clock, at + [n], 0, rows[n]);
      var all := front + [last];
      assert all[n] == last && forall i :: 0 <= i < n ==> all[i] == front[i];
      assert RowsShow(all) <==> RowsShow(front) || AnyShows(last);
      assert RowsDrift(rows) <==> RowsDrift(rows[..n]) || AnyDrifts(rows[n]);
    }
  }

  lemma {:induction false} FrozenAssignmentsShowIff(env: Env, clock: Clock, at: Path, s: seq<Assignment>)
    requires FreezeAssignments(env, clock, at, s).Ok?
    ensures var f := FreezeAssignments(env, clock, at, s).value;
      && |f| == |s| && (AssignmentsShow(f) <==> AssignmentsDrift(s)) && forall i :: 0 <= i < |f| ==> !IsVolatile(f[i].value)
  {
    hide Shows, Drifts, Freeze, IsVolatile;
    if s != [] {
      var n := |s| - 1;
      var front := FreezeAssignments(env, clock, at, s[..n]).value;
      var last := Assignment(s[n].column, Freeze(env, clock, at + [n], s[n].value).value);
      FrozenAssignmentsShowIff(env, clock, at, s[..n]);
      FrozenShowsIff(env, clock, at + [n], s[n].value);
      var all := front + [last];
      assert all[n] == last && forall i :: 0 <= i < n ==> all[i] == front[i];
      assert AssignmentsShow(all) <==> AssignmentsShow(front) || Shows(last.value);
      assert AssignmentsDrift(s) <==> AssignmentsDrift(s[..n]) || Drifts(s[n].value);
    }
  }

  lemma FrozenOpShowsIff(env: Env, clock: Clock, at: Path, t: Table, op: PendingOp)
    requires FreezePayload(env, clock, at, op.payload).Ok?
    ensures var f := FrozenOp(env, clock, at, op);
      && NoneDirect(f) && (OpShows(t, f) <==> PayloadDrifts(op.payload) || (op.payload.Insert? && TableShows(t)))
  {
    hide Shows, Drifts, Freeze, FreezeRows, FreezeAssignments, IsVolatile, RowsShow, RowsDrift, AssignmentsShow, AssignmentsDrift, TableShows;
    match op.payload
    case Insert(_, _, rows, select, _, _, _) =>
      if !select {
        FrozenRowsShowIff(env, clock, at, rows);
      }
    case Update(_, s, cond, _, _, _, _) =>
      FrozenAssignmentsShowIff(env, clock, at + [0], s);
      FrozenShowsIff(env, clock, at + [1], cond);
    case Delete(_, cond, _) => FrozenShowsIff(env, clock, at, cond);
    case _ =>
  }

  /** So a frozen operation that can succeed has the same possible results at every moment exactly when
      no volatile call was sheltered where its reading can be seen and, for an INSERT, no reading can be
      seen in a computed column. */
  lemma FrozenReplaySettledIff(env: Env, t: Table, freezing: Clock, p: Path, op: PendingOp, c: Clock, at: Path, rows: seq<Row>, r: Result<seq<Row>>)
    requires FreezePayload(env, freezing, p, op.payload).Ok?
    requires var f := FrozenOp(env, freezing, p, op);
      && NoOldNew(t) && Working(f, rows) && (FindsNothing(env) || OpListless(t, f)) && MayApply(env, t, c, at, f, rows, r) && r.Ok?
    ensures OpSettled(t, FrozenOp(env, freezing, p, op)) <==> !PayloadDrifts(op.payload) && (op.payload.Insert? ==> !TableShows(t))
  {
    hide MayApply, Working, OpListless, OpShows, OpSettled, FindsNothing, FreezePayload, PayloadDrifts, TableShows, NoneDirect;
    FrozenOpShowsIff(env, freezing, p, t, op);
    ApplySettledIff(env, t, c, at, FrozenOp(env, freezing, p, op), rows, r);
  }

  /** A table with one column, GENERATED ALWAYS AS (NOW()). */
  const NOW_TABLE :=
    Table(["at"], Context(map[], None, None), (v: Raw, i: nat) => Ok(v), map[], map[0 := Ok(Call("NOW", []))])

  const NULL_ROW: seq<Expr> := [Val(NULL_VAL)]

  /** An INSERT into it that has no volatile call gives another row each time. */
  lemma NowColumnDrifts(env: Env, c1: Clock, c2: Clock, at: Path, op: PendingOp)
    requires op.kind == "insert" && op.payload == Insert("t", [], [NULL_ROW], false, false, false, false)
    requires c1(at + [0] + [1] + [0]).Ok? && c2(at + [0] + [1] + [0]).Ok?
    ensures Quiet(op)
    ensures ApplyOp(env, NOW_TABLE, c1, at, op, []) == Ok([[Text(c1(at + [0] + [1] + [0]).value)]])
    ensures ApplyOp(env, NOW_TABLE, c2, at, op, []) == Ok([[Text(c2(at + [0] + [1] + [0]).value)]])
  {
    NowInserted(env, c1, at, op);
    NowInserted(env, c2, at, op);
    assert NULL_ROW[..0] == [] && !AnyVolatile(NULL_ROW[..0]);
  }

  lemma NowInserted(env: Env, c: Clock, at: Path, op: PendingOp)
    requires op.kind == "insert" && op.payload == Insert("t", [], [NULL_ROW], false, false, false, false)
    requires c(at + [0] + [1] + [0]).Ok?
    ensures ApplyOp(env, NOW_TABLE, c, at, op, []) == Ok([[Text(c(at + [0] + [1] + [0]).value)]])
  {
    hide BuildRow;
    var rows, row := op.payload.rows, [Text(c(at + [0] + [1] + [0]).value)];
    var targets := seq(1, i => i);
    assert targets == [0];
    NowRow(env, c, at + [0], row[0].s);
    assert rows[..0] == [] && rows[0] == NULL_ROW;
    var none: seq<Row> := [];
    assert none + [row] == [row];
    assert BuildRows(env, NOW_TABLE, c, at, rows[..0], [0], true) == Ok(none);
    assert BuildRows(env, NOW_TABLE, c, at, rows, [0], true) == Ok([row]);
    assert Inserted(env, NOW_TABLE, c, at, op.payload) == Ok([row]);
  }

  lemma NowRow(env: Env, c: Clock, at: Path, s: string)
    requires c(at + [1] + [0]) == Ok(s)
    ensures BuildRow(env, NOW_TABLE, c, at, NULL_ROW, [0], true) == Ok([Text(s)])
  {
    var t, now := NOW_TABLE, Call("NOW", []);
    var blank: Row, done: Row := [Null], [Text(s)];
    assert Upper("NOW") == "NOW" && |"null"| == 4 && |"int"| == 3 && |"float"| == 5 && |"string"| == 6 && "bool"[0] != "null"[0];
    assert NULL_ROW[..0] == [] && EmptyRow(1) == blank && blank[0 := Null] == blank && blank[0 := Text(s)] == done;
    assert FillRow(env, t, c, at, blank, NULL_ROW[..0], [0]) == Ok(blank);
    assert Eval(env, c, at + [0], NULL_ROW[0], NO_SCOPE) == Ok(Null);
    assert FillRow(env, t, c, at, blank, NULL_ROW, [0]) == Ok(blank);
    assert Eval(env, c, at + [1] + [0], now, OnRow(t, blank)) == Ok(Text(s));
    assert Computed(env, t, c, at + [1], blank, 0) == Ok(blank);
    assert Computed(env, t, c, at + [1], blank, 1) == Ok(done);
  }
}
