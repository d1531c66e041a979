/** Read-your-own-writes: the buffered operations replayed over a table's committed rows. */
module TxOverlays {
  import opened Ast
  import opened Evaluation
  import opened Freezing
  import opened PendingOps
  import opened Results
  import opened Sets
  import opened Text
  import opened TxBuffers
  import opened WireCodec

  /** What the table supplies: its column names, value conversion per column, defaults and the
      expressions of computed columns by position, of which those that do not parse are errors. */
  datatype Table = Table(
    columns: seq<string>,
    context: Context,
    normalize: (Raw, nat) -> Result<Raw>,
    defaults: map<nat, Raw>,
    computed: map<nat, Result<Expr>>)

  function OnRow(t: Table, row: Row): Scope {
    RowScope(t.context, row, Some(t.columns))
  }

  predicate NoOldNew(t: Table) {
    t.context.oldRow.None? && t.context.newRow.None?
  }

  // ----- INSERT

  /** The column a name stands for in an INSERT: the last of that spelling. */
  function Named(columns: seq<string>, name: string): Option<nat> {
    if columns == [] then None
    else if SameFold(columns[|columns| - 1], name) then Some(|columns| - 1)
    else Named(columns[..|columns| - 1], name)
  }

  function MapColumns(columns: seq<string>, names: seq<string>): Result<seq<nat>> {
    if names == [] then Ok([]) else
    var front, last := MapColumns(columns, names[..|names| - 1]), Named(columns, names[|names| - 1]);
    if front.Err? then front else if last.None? then Err("unknown column") else Ok(front.value + [last.value])
  }

  /** The row with the values put into their columns, each evaluated without a row. */
  function FillRow(env: Env, t: Table, clock: Clock, at: Path, row: Row, es: seq<Expr>, targets: seq<nat>): Result<Row>
    requires |es| <= |targets|
    decreases |es|
  {
    if es == [] then Ok(row) else
    var n := |es| - 1;
    var front := FillRow(env, t, clock, at, row, es[..n], targets);
    if front.Err? then front else
    var v := Eval(env, clock, at + [n], es[n], NO_SCOPE);
    if v.Err? then Err(v.error) else
    var w := t.normalize(v.value, targets[n]);
    if w.Err? then Err(w.error)
    else Ok(if targets[n] < |front.value| then front.value[targets[n] := w.value] else front.value)
  }

  function EmptyRow(n: nat): Row {
    seq(n, i => Null)
  }

  /** `applyDefaults`: what was not given and is NULL gets the column's default. */
  function Defaulted(t: Table, row: Row, given: set<nat>): Row {
    seq(|row|, i requires 0 <= i < |row| => if row[i].Null? && i in t.defaults && i !in given then t.defaults[i] else row[i])
  }

  /** `applyComputedColumns`, for the first `n` columns: each is evaluated on the row so far. */
  function Computed(env: Env, t: Table, clock: Clock, at: Path, row: Row, n: nat): Result<Row> {
    if n == 0 then Ok(row) else
    var i := n - 1;
    var front := Computed(env, t, clock, at, row, i);
    if front.Err? || i !in t.computed then front
    else if t.computed[i].Err? then Err(t.computed[i].error)
    else
      var v := Eval(env, clock, at + [i], t.computed[i].value, OnRow(t, front.value));
      if v.Err? then Err(v.error) else
      var w := t.normalize(v.value, i);
      if w.Err? then Err(w.error) else Ok(if i < |front.value| then front.value[i := w.value] else front.value)
  }

  function BuildRow(env: Env, t: Table, clock: Clock, at: Path, es: seq<Expr>, targets: seq<nat>, all: bool): Result<Row> {
    if |es| != |targets| then Err("insert row has the wrong number of values") else
    var filled := FillRow(env, t, clock, at, EmptyRow(|t.columns|), es, targets);
    if filled.Err? then filled
    else
      var row := if all then filled.value else Defaulted(t, filled.value, set i | i in targets);
      Computed(env, t, clock, at + [|es|], row, |t.columns|)
  }

  function BuildRows(env: Env, t: Table, clock: Clock, at: Path, rows: seq<seq<Expr>>, targets: seq<nat>, all: bool): Result<seq<Row>> {
    if rows == [] then Ok([]) else
    var n := |rows| - 1;
    var front := BuildRows(env, t, clock, at, rows[..n], targets, all);
    if front.Err? then front else
    var last := BuildRow(env, t, clock, at + [n], rows[n], targets, all);
    if last.Err? then Err(last.error) else Ok(front.value + [last.value])
  }

  /** `BuildRows`: without a column list the values are for all columns in order. */
  function Inserted(env: Env, t: Table, clock: Clock, at: Path, p: Payload): Result<seq<Row>>
    requires p.Insert?
  {
    if p.columns == [] then BuildRows(env, t, clock, at, p.rows, seq(|t.columns|, i => i), true)
    else
      var targets := MapColumns(t.columns, p.columns);
      if targets.Err? then Err(targets.error) else BuildRows(env, t, clock, at, p.rows, targets.value, false)
  }

  // ----- UPDATE and DELETE

  /** The position an assignment goes to: the first column of the name that the row has. */
  function Target(columns: seq<string>, width: nat, name: string, i: nat := 0): Option<nat>
    requires i <= |columns|
    decreases |columns| - i
  {
    if i == |columns| then None
    else if SameFold(columns[i], name) && i < width then Some(i)
    else Target(columns, width, name, i + 1)
  }

  datatype Setting = Setting(column: string, value: Raw)

  function Assigned(columns: seq<string>, row: Row, s: Setting): Row {
    var i := Target(columns, |row|, s.column);
    if i.Some? && i.value < |row| then row[i.value := s.value] else row
  }

  function AssignedAll(columns: seq<string>, row: Row, settings: seq<Setting>): Row {
    if settings == [] then row
    else Assigned(columns, AssignedAll(columns, row, settings[..|settings| - 1]), settings[|settings| - 1])
  }

  /** The assignments' values on a row; the overlay evaluates them once and without a row. */
  function Settings(env: Env, t: Table, clock: Clock, at: Path, s: seq<Assignment>, row: Row := []): Result<seq<Setting>> {
    if s == [] then Ok([]) else
    var n := |s| - 1;
    var front := Settings(env, t, clock, at, s[..n], row);
    if front.Err? then front else
    var v := Eval(env, clock, at + [n], s[n].value, OnRow(t, row));
    if v.Err? then Err(v.error) else Ok(front.value + [Setting(s[n].column, v.value)])
  }

  function UpdatedRows(env: Env, t: Table, clock: Clock, at: Path, cond: Expr, settings: seq<Setting>, rows: seq<Row>): Result<seq<Row>> {
    if rows == [] then Ok([]) else
    var n := |rows| - 1;
    var front := UpdatedRows(env, t, clock, at, cond, settings, rows[..n]);
    if front.Err? then front else
    var hit := Test(env, clock, at + [n], cond, OnRow(t, rows[n]));
    if hit.Err? then Err(hit.error)
    else Ok(front.value + [if hit.value then AssignedAll(t.columns, rows[n], settings) else rows[n]])
  }

  function KeptRows(env: Env, t: Table, clock: Clock, at: Path, cond: Expr, rows: seq<Row>): Result<seq<Row>> {
    if rows == [] then Ok([]) else
    var n := |rows| - 1;
    var front := KeptRows(env, t, clock, at, cond, rows[..n]);
    if front.Err? then front else
    var hit := Test(env, clock, at + [n], cond, OnRow(t, rows[n]));
    if hit.Err? then Err(hit.error) else Ok(if hit.value then front.value else front.value + [rows[n]])
  }

  // ----- the replay

  /** One operation on the rows; an unknown kind is passed over. */
  function ApplyOp(env: Env, t: Table, clock: Clock, at: Path, op: PendingOp, rows: seq<Row>): Result<seq<Row>> {
    if op.kind == "insert" then
      if !op.payload.Insert? then Err("tx overlay: invalid insert payload") else
      var new_ := Inserted(env, t, clock, at, op.payload);
      if new_.Err? then new_ else Ok(rows + new_.value)
    else if op.kind == "update" then
      if !op.payload.Update? then Err("tx overlay: invalid update payload") else
      var settings := Settings(env, t, clock, at + [0], op.payload.assignments);
      if settings.Err? then Err(settings.error)
      else UpdatedRows(env, t, clock, at + [1], op.payload.cond, settings.value, rows)
    else if op.kind == "delete" then
      if !op.payload.Delete? then Err("tx overlay: invalid delete payload")
      else KeptRows(env, t, clock, at, op.payload.cond, rows)
    else if op.kind == "truncate" then Ok([])
    else Ok(rows)
  }

  /** The rows a transaction sees: its operations on the table, in order, up to the first error. */
  function Replay(env: Env, t: Table, clock: Clock, db: string, name: string, ops: seq<PendingOp>, base: seq<Row>): Result<seq<Row>> {
    if ops == [] then Ok(base) else
    var n := |ops| - 1;
    var before := Replay(env, t, clock, db, name, ops[..n], base);
    if before.Err? || ops[n].db != db || ops[n].table != name then before
    else ApplyOp(env, t, clock, [n], ops[n], before.value)
  }

  // ----- operations that do not look at the clock

  predicate RowsQuiet(rows: seq<seq<Expr>>) {
    forall i :: 0 <= i < |rows| ==> !AnyVolatile(rows[i])
  }

  predicate AssignmentsQuiet(s: seq<Assignment>) {
    forall i :: 0 <= i < |s| ==> !Volatile(s[i].value)
  }

  predicate Quiet(op: PendingOp) {
    var p := op.payload;
    && (p.Insert? ==> RowsQuiet(p.rows))
    && (p.Update? ==> AssignmentsQuiet(p.assignments) && !Volatile(p.cond))
    && (p.Delete? ==> !Volatile(p.cond))
  }

  lemma {:induction false} AnyVolatileFront(es: seq<Expr>, n: nat)
    requires !AnyVolatile(es) && n < |es|
    ensures !AnyVolatile(es[..n]) && !Volatile(es[n])
    decreases |es|
  {
    if n < |es| - 1 {
      AnyVolatileFront(es[..|es| - 1], n);
      assert es[..|es| - 1][..n] == es[..n];
    }
  }

  /** Under the two clocks the expression has one outcome, wherever it stands. */
  ghost predicate Agrees(env: Env, c: Clock, c2: Clock, e: Expr) {
    forall p, scope :: Eval(env, c, p, e, scope) == Eval(env, c2, p, e, scope)
  }

  ghost predicate AllAgree(env: Env, c: Clock, c2: Clock, es: seq<Expr>) {
    forall i :: 0 <= i < |es| ==> Agrees(env, c, c2, es[i])
  }

  ghost predicate RowsAgree(env: Env, c: Clock, c2: Clock, rows: seq<seq<Expr>>) {
    forall i :: 0 <= i < |rows| ==> AllAgree(env, c, c2, rows[i])
  }

  ghost predicate AssignmentsAgree(env: Env, c: Clock, c2: Clock, s: seq<Assignment>) {
    forall i :: 0 <= i < |s| ==> Agrees(env, c, c2, s[i].value)
  }

  ghost predicate ColumnAgrees(env: Env, c: Clock, c2: Clock, t: Table, i: nat) {
    i in t.computed && t.computed[i].Ok? ==> Agrees(env, c, c2, t.computed[i].value)
  }

  ghost predicate TableAgrees(env: Env, c: Clock, c2: Clock, t: Table) {
    forall i: nat :: i < |t.columns| ==> ColumnAgrees(env, c, c2, t, i)
  }

  /** Everything the operation evaluates has one outcome under the two clocks. */
  ghost predicate OpAgrees(env: Env, c: Clock, c2: Clock, t: Table, op: PendingOp) {
    var p := op.payload;
    && (p.Insert? ==> RowsAgree(env, c, c2, p.rows) && (p.rows != [] ==> TableAgrees(env, c, c2, t)))
    && (p.Update? ==> AssignmentsAgree(env, c, c2, p.assignments) && Agrees(env, c, c2, p.cond))
    && (p.Delete? ==> Agrees(env, c, c2, p.cond))
  }

  lemma {:induction false} FillRowAgrees(env: Env, t: Table, c: Clock, c2: Clock, at: Path, row: Row, es: seq<Expr>, targets: seq<nat>)
    requires AllAgree(env, c, c2, es) && |es| <= |targets|
    ensures FillRow(env, t, c, at, row, es, targets) == FillRow(env, t, c2, at, row, es, targets)
  {
    hide Eval;
    if es != [] {
      FillRowAgrees(env, t, c, c2, at, row, es[..|es| - 1], targets);
    }
  }

  lemma {:induction false} ComputedAgrees(env: Env, t: Table, c: Clock, c2: Clock, at: Path, row: Row, n: nat)
    requires forall i: nat :: i < n ==> ColumnAgrees(env, c, c2, t, i)
    ensures Computed(env, t, c, at, row, n) == Computed(env, t, c2, at, row, n)
  {
    hide Eval;
    if n > 0 {
      ComputedAgrees(env, t, c, c2, at, row, n - 1);
      assert ColumnAgrees(env, c, c2, t, n - 1);
    }
  }

  lemma BuildRowAgrees(env: Env, t: Table, c: Clock, c2: Clock, at: Path, es: seq<Expr>, targets: seq<nat>, all: bool)
    requires AllAgree(env, c, c2, es) && TableAgrees(env, c, c2, t)
    ensures BuildRow(env, t, c, at, es, targets, all) == BuildRow(env, t, c2, at, es, targets, all)
  {
    hide FillRow, Computed, AllAgree, ColumnAgrees;
    if |es| == |targets| {
      FillRowAgrees(env, t, c, c2, at, EmptyRow(|t.columns|), es, targets);
      var filled := FillRow(env, t, c, at, EmptyRow(|t.columns|), es, targets);
      if filled.Ok? {
        var row := if all then filled.value else Defaulted(t, filled.value, set i | i in targets);
        ComputedAgrees(env, t, c, c2, at + [|es|], row, |t.columns|);
      }
    }
  }

  lemma {:induction false} BuildRowsAgree(env: Env, t: Table, c: Clock, c2: Clock, at: Path, rows: seq<seq<Expr>>, targets: seq<nat>, all: bool)
    requires RowsAgree(env, c, c2, rows) && (rows != [] ==> TableAgrees(env, c, c2, t))
    ensures BuildRows(env, t, c, at, rows, targets, all) == BuildRows(env, t, c2, at, rows, targets, all)
  {
    hide BuildRow, AllAgree, TableAgrees;
    if rows != [] {
      var n := |rows| - 1;
      BuildRowsAgree(env, t, c, c2, at, rows[..n], targets, all);
      BuildRowAgrees(env, t, c, c2, at + [n], rows[n], targets, all);
    }
  }

  lemma {:induction false} SettingsAgree(env: Env, t: Table, c: Clock, c2: Clock, at: Path, s: seq<Assignment>)
    requires AssignmentsAgree(env, c, c2, s)
    ensures Settings(env, t, c, at, s) == Settings(env, t, c2, at, s)
  {
    hide Eval, OnRow;
    if s != [] {
      SettingsAgree(env, t, c, c2, at, s[..|s| - 1]);
    }
  }

  /** Two conditions under two clocks that no row of the table tells apart. */
  ghost predicate SameTests(env: Env, t: Table, c: Clock, cond: Expr, c2: Clock, cond2: Expr) {
    forall p, row :: Test(env, c, p, cond, OnRow(t, row)) == Test(env, c2, p, cond2, OnRow(t, row))
  }

  lemma AgreesTests(env: Env, t: Table, c: Clock, c2: Clock, cond: Expr)
    requires Agrees(env, c, c2, cond)
    ensures SameTests(env, t, c, cond, c2, cond)
  {
    hide Eval, OnRow;
    forall p, row ensures Test(env, c, p, cond, OnRow(t, row)) == Test(env, c2, p, cond, OnRow(t, row)) {
      assert Eval(env, c, p, cond, OnRow(t, row)) == Eval(env, c2, p, cond, OnRow(t, row));
    }
  }

  lemma {:induction false} UpdatedRowsSame(env: Env, t: Table, c: Clock, cond: Expr, c2: Clock, cond2: Expr, at: Path, settings: seq<Setting>, rows: seq<Row>)
    requires SameTests(env, t, c, cond, c2, cond2)
    ensures UpdatedRows(env, t, c, at, cond, settings, rows) == UpdatedRows(env, t, c2, at, cond2, settings, rows)
  {
    hide Test, OnRow, AssignedAll;
    if rows != [] {
      UpdatedRowsSame(env, t, c, cond, c2, cond2, at, settings, rows[..|rows| - 1]);
    }
  }

  lemma {:induction false} KeptRowsSame(env: Env, t: Table, c: Clock, cond: Expr, c2: Clock, cond2: Expr, at: Path, rows: seq<Row>)
    requires SameTests(env, t, c, cond, c2, cond2)
    ensures KeptRows(env, t, c, at, cond, rows) == KeptRows(env, t, c2, at, cond2, rows)
  {
    hide Test, OnRow;
    if rows != [] {
      KeptRowsSame(env, t, c, cond, c2, cond2, at, rows[..|rows| - 1]);
    }
  }

  lemma {:induction false} MayUpdateSame(env: Env, t: Table, c: Clock, cond: Expr, c2: Clock, cond2: Expr, at: Path,
                                         updates: map<string, Raw>, rows: seq<Row>, r: Result<seq<Row>>)
    requires SameTests(env, t, c, cond, c2, cond2) && MayUpdate(env, t, c, at, cond, updates, rows, r)
    ensures MayUpdate(env, t, c2, at, cond2, updates, rows, r)
  {
    hide SameTests, MayAddRow;
    if rows != [] {
      var n := |rows| - 1;
      var front :| MayUpdate(env, t, c, at, cond, updates, rows[..n], front) && MayAddRow(env, t, c, at + [n], cond, updates, rows[n], front, r);
      MayUpdateSame(env, t, c, cond, c2, cond2, at, updates, rows[..n], front);
      MayAddRowSame(env, t, c, cond, c2, cond2, at + [n], updates, rows[n], front, r);
    }
  }

  lemma MayAddRowSame(env: Env, t: Table, c: Clock, cond: Expr, c2: Clock, cond2: Expr, at: Path,
                      updates: map<string, Raw>, row: Row, front: Result<seq<Row>>, r: Result<seq<Row>>)
    requires SameTests(env, t, c, cond, c2, cond2) && MayAddRow(env, t, c, at, cond, updates, row, front, r)
    ensures MayAddRow(env, t, c2, at, cond2, updates, row, front, r)
  {
    hide Test, OnRow, MayAssign;
    assert Test(env, c, at, cond, OnRow(t, row)) == Test(env, c2, at, cond2, OnRow(t, row));
  }

  /** A DELETE leaves exactly the rows its condition is false of. */
  lemma {:induction false} KeptRowsExact(env: Env, t: Table, c: Clock, at: Path, cond: Expr, rows: seq<Row>)
    requires !Volatile(cond) && KeptRows(env, t, c, at, cond, rows).Ok?
    ensures forall row :: row in KeptRows(env, t, c, at, cond, rows).value <==> row in rows && Test(env, c, at, cond, OnRow(t, row)) == Ok(false)
  {
    hide Test, OnRow;
    if rows != [] {
      var n := |rows| - 1;
      KeptRowsExact(env, t, c, at, cond, rows[..n]);
      TestAnywhere(env, c, at + [n], at, cond, OnRow(t, rows[n]));
      assert rows == rows[..n] + [rows[n]];
    }
  }

  /** An UPDATE keeps the number and order of the rows and changes exactly those its condition is
      true of. */
  lemma {:induction false} UpdatedRowsExact(env: Env, t: Table, c: Clock, at: Path, cond: Expr, settings: seq<Setting>, rows: seq<Row>, i: nat)
    requires !Volatile(cond) && UpdatedRows(env, t, c, at, cond, settings, rows).Ok? && i < |rows|
    ensures var r, hit := UpdatedRows(env, t, c, at, cond, settings, rows).value, Test(env, c, at, cond, OnRow(t, rows[i]));
      |r| == |rows| && hit.Ok? && r[i] == if hit.value then AssignedAll(t.columns, rows[i], settings) else rows[i]
  {
    hide Test, OnRow, AssignedAll;
    var n := |rows| - 1;
    TestAnywhere(env, c, at + [n], at, cond, OnRow(t, rows[n]));
    if n > 0 {
      UpdatedRowsExact(env, t, c, at, cond, settings, rows[..n], if i < n then i else 0);
    } else {
      assert rows[..n] == [];
    }
  }

  lemma TestAnywhere(env: Env, c: Clock, p: Path, p2: Path, cond: Expr, scope: Scope)
    requires !Volatile(cond)
    ensures Test(env, c, p, cond, scope) == Test(env, c, p2, cond, scope)
  {
    hide Eval, Volatile;
    ClockFree(env, c, p, c, p2, cond, scope);
  }

  /** No computed column looks at the clock. */
  ghost predicate QuietTable(t: Table) {
    forall i: nat :: i < |t.columns| ==> QuietColumn(t, i)
  }

  predicate QuietColumn(t: Table, i: nat) {
    i in t.computed && t.computed[i].Ok? ==> !Volatile(t.computed[i].value)
  }

  /** The operation does not look at the clock, and neither does a column it computes. */
  ghost predicate Unclocked(t: Table, op: PendingOp) {
    Quiet(op) && (op.payload.Insert? ==> QuietTable(t))
  }

  lemma QuietAgrees(env: Env, c: Clock, c2: Clock, e: Expr)
    requires !Volatile(e)
    ensures Agrees(env, c, c2, e)
  {
    hide Eval, Volatile;
    forall p, scope ensures Eval(env, c, p, e, scope) == Eval(env, c2, p, e, scope) {
      ClockFree(env, c, p, c2, p, e, scope);
    }
  }

  lemma UnclockedAgrees(env: Env, t: Table, c: Clock, c2: Clock, op: PendingOp)
    requires Unclocked(t, op)
    ensures OpAgrees(env, c, c2, t, op)
  {
    hide Volatile, Agrees, AnyVolatile;
    var p := op.payload;
    match p
    case Insert(_, _, rows, _, _, _, _) =>
      forall i, j | 0 <= i < |rows| && 0 <= j < |rows[i]| ensures Agrees(env, c, c2, rows[i][j]) {
        AnyVolatileFront(rows[i], j);
        QuietAgrees(env, c, c2, rows[i][j]);
      }
      forall i: nat | i < |t.columns| ensures ColumnAgrees(env, c, c2, t, i) {
        assert QuietColumn(t, i);
        if i in t.computed && t.computed[i].Ok? {
          QuietAgrees(env, c, c2, t.computed[i].value);
        }
      }
    case Update(_, assignments, cond, _, _, _, _) =>
      forall i | 0 <= i < |assignments| ensures Agrees(env, c, c2, assignments[i].value) {
        QuietAgrees(env, c, c2, assignments[i].value);
      }
      QuietAgrees(env, c, c2, cond);
    case Delete(_, cond, _) => QuietAgrees(env, c, c2, cond);
    case _ =>
  }

  /** Whatever order the assignments are visited in, the operation has the same possible results. */
  ghost predicate SameResults(env: Env, t: Table, c: Clock, op: PendingOp, c2: Clock, op2: PendingOp, at: Path, rows: seq<Row>) {
    forall r :: MayApply(env, t, c, at, op, rows, r) <==> MayApply(env, t, c2, at, op2, rows, r)
  }

  lemma InsertedAgrees(env: Env, t: Table, c: Clock, c2: Clock, at: Path, p: Payload)
    requires p.Insert? && RowsAgree(env, c, c2, p.rows) && (p.rows != [] ==> TableAgrees(env, c, c2, t))
    ensures Inserted(env, t, c, at, p) == Inserted(env, t, c2, at, p)
  {
    hide BuildRows, RowsAgree, TableAgrees;
    BuildRowsAgree(env, t, c, c2, at, p.rows, seq(|t.columns|, i => i), true);
    if MapColumns(t.columns, p.columns).Ok? {
      BuildRowsAgree(env, t, c, c2, at, p.rows, MapColumns(t.columns, p.columns).value, false);
    }
  }

  lemma ApplyAgrees(env: Env, t: Table, c: Clock, c2: Clock, at: Path, op: PendingOp, rows: seq<Row>)
    requires OpAgrees(env, c, c2, t, op)
    ensures ApplyOp(env, t, c, at, op, rows) == ApplyOp(env, t, c2, at, op, rows)
    ensures SameResults(env, t, c, op, c2, op, at, rows)
  {
    hide Inserted, Settings, UpdatedRows, KeptRows, MayUpdate, RowsAgree, TableAgrees, AssignmentsAgree, SameTests, Agrees, Gathered;
    match op.payload
    case Insert(_, _, _, _, _, _, _) => InsertedAgrees(env, t, c, c2, at, op.payload);
    case Update(_, assignments, cond, _, _, _, _) =>
      SettingsAgree(env, t, c, c2, at + [0], assignments);
      AgreesTests(env, t, c, c2, cond);
      AgreesBack(env, c, c2, cond);
      AgreesTests(env, t, c2, c, cond);
      UpdatesAlike(env, t, c, cond, c2, cond, at, Settings(env, t, c, at + [0], assignments), rows);
    case Delete(_, cond, _) =>
      AgreesTests(env, t, c, c2, cond);
      KeptRowsSame(env, t, c, cond, c2, cond, at, rows);
    case _ =>
  }

  lemma AgreesBack(env: Env, c: Clock, c2: Clock, e: Expr)
    requires Agrees(env, c, c2, e)
    ensures Agrees(env, c2, c, e)
  {
    hide Eval;
  }

  lemma UpdatesAlike(env: Env, t: Table, c: Clock, cond: Expr, c2: Clock, cond2: Expr, at: Path, settings: Result<seq<Setting>>, rows: seq<Row>)
    requires SameTests(env, t, c, cond, c2, cond2) && SameTests(env, t, c2, cond2, c, cond)
    ensures settings.Ok? ==>
      && UpdatedRows(env, t, c, at + [1], cond, settings.value, rows) == UpdatedRows(env, t, c2, at + [1], cond2, settings.value, rows)
      && forall r :: MayUpdate(env, t, c, at + [1], cond, Gathered(settings.value), rows, r)
                <==> MayUpdate(env, t, c2, at + [1], cond2, Gathered(settings.value), rows, r)
  {
    hide SameTests, MayUpdate, UpdatedRows, Gathered;
    if settings.Ok? {
      UpdatedRowsSame(env, t, c, cond, c2, cond2, at + [1], settings.value, rows);
      var updates := Gathered(settings.value);
      forall r ensures MayUpdate(env, t, c, at + [1], cond, updates, rows, r) <==> MayUpdate(env, t, c2, at + [1], cond2, updates, rows, r) {
        if MayUpdate(env, t, c, at + [1], cond, updates, rows, r) {
          MayUpdateSame(env, t, c, cond, c2, cond2, at + [1], updates, rows, r);
        }
        if MayUpdate(env, t, c2, at + [1], cond2, updates, rows, r) {
          MayUpdateSame(env, t, c2, cond2, c, cond, at + [1], updates, rows, r);
        }
      }
    }
  }

  lemma ApplyQuiet(env: Env, t: Table, c: Clock, c2: Clock, at: Path, op: PendingOp, rows: seq<Row>)
    requires Unclocked(t, op)
    ensures ApplyOp(env, t, c, at, op, rows) == ApplyOp(env, t, c2, at, op, rows)
    ensures SameResults(env, t, c, op, c2, op, at, rows)
  {
    hide ApplyOp, SameResults, Unclocked, OpAgrees;
    UnclockedAgrees(env, t, c, c2, op);
    ApplyAgrees(env, t, c, c2, at, op, rows);
  }

  // ----- operations that came back from the file

  /** Qualifiers make no difference. */
  ghost predicate Blind(scope: Scope) {
    forall table, name :: scope(table, name) == scope("", name)
  }

  lemma {:induction false} EvalBare(env: Env, c: Clock, p: Path, e: Expr, scope: Scope)
    requires Supported(e) && (Unqualified(e) || Blind(scope))
    ensures Eval(env, c, p, Bare(e), scope) == Eval(env, c, p, e, scope)
    ensures Bare(e).Nil? <==> e.Nil?
    decreases e, 0
  {
    hide Apply, WithinBounds, ToRaw, Upper, Reading;
    match e
    case Binary(l, _, r) => EvalBare(env, c, p + [0], l, scope); EvalBare(env, c, p + [1], r, scope);
    case And(l, r) => EvalBare(env, c, p + [0], l, scope); EvalBare(env, c, p + [1], r, scope);
    case Or(l, r) => EvalBare(env, c, p + [0], l, scope); EvalBare(env, c, p + [1], r, scope);
    case Not(x) => EvalBare(env, c, p + [0], x, scope);
    case In(l, list, _) =>
      EvalBare(env, c, p + [0], l, scope);
      if Eval(env, c, p + [0], l, scope).Ok? {
        FindBare(env, c, p, Eval(env, c, p + [0], l, scope).value, list, scope);
      }
    case Call(_, args) => EvalAllBare(env, c, p, args, scope);
    case _ =>
  }

  lemma {:induction false} EvalAllBare(env: Env, c: Clock, p: Path, es: seq<Expr>, scope: Scope)
    requires AllSupported(es) && (AllUnqualified(es) || Blind(scope))
    ensures EvalAll(env, c, p, BareAll(es), scope) == EvalAll(env, c, p, es, scope)
    decreases es, 0
  {
    hide Eval, EvalAll, Bare, Supported, Unqualified, Blind;
    if es != [] {
      var n := |es| - 1;
      EvalAllBare(env, c, p, es[..n], scope);
      EvalBare(env, c, p + [n], es[n], scope);
      EvalAllPush(env, c, p, BareAll(es[..n]), Bare(es[n]), scope);
      EvalAllPush(env, c, p, es[..n], es[n], scope);
      assert es == es[..n] + [es[n]];
    }
  }

  lemma {:induction false} FindBare(env: Env, c: Clock, p: Path, a: Raw, es: seq<Expr>, scope: Scope)
    requires AllSupported(es) && (AllUnqualified(es) || Blind(scope))
    ensures Find(env, c, p, a, BareAll(es), scope) == Find(env, c, p, a, es, scope)
    decreases es, 0
  {
    if es != [] {
      var n := |es| - 1;
      FindBare(env, c, p, a, es[..n], scope);
      EvalBare(env, c, p + [n + 1], es[n], scope);
      FindPush(env, c, p, a, BareAll(es[..n]), Bare(es[n]), scope);
    }
  }

  /** A table as they are created: no column name has a dot, and no OLD or NEW row is around. */
  predicate PlainTable(t: Table) {
    && (forall i :: 0 <= i < |t.columns| ==> !DotIn(t.columns[i]))
    && (forall k :: k in t.context.index ==> !DotIn(k))
    && t.context.oldRow.None? && t.context.newRow.None?
  }

  lemma {:induction false} ScanMisses(columns: seq<string>, row: Row, name: string, i: nat)
    requires i <= |columns| && DotIn(name) && forall k :: 0 <= k < |columns| ==> !DotIn(columns[k])
    ensures Scan(columns, row, name, i).Err?
    decreases |columns| - i
  {
    if i < |columns| {
      LowerDot(name);
      LowerDot(columns[i]);
      ScanMisses(columns, row, name, i + 1);
    }
  }

  lemma LowerDot(s: string)
    ensures DotIn(Lower(s)) <==> DotIn(s)
  {
    if DotIn(s) {
      var i :| 0 <= i < |s| && s[i] == '.';
      assert Lower(s)[i] == '.';
    }
  }

  lemma PlainTableBlind(t: Table, row: Row)
    requires PlainTable(t)
    ensures Blind(OnRow(t, row))
  {
    forall table, name ensures OnRow(t, row)(table, name) == OnRow(t, row)("", name) {
      if table != "" {
        var full := table + "." + name;
        assert full[|table|] == '.';
        LowerDot(full);
        ScanMisses(t.columns, row, full, 0);
      }
    }
  }

  predicate RowsUnqualified(rows: seq<seq<Expr>>) {
    forall i :: 0 <= i < |rows| ==> AllUnqualified(rows[i])
  }

  predicate AssignmentsUnqualified(s: seq<Assignment>) {
    forall i :: 0 <= i < |s| ==> Unqualified(s[i].value)
  }

  predicate NoQualifiers(op: PendingOp) {
    var p := op.payload;
    && (p.Insert? ==> RowsUnqualified(p.rows))
    && (p.Update? ==> AssignmentsUnqualified(p.assignments) && Unqualified(p.cond))
    && (p.Delete? ==> Unqualified(p.cond))
  }

  lemma {:induction false} FillRowBare(env: Env, t: Table, c: Clock, at: Path, row: Row, es: seq<Expr>, targets: seq<nat>)
    requires AllSupported(es) && |es| <= |targets|
    ensures FillRow(env, t, c, at, row, BareAll(es), targets) == FillRow(env, t, c, at, row, es, targets)
  {
    hide Eval, Bare, Supported;
    if es != [] {
      var n, b := |es| - 1, BareAll(es);
      FillRowBare(env, t, c, at, row, es[..n], targets);
      EvalBare(env, c, at + [n], es[n], NO_SCOPE);
      assert b[..n] == BareAll(es[..n]) && b[n] == Bare(es[n]);
    }
  }

  lemma BuildRowBare(env: Env, t: Table, c: Clock, at: Path, es: seq<Expr>, targets: seq<nat>, all: bool)
    requires AllSupported(es)
    ensures BuildRow(env, t, c, at, BareAll(es), targets, all) == BuildRow(env, t, c, at, es, targets, all)
  {
    hide FillRow, BareAll, AllSupported;
    if |es| == |targets| {
      FillRowBare(env, t, c, at, EmptyRow(|t.columns|), es, targets);
    }
  }

  lemma BuildRowsPush(env: Env, t: Table, c: Clock, at: Path, rows: seq<seq<Expr>>, es: seq<Expr>, targets: seq<nat>, all: bool)
    ensures BuildRows(env, t, c, at, rows + [es], targets, all) ==
      (var front, last := BuildRows(env, t, c, at, rows, targets, all), BuildRow(env, t, c, at + [|rows|], es, targets, all);
       if front.Err? then front else if last.Err? then Err(last.error) else Ok(front.value + [last.value]))
  {
    hide BuildRow;
    assert (rows + [es])[..|rows|] == rows;
  }

  lemma {:induction false} BuildRowsBare(env: Env, t: Table, c: Clock, at: Path, rows: seq<seq<Expr>>, targets: seq<nat>, all: bool)
    requires RowsSupported(rows)
    ensures BuildRows(env, t, c, at, BareRows(rows), targets, all) == BuildRows(env, t, c, at, rows, targets, all)
    ensures |BareRows(rows)| == |rows|
  {
    hide BuildRow, BuildRows, BareAll, AllSupported;
    if rows != [] {
      var n := |rows| - 1;
      BuildRowsBare(env, t, c, at, rows[..n], targets, all);
      BuildRowBare(env, t, c, at + [n], rows[n], targets, all);
      BuildRowsPush(env, t, c, at, BareRows(rows[..n]), BareAll(rows[n]), targets, all);
      BuildRowsPush(env, t, c, at, rows[..n], rows[n], targets, all);
      assert rows == rows[..n] + [rows[n]];
    }
  }

  lemma {:induction false} SettingsBare(env: Env, t: Table, c: Clock, at: Path, s: seq<Assignment>, row: Row)
    requires AssignmentsSupported(s) && (AssignmentsUnqualified(s) || PlainTable(t))
    ensures Settings(env, t, c, at, BareAssignments(s), row) == Settings(env, t, c, at, s, row)
    ensures |BareAssignments(s)| == |s|
  {
    hide Eval, Bare, Supported, Unqualified, PlainTable, OnRow;
    if s != [] {
      var n, b := |s| - 1, BareAssignments(s);
      SettingsBare(env, t, c, at, s[..n], row);
      ConditionScope(t, row, s[n].value);
      EvalBare(env, c, at + [n], s[n].value, OnRow(t, row));
      assert b[..n] == BareAssignments(s[..n]) && b[n] == Assignment(s[n].column, Bare(s[n].value));
    }
  }

  lemma ConditionScope(t: Table, row: Row, e: Expr)
    requires Unqualified(e) || PlainTable(t)
    ensures Unqualified(e) || Blind(OnRow(t, row))
  {
    if PlainTable(t) {
      PlainTableBlind(t, row);
    }
  }

  lemma TestBare(env: Env, t: Table, c: Clock, at: Path, cond: Expr, row: Row)
    requires Supported(cond) && (Unqualified(cond) || PlainTable(t))
    ensures Test(env, c, at, Bare(cond), OnRow(t, row)) == Test(env, c, at, cond, OnRow(t, row))
  {
    ConditionScope(t, row, cond);
    EvalBare(env, c, at, cond, OnRow(t, row));
  }

  lemma BareTests(env: Env, t: Table, c: Clock, cond: Expr)
    requires Supported(cond) && (Unqualified(cond) || PlainTable(t))
    ensures SameTests(env, t, c, Bare(cond), c, cond) && SameTests(env, t, c, cond, c, Bare(cond))
  {
    hide Test, Bare, Supported, Unqualified, PlainTable, OnRow;
    forall p, row ensures Test(env, c, p, Bare(cond), OnRow(t, row)) == Test(env, c, p, cond, OnRow(t, row)) {
      TestBare(env, t, c, p, cond, row);
    }
  }

  lemma InsertedBare(env: Env, t: Table, c: Clock, at: Path, op: PendingOp)
    requires Writable(op) && op.payload.Insert?
    ensures Recoded(op).payload.Insert? && Inserted(env, t, c, at, Recoded(op).payload) == Inserted(env, t, c, at, op.payload)
  {
    hide BuildRows;
    var p := op.payload;
    BuildRowsBare(env, t, c, at, p.rows, seq(|t.columns|, i => i), true);
    if MapColumns(t.columns, p.columns).Ok? {
      BuildRowsBare(env, t, c, at, p.rows, MapColumns(t.columns, p.columns).value, false);
    }
  }

  /** What the wire form drops, the replay does not use. */
  lemma ApplyRecoded(env: Env, t: Table, c: Clock, at: Path, op: PendingOp, rows: seq<Row>)
    requires Writable(op) && (NoQualifiers(op) || PlainTable(t))
    ensures ApplyOp(env, t, c, at, Recoded(op), rows) == ApplyOp(env, t, c, at, op, rows)
    ensures SameResults(env, t, c, Recoded(op), c, op, at, rows)
  {
    hide Inserted, Settings, UpdatedRows, KeptRows, MayUpdate, SameTests, Gathered, Bare, Supported, Unqualified, PlainTable;
    match op.payload
    case Insert(_, _, _, _, _, _, _) => InsertedBare(env, t, c, at, op);
    case Update(_, assignments, cond, _, _, _, _) =>
      SettingsBare(env, t, c, at + [0], assignments, []);
      BareTests(env, t, c, cond);
      UpdatesAlike(env, t, c, Bare(cond), c, cond, at, Settings(env, t, c, at + [0], assignments), rows);
    case Delete(_, cond, _) =>
      BareTests(env, t, c, cond);
      KeptRowsSame(env, t, c, Bare(cond), c, cond, at, rows);
    case _ =>
  }

  ghost predicate SameOrRecoded(ops: seq<PendingOp>, read: seq<PendingOp>) {
    |read| == |ops| && forall i :: 0 <= i < |ops| ==> read[i] == ops[i] || (Writable(ops[i]) && read[i] == Recoded(ops[i]))
  }

  lemma StepSame(env: Env, t: Table, c: Clock, c2: Clock, at: Path, op: PendingOp, read: PendingOp, rows: seq<Row>)
    requires read == op || (Writable(op) && read == Recoded(op))
    requires Unclocked(t, op) && (NoQualifiers(op) || PlainTable(t))
    ensures SameResults(env, t, c2, read, c, op, at, rows)
  {
    hide MayApply, ApplyOp, Unclocked, NoQualifiers, PlainTable, Recoded;
    ApplyQuiet(env, t, c, c2, at, op, rows);
    if read != op {
      ApplyRecoded(env, t, c2, at, op, rows);
    }
  }

  /** The operations read back are those buffered, as they were or recoded, and none looks at the
      clock. */
  ghost predicate ReadAlike(t: Table, ops: seq<PendingOp>, read: seq<PendingOp>) {
    SameOrRecoded(ops, read) && forall op :: op in ops ==> Unclocked(t, op) && (NoQualifiers(op) || PlainTable(t))
  }

  /** Neither the time of the replay nor a trip through the spill file can be seen in what it can
      return. */
  lemma {:induction false} ReplaySame(env: Env, t: Table, c: Clock, c2: Clock, db: string, name: string,
                                      ops: seq<PendingOp>, read: seq<PendingOp>, base: seq<Row>, r: Result<seq<Row>>)
    requires ReadAlike(t, ops, read)
    ensures MayReplay(env, t, c2, db, name, read, base, r) <==> MayReplay(env, t, c, db, name, ops, base, r)
  {
    hide Unclocked, NoQualifiers, PlainTable, Recoded, Writable, SameResults;
    if ops != [] {
      var n := |ops| - 1;
      assert ops[n] in ops;
      if MayReplay(env, t, c2, db, name, read, base, r) {
        var before :| MayReplay(env, t, c2, db, name, read[..n], base, before) && MayStep(env, t, c2, db, name, [n], read[n], before, r);
        ReplaySame(env, t, c, c2, db, name, ops[..n], read[..n], base, before);
        MayStepSame(env, t, c, c2, db, name, [n], ops[n], read[n], before, r);
        assert MayStep(env, t, c, db, name, [n], ops[n], before, r);
      }
      if MayReplay(env, t, c, db, name, ops, base, r) {
        var before :| MayReplay(env, t, c, db, name, ops[..n], base, before) && MayStep(env, t, c, db, name, [n], ops[n], before, r);
        ReplaySame(env, t, c, c2, db, name, ops[..n], read[..n], base, before);
        MayStepSame(env, t, c, c2, db, name, [n], ops[n], read[n], before, r);
        assert MayStep(env, t, c2, db, name, [n], read[n], before, r);
      }
    }
  }

  lemma MayStepSame(env: Env, t: Table, c: Clock, c2: Clock, db: string, name: string, at: Path, op: PendingOp, read: PendingOp,
                    before: Result<seq<Row>>, r: Result<seq<Row>>)
    requires read == op || (Writable(op) && read == Recoded(op))
    requires Unclocked(t, op) && (NoQualifiers(op) || PlainTable(t))
    ensures MayStep(env, t, c2, db, name, at, read, before, r) <==> MayStep(env, t, c, db, name, at, op, before, r)
  {
    hide MayApply, Unclocked, NoQualifiers, PlainTable, Writable, BarePayload;
    if before.Ok? {
      StepSame(env, t, c, c2, at, op, read, before.value);
    }
  }

  // ----- freezing whole statements

  function FreezeRows(env: Env, clock: Clock, at: Path, rows: seq<seq<Expr>>): Result<seq<seq<Expr>>> {
    if rows == [] then Ok([]) else
    var n := |rows| - 1;
    var front := FreezeRows(env, clock, at, rows[..n]);
    if front.Err? then front else
    var last := FreezeAll(env, clock, at + [n], 0, rows[n]);
    if last.Err? then Err(last.error) else Ok(front.value + [last.value])
  }

  function FreezeAssignments(env: Env, clock: Clock, at: Path, s: seq<Assignment>): Result<seq<Assignment>> {
    if s == [] then Ok([]) else
    var n := |s| - 1;
    var front := FreezeAssignments(env, clock, at, s[..n]);
    if front.Err? then front else
    var last := Freeze(env, clock, at + [n], s[n].value);
    if last.Err? then Err(last.error) else Ok(front.value + [Assignment(s[n].column, last.value)])
  }

  /** `freezeInsert`, `freezeUpdate` and `freezeDelete`. */
  function FreezePayload(env: Env, clock: Clock, at: Path, p: Payload): Result<Payload> {
    match p
    case Insert(_, _, rows, select, _, _, _) =>
      if select then Ok(p) else
      var frozen := FreezeRows(env, clock, at, rows);
      if frozen.Err? then Err(frozen.error) else Ok(p.(rows := frozen.value))
    case Update(_, assignments, cond, _, _, _, _) =>
      var frozen, fc := FreezeAssignments(env, clock, at + [0], assignments), Freeze(env, clock, at + [1], cond);
      if frozen.Err? then Err(frozen.error) else if fc.Err? then Err(fc.error)
      else Ok(p.(assignments := frozen.value, cond := fc.value))
    case Delete(_, cond, _) =>
      var fc := Freeze(env, clock, at, cond);
      if fc.Err? then Err(fc.error) else Ok(p.(cond := fc.value))
    case _ => Ok(p)
  }

  predicate RowsSheltered(rows: seq<seq<Expr>>) {
    exists i :: 0 <= i < |rows| && AnySheltered(rows[i])
  }

  predicate AssignmentsSheltered(s: seq<Assignment>) {
    exists i :: 0 <= i < |s| && Sheltered(s[i].value)
  }

  predicate PayloadSheltered(p: Payload) {
    || (p.Insert? && if p.select then !RowsQuiet(p.rows) else RowsSheltered(p.rows))
    || (p.Update? && (AssignmentsSheltered(p.assignments) || Sheltered(p.cond)))
    || (p.Delete? && Sheltered(p.cond))
  }

  lemma {:induction false} FrozenRowsQuiet(env: Env, clock: Clock, at: Path, rows: seq<seq<Expr>>)
    requires FreezeRows(env, clock, at, rows).Ok?
    ensures RowsQuiet(FreezeRows(env, clock, at, rows).value) <==> !RowsSheltered(rows)
  {
    if rows != [] {
      var n := |rows| - 1;
      var front, last := FreezeRows(env, clock, at, rows[..n]).value, FreezeAll(env, clock, at + [n], 0, rows[n]).value;
      FrozenRowsQuiet(env, clock, at, rows[..n]);
      AllFrozenVolatileIff(env, clock, at + [n], 0, rows[n]);
      RowsQuietPush(front, last);
      RowsShelteredPush(rows[..n], rows[n]);
      assert rows == rows[..n] + [rows[n]];
    }
  }

  lemma RowsQuietPush(rows: seq<seq<Expr>>, row: seq<Expr>)
    ensures RowsQuiet(rows + [row]) <==> RowsQuiet(rows) && !AnyVolatile(row)
  {
    var all := rows + [row];
    assert all[|rows|] == row && forall i :: 0 <= i < |rows| ==> all[i] == rows[i];
  }

  lemma RowsShelteredPush(rows: seq<seq<Expr>>, row: seq<Expr>)
    ensures RowsSheltered(rows + [row]) <==> RowsSheltered(rows) || AnySheltered(row)
  {
    var all := rows + [row];
    assert all[|rows|] == row && forall i :: 0 <= i < |rows| ==> all[i] == rows[i];
  }

  lemma {:induction false} FrozenAssignmentsQuiet(env: Env, clock: Clock, at: Path, s: seq<Assignment>)
    requires FreezeAssignments(env, clock, at, s).Ok?
    ensures AssignmentsQuiet(FreezeAssignments(env, clock, at, s).value) <==> !AssignmentsSheltered(s)
  {
    if s != [] {
      var n := |s| - 1;
      var front := FreezeAssignments(env, clock, at, s[..n]).value;
      var last := Assignment(s[n].column, Freeze(env, clock, at + [n], s[n].value).value);
      FrozenAssignmentsQuiet(env, clock, at, s[..n]);
      FrozenVolatileIff(env, clock, at + [n], s[n].value);
      var all := front + [last];
      assert all[|front|] == last && forall i :: 0 <= i < |front| ==> all[i] == front[i];
      assert AssignmentsQuiet(all) <==> AssignmentsQuiet(front) && !Volatile(last.value);
      assert AssignmentsSheltered(s) <==> AssignmentsSheltered(s[..n]) || Sheltered(s[n].value);
    }
  }

  /** A frozen operation does not look at the clock, exactly when no volatile call was sheltered. */
  lemma FrozenQuietIff(env: Env, clock: Clock, at: Path, op: PendingOp)
    requires FreezePayload(env, clock, at, op.payload).Ok?
    ensures Quiet(op.(payload := FreezePayload(env, clock, at, op.payload).value)) <==> !PayloadSheltered(op.payload)
  {
    match op.payload
    case Insert(_, _, rows, select, _, _, _) =>
      if !select {
        FrozenRowsQuiet(env, clock, at, rows);
      }
    case Update(_, assignments, cond, _, _, _, _) =>
      FrozenAssignmentsQuiet(env, clock, at + [0], assignments);
      FrozenVolatileIff(env, clock, at + [1], cond);
    case Delete(_, cond, _) => FrozenVolatileIff(env, clock, at, cond);
    case _ =>
  }

  /** What a transaction can read is what the replay of its log can give: for every history of the
      buffer, every threshold and fault, and any two moments, as long as the buffer can be read. */
  lemma OverlayIsLogReplay(env: Env, t: Table, config: TxBuffers.Config, h: seq<Action>, c: Clock, c2: Clock,
                           db: string, name: string, base: seq<Row>, r: Result<seq<Row>>)
    requires forall op :: op in Log(h) ==> Unclocked(t, op) && (NoQualifiers(op) || PlainTable(t))
    requires Read(Run(config, START, h)).Ok?
    ensures MayReplay(env, t, c2, db, name, Read(Run(config, START, h)).value, base, r) <==> MayReplay(env, t, c, db, name, Log(h), base, r)
  {
    hide MayReplay, Unclocked, NoQualifiers, PlainTable;
    ReadIsLog(config, h);
    SpilledWritable(config, h);
    ReplaySame(env, t, c, c2, db, name, Log(h), Read(Run(config, START, h)).value, base, r);
  }

  // ----- the overlay in steps

  /** No two assignments are to spellings of one name. */
  predicate Determinate(settings: seq<Setting>) {
    forall i, j :: 0 <= i < j < |settings| ==> !SameFold(settings[i].column, settings[j].column)
  }

  lemma {:induction false} TargetNamed(columns: seq<string>, width: nat, name: string, i: nat)
    requires i <= |columns|
    ensures var r := Target(columns, width, name, i); r.Some? ==> r.value < width && r.value < |columns| && SameFold(columns[r.value], name)
    decreases |columns| - i
  {
    if i < |columns| {
      TargetNamed(columns, width, name, i + 1);
    }
  }

  lemma {:induction false} AssignedAllWidth(columns: seq<string>, row: Row, settings: seq<Setting>)
    ensures |AssignedAll(columns, row, settings)| == |row|
  {
    if settings != [] {
      AssignedAllWidth(columns, row, settings[..|settings| - 1]);
    }
  }

  /** The cell `i` after the assignments: the value of the one assignment that goes there. */
  lemma {:induction false} AssignedCell(columns: seq<string>, row: Row, settings: seq<Setting>, i: nat, k: nat)
    requires Determinate(settings) && i < |row| && k < |settings| && Target(columns, |row|, settings[k].column) == Some(i)
    ensures |AssignedAll(columns, row, settings)| == |row| && AssignedAll(columns, row, settings)[i] == settings[k].value
  {
    var n := |settings| - 1;
    AssignedAllWidth(columns, row, settings[..n]);
    if k < n {
      AssignedCell(columns, row, settings[..n], i, k);
      TargetNamed(columns, |row|, settings[k].column, 0);
      TargetNamed(columns, |row|, settings[n].column, 0);
    }
  }

  /** The assignments in a map from column to value: the last to a name counts. */
  function Gathered(settings: seq<Setting>): map<string, Raw> {
    if settings == [] then map[] else
    Gathered(settings[..|settings| - 1])[settings[|settings| - 1].column := settings[|settings| - 1].value]
  }

  /** The entries of the map outside `rest`, in some order. */
  ghost predicate Lists(order: seq<Setting>, updates: map<string, Raw>, rest: set<string>) {
    && (forall k :: 0 <= k < |order| ==>
          order[k].column in updates && order[k].column !in rest && updates[order[k].column] == order[k].value)
    && (forall i, j :: 0 <= i < j < |order| ==> order[i].column != order[j].column)
    && forall c :: c in updates && c !in rest ==> exists k :: 0 <= k < |order| && order[k].column == c
  }

  /** What assigning the entries of the map in some order can make of a row. */
  ghost predicate MayAssign(columns: seq<string>, row: Row, updates: map<string, Raw>, r: Row) {
    exists order :: Lists(order, updates, {}) && r == AssignedAll(columns, row, order)
  }

  lemma ListsNext(order: seq<Setting>, updates: map<string, Raw>, rest: set<string>, column: string)
    requires Lists(order, updates, rest) && column in rest && rest <= updates.Keys
    ensures Lists(order + [Setting(column, updates[column])], updates, rest - {column})
  {
    var next := order + [Setting(column, updates[column])];
    forall c | c in updates && c !in rest - {column} ensures exists k :: 0 <= k < |next| && next[k].column == c {
      if c == column {
        assert next[|order|].column == c;
      } else {
        var k :| 0 <= k < |order| && order[k].column == c;
        assert next[k].column == c;
      }
    }
  }

  /** `applyUpdatesToRow`: the assignments are visited in any order. */
  method ApplyUpdatesToRow(columns: seq<string>, row: Row, updates: map<string, Raw>) returns (r: Row)
    ensures MayAssign(columns, row, updates, r)
  {
    hide Assigned;
    r := row;
    var rest := updates.Keys;
    ghost var order: seq<Setting> := [];
    while rest != {}
      invariant rest <= updates.Keys && Lists(order, updates, rest) && r == AssignedAll(columns, row, order)
      decreases rest
    {
      hide Lists;
      var column := Pick(rest);
      ListsNext(order, updates, rest, column);
      r := Assigned(columns, r, Setting(column, updates[column]));
      ghost var next := order + [Setting(column, updates[column])];
      assert next[..|next| - 1] == order;
      order := next;
      rest := rest - {column};
    }
  }

  lemma {:induction false} GatheredHolds(settings: seq<Setting>)
    ensures forall c :: c in Gathered(settings) ==> exists k :: 0 <= k < |settings| && settings[k] == Setting(c, Gathered(settings)[c])
    ensures forall k :: 0 <= k < |settings| ==> settings[k].column in Gathered(settings)
  {
    if settings != [] {
      var n := |settings| - 1;
      GatheredHolds(settings[..n]);
      forall c | c in Gathered(settings) ensures exists k :: 0 <= k < |settings| && settings[k] == Setting(c, Gathered(settings)[c]) {
        if c == settings[n].column {
          assert settings[n] == Setting(c, Gathered(settings)[c]);
        } else {
          var k :| 0 <= k < n && settings[..n][k] == Setting(c, Gathered(settings[..n])[c]);
          assert settings[k] == Setting(c, Gathered(settings)[c]);
        }
      }
    }
  }

  /** The assignment that decides cell `i`: the last that goes there, or none. */
  lemma {:induction false} LastCell(columns: seq<string>, row: Row, settings: seq<Setting>, i: nat) returns (k: int)
    requires i < |row|
    ensures |AssignedAll(columns, row, settings)| == |row| && -1 <= k < |settings|
    ensures forall j :: k < j < |settings| ==> Target(columns, |row|, settings[j].column) != Some(i)
    ensures k >= 0 ==> Target(columns, |row|, settings[k].column) == Some(i)
    ensures AssignedAll(columns, row, settings)[i] == if k < 0 then row[i] else settings[k].value
  {
    hide Target;
    k := -1;
    if settings != [] {
      var n := |settings| - 1;
      k := LastCell(columns, row, settings[..n], i);
      if Target(columns, |row|, settings[n].column) == Some(i) {
        k := n;
      }
    }
  }

  lemma {:induction false} GatheredLast(settings: seq<Setting>, k: nat)
    requires k < |settings| && forall j :: k < j < |settings| ==> settings[j].column != settings[k].column
    ensures settings[k].column in Gathered(settings) && Gathered(settings)[settings[k].column] == settings[k].value
  {
    var n := |settings| - 1;
    if k < n {
      GatheredLast(settings[..n], k);
    }
  }

  /** Assignments under different spellings that go to one cell give it one value. */
  ghost predicate Agreed(columns: seq<string>, width: nat, updates: map<string, Raw>) {
    forall a, b :: a in updates && b in updates && Target(columns, width, a).Some? && Target(columns, width, a) == Target(columns, width, b) ==>
      updates[a] == updates[b]
  }

  /** The cell after the assignments in their own order is what the map has for one of the names that
      go there. */
  lemma DecidedBy(columns: seq<string>, row: Row, settings: seq<Setting>, i: nat) returns (c: string, any: bool)
    requires i < |row|
    ensures |AssignedAll(columns, row, settings)| == |row|
    ensures any ==> c in Gathered(settings) && Target(columns, |row|, c) == Some(i) && AssignedAll(columns, row, settings)[i] == Gathered(settings)[c]
    ensures !any ==> AssignedAll(columns, row, settings)[i] == row[i]
    ensures !any ==> forall d :: d in Gathered(settings) ==> Target(columns, |row|, d) != Some(i)
  {
    hide Target, AssignedAll;
    var k := LastCell(columns, row, settings, i);
    any, c := k >= 0, "";
    if any {
      c := settings[k].column;
      GatheredLast(settings, k);
    } else {
      GatheredHolds(settings);
    }
  }

  lemma ListedCell(columns: seq<string>, row: Row, updates: map<string, Raw>, order: seq<Setting>, i: nat) returns (c: string, any: bool)
    requires i < |row| && Lists(order, updates, {})
    ensures |AssignedAll(columns, row, order)| == |row|
    ensures any ==> c in updates && Target(columns, |row|, c) == Some(i) && AssignedAll(columns, row, order)[i] == updates[c]
    ensures !any ==> AssignedAll(columns, row, order)[i] == row[i]
    ensures !any ==> forall d :: d in updates ==> Target(columns, |row|, d) != Some(i)
  {
    hide Target, AssignedAll;
    var k := LastCell(columns, row, order, i);
    any, c := k >= 0, "";
    if any {
      c := order[k].column;
    }
  }

  lemma {:induction false} SomeOrder(updates: map<string, Raw>, rest: set<string>) returns (order: seq<Setting>)
    requires rest <= updates.Keys
    ensures Lists(order, updates, rest)
    decreases updates.Keys - rest
  {
    if c :| c in updates && c !in rest {
      order := SomeOrder(updates, rest + {c});
      ListsNext(order, updates, rest + {c}, c);
      order := order + [Setting(c, updates[c])];
      assert rest + {c} - {c} == rest;
    } else {
      order := [];
    }
  }

  /** Some order ends with the given name, and so decides its cell by it. */
  lemma OrderEnding(columns: seq<string>, row: Row, updates: map<string, Raw>, x: string, i: nat) returns (r: Row)
    requires x in updates && i < |row| && Target(columns, |row|, x) == Some(i)
    ensures MayAssign(columns, row, updates, r) && |r| == |row| && r[i] == updates[x]
  {
    var front := SomeOrder(updates, {x});
    ListsNext(front, updates, {x}, x);
    var order := front + [Setting(x, updates[x])];
    assert {x} - {x} == {} && order[..|order| - 1] == front;
    r := AssignedAll(columns, row, order);
    AssignedAllWidth(columns, row, front);
  }

  lemma SomeAssign(columns: seq<string>, row: Row, updates: map<string, Raw>) returns (r: Row)
    ensures MayAssign(columns, row, updates, r)
  {
    var order := SomeOrder(updates, {});
    r := AssignedAll(columns, row, order);
  }

  /** Every order of the map gives the row that the assignments give in their own order, exactly when
      different spellings of one column are given one value. */
  lemma OrderIrrelevantIff(columns: seq<string>, row: Row, settings: seq<Setting>)
    ensures (forall r :: MayAssign(columns, row, Gathered(settings), r) ==> r == AssignedAll(columns, row, settings))
       <==> Agreed(columns, |row|, Gathered(settings))
  {
    hide Target, AssignedAll, Gathered, Lists;
    var updates := Gathered(settings);
    if Agreed(columns, |row|, updates) {
      forall r | MayAssign(columns, row, updates, r) ensures r == AssignedAll(columns, row, settings) {
        AgreedOrders(columns, row, settings, r);
      }
    } else {
      var a, b :| a in updates && b in updates && Target(columns, |row|, a).Some? && Target(columns, |row|, a) == Target(columns, |row|, b) && updates[a] != updates[b];
      var i := Target(columns, |row|, a).value;
      TargetNamed(columns, |row|, a, 0);
      AssignedAllWidth(columns, row, settings);
      var x := if updates[a] != AssignedAll(columns, row, settings)[i] then a else b;
      var r := OrderEnding(columns, row, updates, x, i);
    }
  }

  lemma AgreedOrders(columns: seq<string>, row: Row, settings: seq<Setting>, r: Row)
    requires Agreed(columns, |row|, Gathered(settings)) && MayAssign(columns, row, Gathered(settings), r)
    ensures r == AssignedAll(columns, row, settings)
  {
    hide Target, AssignedAll, Gathered, Lists;
    var order :| Lists(order, Gathered(settings), {}) && r == AssignedAll(columns, row, order);
    AssignedAllWidth(columns, row, order);
    AssignedAllWidth(columns, row, settings);
    forall i | 0 <= i < |row| ensures r[i] == AssignedAll(columns, row, settings)[i] {
      var c, any := DecidedBy(columns, row, settings, i);
      var d, some := ListedCell(columns, row, Gathered(settings), order, i);
    }
  }

  /** When no two assignments are to spellings of one name, that is so. */
  lemma DeterminateAgreed(columns: seq<string>, width: nat, settings: seq<Setting>)
    requires Determinate(settings)
    ensures Agreed(columns, width, Gathered(settings))
  {
    hide Target, Gathered;
    var updates := Gathered(settings);
    GatheredHolds(settings);
    forall a, b | a in updates && b in updates && Target(columns, width, a).Some? && Target(columns, width, a) == Target(columns, width, b)
      ensures updates[a] == updates[b]
    {
      TargetNamed(columns, width, a, 0);
      TargetNamed(columns, width, b, 0);
      var k :| 0 <= k < |settings| && settings[k] == Setting(a, updates[a]);
      var l :| 0 <= l < |settings| && settings[l] == Setting(b, updates[b]);
    }
  }

  lemma {:induction false} SettingsFail(env: Env, t: Table, clock: Clock, at: Path, s: seq<Assignment>, i: nat)
    requires i <= |s| && Settings(env, t, clock, at, s[..i]).Err?
    ensures Settings(env, t, clock, at, s) == Settings(env, t, clock, at, s[..i])
    decreases |s| - i
  {
    if i < |s| {
      assert s[..i + 1][..i] == s[..i];
      SettingsFail(env, t, clock, at, s, i + 1);
    } else {
      assert s[..i] == s;
    }
  }

  lemma {:induction false} SettingsColumns(env: Env, t: Table, clock: Clock, at: Path, s: seq<Assignment>)
    requires Settings(env, t, clock, at, s).Ok?
    ensures var r := Settings(env, t, clock, at, s).value;
      |r| == |s| && forall k :: 0 <= k < |s| ==> r[k].column == s[k].column
  {
    if s != [] {
      SettingsColumns(env, t, clock, at, s[..|s| - 1]);
    }
  }

  lemma NothingGathered(env: Env, t: Table, clock: Clock, at: Path, s: seq<Assignment>)
    ensures Settings(env, t, clock, at, s[..0]) == Ok([]) && Gathered([]) == map[]
  {
  }

  lemma SettingsPush(env: Env, t: Table, clock: Clock, at: Path, s: seq<Assignment>, i: nat)
    requires i < |s|
    ensures var front, v := Settings(env, t, clock, at, s[..i]), Eval(env, clock, at + [i], s[i].value, OnRow(t, []));
      Settings(env, t, clock, at, s[..i + 1]) ==
        if front.Err? then front else if v.Err? then Err(v.error) else Ok(front.value + [Setting(s[i].column, v.value)])
  {
    hide Eval, OnRow;
    assert s[..i + 1][..i] == s[..i];
  }

  lemma GatheredPush(settings: seq<Setting>, s: Setting)
    ensures Gathered(settings + [s]) == Gathered(settings)[s.column := s.value]
  {
    assert (settings + [s])[..|settings|] == settings;
  }

  /** The values of an UPDATE, in a map from column to value. */
  method EvaluateAssignments(env: Env, t: Table, clock: Clock, at: Path, s: seq<Assignment>) returns (r: Result<map<string, Raw>>)
    ensures var settings := Settings(env, t, clock, at, s);
      r == if settings.Err? then Err(settings.error) else Ok(Gathered(settings.value))
  {
    hide Settings, Gathered, OnRow;
    var updates: map<string, Raw> := map[];
    ghost var settings: seq<Setting> := [];
    NothingGathered(env, t, clock, at, s);
    for i := 0 to |s|
      invariant Settings(env, t, clock, at, s[..i]) == Ok(settings) && updates == Gathered(settings)
    {
      SettingsPush(env, t, clock, at, s, i);
      var v := Eval(env, clock, at + [i], s[i].value, OnRow(t, []));
      if v.Err? {
        SettingsFail(env, t, clock, at, s, i + 1);
        return Err(v.error);
      }
      GatheredPush(settings, Setting(s[i].column, v.value));
      updates := updates[s[i].column := v.value];
      settings := settings + [Setting(s[i].column, v.value)];
    }
    assert s[..|s|] == s;
    return Ok(updates);
  }

  /** What the row loop of an UPDATE can return: each hit row assigned to in some order. */
  ghost predicate MayUpdate(env: Env, t: Table, clock: Clock, at: Path, cond: Expr, updates: map<string, Raw>, rows: seq<Row>, r: Result<seq<Row>>) {
    if rows == [] then r == Ok([]) else
    var n := |rows| - 1;
    exists front :: MayUpdate(env, t, clock, at, cond, updates, rows[..n], front) && MayAddRow(env, t, clock, at + [n], cond, updates, rows[n], front, r)
  }

  ghost predicate MayAddRow(env: Env, t: Table, clock: Clock, at: Path, cond: Expr, updates: map<string, Raw>, row: Row, front: Result<seq<Row>>, r: Result<seq<Row>>) {
    var hit := Test(env, clock, at, cond, OnRow(t, row));
    if front.Err? then r == front
    else if hit.Err? then r == Err(hit.error)
    else
      && r.Ok? && |r.value| == |front.value| + 1 && r.value[..|front.value|] == front.value
      && if hit.value then MayAssign(t.columns, row, updates, r.value[|front.value|]) else r.value[|front.value|] == row
  }

  lemma MayUpdateNext(env: Env, t: Table, clock: Clock, at: Path, cond: Expr, updates: map<string, Raw>, rows: seq<Row>, i: nat,
                      front: Result<seq<Row>>, r: Result<seq<Row>>)
    requires i < |rows| && MayUpdate(env, t, clock, at, cond, updates, rows[..i], front)
    requires MayAddRow(env, t, clock, at + [i], cond, updates, rows[i], front, r)
    ensures MayUpdate(env, t, clock, at, cond, updates, rows[..i + 1], r)
  {
    hide MayAddRow;
    assert rows[..i + 1][..i] == rows[..i];
  }

  lemma {:induction false} MayUpdateFails(env: Env, t: Table, clock: Clock, at: Path, cond: Expr, updates: map<string, Raw>, rows: seq<Row>, i: nat, error: string)
    requires i <= |rows| && MayUpdate(env, t, clock, at, cond, updates, rows[..i], Err(error))
    ensures MayUpdate(env, t, clock, at, cond, updates, rows, Err(error))
    decreases |rows| - i
  {
    hide MayUpdate;
    if i < |rows| {
      MayUpdateNext(env, t, clock, at, cond, updates, rows, i, Err(error), Err(error));
      MayUpdateFails(env, t, clock, at, cond, updates, rows, i + 1, error);
    } else {
      assert rows[..i] == rows;
    }
  }

  lemma MayUpdateNone(env: Env, t: Table, clock: Clock, at: Path, cond: Expr, updates: map<string, Raw>, rows: seq<Row>)
    ensures MayUpdate(env, t, clock, at, cond, updates, rows[..0], Ok([]))
  {
  }

  /** The row loop of an UPDATE. */
  method UpdateRows(env: Env, t: Table, clock: Clock, at: Path, cond: Expr, updates: map<string, Raw>, rows: seq<Row>)
    returns (r: Result<seq<Row>>)
    ensures MayUpdate(env, t, clock, at, cond, updates, rows, r)
  {
    hide Test, OnRow, MayUpdate, MayAssign;
    var result := rows;
    MayUpdateNone(env, t, clock, at, cond, updates, rows);
    for i := 0 to |rows|
      invariant |result| == |rows| && forall j :: i <= j < |rows| ==> result[j] == rows[j]
      invariant MayUpdate(env, t, clock, at, cond, updates, rows[..i], Ok(result[..i]))
    {
      var hit := Test(env, clock, at + [i], cond, OnRow(t, result[i]));
      if hit.Err? {
        MayUpdateNext(env, t, clock, at, cond, updates, rows, i, Ok(result[..i]), Err(hit.error));
        MayUpdateFails(env, t, clock, at, cond, updates, rows, i + 1, hit.error);
        return Err(hit.error);
      }
      ghost var before := result;
      if hit.value {
        var row := ApplyUpdatesToRow(t.columns, result[i], updates);
        result := result[i := row];
      }
      assert result[..i + 1][..i] == before[..i] && result[..i + 1][i] == result[i];
      MayUpdateNext(env, t, clock, at, cond, updates, rows, i, Ok(before[..i]), Ok(result[..i + 1]));
    }
    assert rows[..|rows|] == rows && result[..|rows|] == result;
    return Ok(result);
  }

  /** Where different spellings of one column are given one value, there is one result. */
  lemma {:induction false} UpdateDetermined(env: Env, t: Table, clock: Clock, at: Path, cond: Expr, settings: seq<Setting>, rows: seq<Row>, r: Result<seq<Row>>)
    requires MayUpdate(env, t, clock, at, cond, Gathered(settings), rows, r)
    requires forall i :: 0 <= i < |rows| && Test(env, clock, at + [i], cond, OnRow(t, rows[i])) == Ok(true) ==> Agreed(t.columns, |rows[i]|, Gathered(settings))
    ensures r == UpdatedRows(env, t, clock, at, cond, settings, rows)
  {
    hide Test, OnRow, MayAssign, AssignedAll, Agreed, Gathered;
    if rows != [] {
      var n := |rows| - 1;
      var front :| MayUpdate(env, t, clock, at, cond, Gathered(settings), rows[..n], front)
        && MayAddRow(env, t, clock, at + [n], cond, Gathered(settings), rows[n], front, r);
      UpdateDetermined(env, t, clock, at, cond, settings, rows[..n], front);
      if front.Ok? && r.Ok? {
        OrderIrrelevantIff(t.columns, rows[n], settings);
        assert r.value == front.value + [r.value[|front.value|]];
      }
    }
  }

  /** A result of the row loop with a given outcome for one of the rows. */
  lemma {:induction false} SomeUpdate(env: Env, t: Table, c: Clock, at: Path, cond: Expr, settings: seq<Setting>, updates: map<string, Raw>,
                                      rows: seq<Row>, i: nat, row: Row) returns (r: seq<Row>)
    requires UpdatedRows(env, t, c, at, cond, settings, rows).Ok?
    requires i < |rows| ==> Test(env, c, at + [i], cond, OnRow(t, rows[i])) == Ok(true) && MayAssign(t.columns, rows[i], updates, row)
    ensures |r| == |rows| && MayUpdate(env, t, c, at, cond, updates, rows, Ok(r)) && (i < |rows| ==> r[i] == row)
    decreases |rows|
  {
    hide Test, OnRow, MayAssign, AssignedAll;
    r := [];
    if rows != [] {
      var n := |rows| - 1;
      var front := SomeUpdate(env, t, c, at, cond, settings, updates, rows[..n], i, row);
      var last := rows[n];
      if i == n {
        last := row;
      } else if Test(env, c, at + [n], cond, OnRow(t, rows[n])).value {
        last := SomeAssign(t.columns, rows[n], updates);
      }
      r := front + [last];
      assert r[..n] == front;
      assert MayAddRow(env, t, c, at + [n], cond, updates, rows[n], Ok(front), Ok(r));
    }
  }

  lemma {:induction false} KeptRowsFail(env: Env, t: Table, clock: Clock, at: Path, cond: Expr, rows: seq<Row>, i: nat)
    requires i <= |rows| && KeptRows(env, t, clock, at, cond, rows[..i]).Err?
    ensures KeptRows(env, t, clock, at, cond, rows) == KeptRows(env, t, clock, at, cond, rows[..i])
    decreases |rows| - i
  {
    if i < |rows| {
      assert rows[..i + 1][..i] == rows[..i];
      KeptRowsFail(env, t, clock, at, cond, rows, i + 1);
    } else {
      assert rows[..i] == rows;
    }
  }

  /** The row loop of a DELETE. */
  method DeleteRows(env: Env, t: Table, clock: Clock, at: Path, cond: Expr, rows: seq<Row>) returns (r: Result<seq<Row>>)
    ensures r == KeptRows(env, t, clock, at, cond, rows)
  {
    var kept := [];
    for i := 0 to |rows|
      invariant KeptRows(env, t, clock, at, cond, rows[..i]) == Ok(kept)
    {
      assert rows[..i + 1][..i] == rows[..i];
      var hit := Test(env, clock, at + [i], cond, OnRow(t, rows[i]));
      if hit.Err? {
        KeptRowsFail(env, t, clock, at, cond, rows, i + 1);
        return Err(hit.error);
      }
      if !hit.value {
        kept := kept + [rows[i]];
      }
    }
    assert rows[..|rows|] == rows;
    return Ok(kept);
  }

  /** The assignments of the operation are to different columns. */
  predicate DeterminateOp(op: PendingOp) {
    op.payload.Update? ==>
      var s := op.payload.assignments;
      forall i, j :: 0 <= i < j < |s| ==> !SameFold(s[i].column, s[j].column)
  }

  /** What one operation can make of the rows. */
  ghost predicate MayApply(env: Env, t: Table, clock: Clock, at: Path, op: PendingOp, rows: seq<Row>, r: Result<seq<Row>>) {
    if op.kind == "update" && op.payload.Update? && Settings(env, t, clock, at + [0], op.payload.assignments).Ok? then
      MayUpdate(env, t, clock, at + [1], op.payload.cond, Gathered(Settings(env, t, clock, at + [0], op.payload.assignments).value), rows, r)
    else r == ApplyOp(env, t, clock, at, op, rows)
  }

  method ApplyOne(env: Env, t: Table, clock: Clock, at: Path, op: PendingOp, rows: seq<Row>) returns (r: Result<seq<Row>>)
    ensures MayApply(env, t, clock, at, op, rows, r)
  {
    if op.kind == "insert" {
      if !op.payload.Insert? {
        return Err("tx overlay: invalid insert payload");
      }
      var added := Inserted(env, t, clock, at, op.payload);
      r := if added.Err? then added else Ok(rows + added.value);
    } else if op.kind == "update" {
      if !op.payload.Update? {
        return Err("tx overlay: invalid update payload");
      }
      var updates := EvaluateAssignments(env, t, clock, at + [0], op.payload.assignments);
      if updates.Err? {
        return Err(updates.error);
      }
      r := UpdateRows(env, t, clock, at + [1], op.payload.cond, updates.value, rows);
    } else if op.kind == "delete" {
      if !op.payload.Delete? {
        return Err("tx overlay: invalid delete payload");
      }
      r := DeleteRows(env, t, clock, at, op.payload.cond, rows);
    } else if op.kind == "truncate" {
      r := Ok([]);
    } else {
      r := Ok(rows);
    }
  }

  lemma ApplyDetermined(env: Env, t: Table, clock: Clock, at: Path, op: PendingOp, rows: seq<Row>, r: Result<seq<Row>>)
    requires DeterminateOp(op) && MayApply(env, t, clock, at, op, rows, r)
    ensures r == ApplyOp(env, t, clock, at, op, rows)
  {
    hide MayUpdate, UpdatedRows, Gathered, Inserted, KeptRows;
    if op.kind == "update" && op.payload.Update? && Settings(env, t, clock, at + [0], op.payload.assignments).Ok? {
      assert op.kind != "insert";
      var settings := Settings(env, t, clock, at + [0], op.payload.assignments).value;
      SettingsColumns(env, t, clock, at + [0], op.payload.assignments);
      forall width: nat ensures Agreed(t.columns, width, Gathered(settings)) {
        DeterminateAgreed(t.columns, width, settings);
      }
      UpdateDetermined(env, t, clock, at + [1], op.payload.cond, settings, rows, r);
    }
  }

  predicate Concerns(op: PendingOp, db: string, name: string) {
    op.db == db && op.table == name
  }

  /** What replaying can return. */
  ghost predicate MayReplay(env: Env, t: Table, clock: Clock, db: string, name: string, ops: seq<PendingOp>, base: seq<Row>, r: Result<seq<Row>>) {
    if ops == [] then r == Ok(base) else
    var n := |ops| - 1;
    exists before :: MayReplay(env, t, clock, db, name, ops[..n], base, before) && MayStep(env, t, clock, db, name, [n], ops[n], before, r)
  }

  ghost predicate MayStep(env: Env, t: Table, clock: Clock, db: string, name: string, at: Path, op: PendingOp, before: Result<seq<Row>>, r: Result<seq<Row>>) {
    if before.Err? || !Concerns(op, db, name) then r == before else MayApply(env, t, clock, at, op, before.value, r)
  }

  lemma MayReplayNext(env: Env, t: Table, clock: Clock, db: string, name: string, ops: seq<PendingOp>, base: seq<Row>, i: nat,
                      before: Result<seq<Row>>, r: Result<seq<Row>>)
    requires i < |ops| && MayReplay(env, t, clock, db, name, ops[..i], base, before)
    requires MayStep(env, t, clock, db, name, [i], ops[i], before, r)
    ensures MayReplay(env, t, clock, db, name, ops[..i + 1], base, r)
  {
    hide MayStep;
    assert ops[..i + 1][..i] == ops[..i];
  }

  lemma {:induction false} MayReplayFails(env: Env, t: Table, clock: Clock, db: string, name: string, ops: seq<PendingOp>, base: seq<Row>, i: nat, error: string)
    requires i <= |ops| && MayReplay(env, t, clock, db, name, ops[..i], base, Err(error))
    ensures MayReplay(env, t, clock, db, name, ops, base, Err(error))
    decreases |ops| - i
  {
    hide MayReplay;
    if i < |ops| {
      MayReplayNext(env, t, clock, db, name, ops, base, i, Err(error), Err(error));
      MayReplayFails(env, t, clock, db, name, ops, base, i + 1, error);
    } else {
      assert ops[..i] == ops;
    }
  }

  lemma MayReplayNone(env: Env, t: Table, clock: Clock, db: string, name: string, ops: seq<PendingOp>, base: seq<Row>)
    ensures MayReplay(env, t, clock, db, name, ops[..0], base, Ok(base))
  {
  }

  lemma {:induction false} Unconcerned(env: Env, t: Table, clock: Clock, db: string, name: string, ops: seq<PendingOp>, base: seq<Row>, i: nat)
    requires i <= |ops| && forall op :: op in ops ==> !Concerns(op, db, name)
    ensures MayReplay(env, t, clock, db, name, ops[..i], base, Ok(base))
  {
    hide MayReplay, Concerns;
    MayReplayNone(env, t, clock, db, name, ops, base);
    if i > 0 {
      Unconcerned(env, t, clock, db, name, ops, base, i - 1);
      assert ops[i - 1] in ops;
      MayReplayNext(env, t, clock, db, name, ops, base, i - 1, Ok(base), Ok(base));
    }
  }

  /** When no UPDATE assigns twice to one column, there is one result. */
  lemma {:induction false} ReplayDetermined(env: Env, t: Table, clock: Clock, db: string, name: string, ops: seq<PendingOp>, base: seq<Row>, r: Result<seq<Row>>)
    requires MayReplay(env, t, clock, db, name, ops, base, r) && forall op :: op in ops ==> DeterminateOp(op)
    ensures r == Replay(env, t, clock, db, name, ops, base)
  {
    hide MayApply, ApplyOp, DeterminateOp;
    if ops != [] {
      var n := |ops| - 1;
      var before :| MayReplay(env, t, clock, db, name, ops[..n], base, before) && MayStep(env, t, clock, db, name, [n], ops[n], before, r);
      ReplayDetermined(env, t, clock, db, name, ops[..n], base, before);
      assert ops[n] in ops;
      if before.Ok? && Concerns(ops[n], db, name) {
        ApplyDetermined(env, t, clock, [n], ops[n], before.value, r);
      }
    }
  }

  /** `applyTxOverlay` inside a transaction.  The schema is fetched only if some operation is on
      the table. */
  method ApplyTxOverlay(env: Env, schema: Result<Table>, clock: Clock, db: string, name: string, ops: seq<PendingOp>, base: seq<Row>)
    returns (r: Result<seq<Row>>)
    ensures (forall op :: op in ops ==> !Concerns(op, db, name)) ==> r == Ok(base)
    ensures schema.Ok? ==> MayReplay(env, schema.value, clock, db, name, ops, base, r)
    ensures schema.Err? && (exists op :: op in ops && Concerns(op, db, name)) ==> r == Err(schema.error)
  {
    hide MayReplay, MayApply, Concerns;
    assert ops[..|ops|] == ops;
    var relevant := exists op :: op in ops && Concerns(op, db, name);
    if !relevant {
      if schema.Ok? {
        Unconcerned(env, schema.value, clock, db, name, ops, base, |ops|);
      }
      return Ok(base);
    }
    if schema.Err? {
      return Err(schema.error);
    }
    var t, result := schema.value, base;
    MayReplayNone(env, t, clock, db, name, ops, base);
    for i := 0 to |ops|
      invariant MayReplay(env, t, clock, db, name, ops[..i], base, Ok(result))
    {
      if Concerns(ops[i], db, name) {
        var next := ApplyOne(env, t, clock, [i], ops[i], result);
        MayReplayNext(env, t, clock, db, name, ops, base, i, Ok(result), next);
        if next.Err? {
          MayReplayFails(env, t, clock, db, name, ops, base, i + 1, next.error);
          return next;
        }
        result := next.value;
      } else {
        MayReplayNext(env, t, clock, db, name, ops, base, i, Ok(result), Ok(result));
      }
    }
    return Ok(result);
  }
}
