/** The operations a transaction buffers, and their wire form. */
module PendingOps {
  import opened Ast
  import opened Results
  import opened WireCodec

  datatype Assignment = Assignment(column: string, value: Expr)

  /** The parts that have no wire form are modelled by their presence. */
  datatype Payload =
    | Insert(table: string, columns: seq<string>, rows: seq<seq<Expr>>, select: bool, onConflict: bool, returning: bool, orReplace: bool)
    | Update(table: string, assignments: seq<Assignment>, cond: Expr, returning: bool, fromTable: string, fromAlias: string, fromQuery: bool)
    | Delete(table: string, cond: Expr, returning: bool)
    | Truncate(table: string)
    | Unknown

  /** `undo` stands for what an operation carries besides: old rows, positions, row keys. */
  datatype PendingOp = PendingOp(kind: string, db: string, table: string, payload: Payload, pos: int, undo: Option<nat>)

  datatype WireAssignment = WireAssignment(column: string, value: Wire)

  datatype Body =
    | WireInsert(table: string, columns: seq<string>, rows: seq<seq<Wire>>)
    | WireUpdate(table: string, assignments: seq<WireAssignment>, cond: Wire)
    | WireDelete(table: string, cond: Wire)
    | WireTruncate(table: string)
    | Missing

  /** `wireOp`, of whose four bodies the encoder fills the one that goes with the kind. */
  datatype WireOp = WireOp(kind: string, db: string, table: string, pos: int, body: Body)

  function EncodeRows(rows: seq<seq<Expr>>): Result<seq<seq<Wire>>> {
    if rows == [] then Ok([]) else
    var front, last := EncodeRows(rows[..|rows| - 1]), EncodeAll(rows[|rows| - 1]);
    if front.Err? then front else if last.Err? then Err(last.error) else Ok(front.value + [last.value])
  }

  function DecodeRows(rows: seq<seq<Wire>>): Result<seq<seq<Expr>>> {
    if rows == [] then Ok([]) else
    var front, last := DecodeRows(rows[..|rows| - 1]), DecodeAll(rows[|rows| - 1]);
    if front.Err? then front else if last.Err? then Err(last.error) else Ok(front.value + [last.value])
  }

  function EncodeAssignments(s: seq<Assignment>): Result<seq<WireAssignment>> {
    if s == [] then Ok([]) else
    var front, a := EncodeAssignments(s[..|s| - 1]), s[|s| - 1];
    var last := Encode(a.value);
    if front.Err? then front else if last.Err? then Err(last.error) else Ok(front.value + [WireAssignment(a.column, last.value)])
  }

  function DecodeAssignments(s: seq<WireAssignment>): Result<seq<Assignment>> {
    if s == [] then Ok([]) else
    var front, a := DecodeAssignments(s[..|s| - 1]), s[|s| - 1];
    var last := Decode(a.value);
    if front.Err? then front else if last.Err? then Err(last.error) else Ok(front.value + [Assignment(a.column, last.value)])
  }

  function EncodeBody(kind: string, p: Payload): Result<Body> {
    if kind == "insert" then
      if !p.Insert? then Err("spill: invalid insert payload")
      else if p.select || p.onConflict || p.returning then Err("spill: INSERT form is not supported")
      else
        var rows := EncodeRows(p.rows);
        if rows.Err? then Err(rows.error) else Ok(WireInsert(p.table, p.columns, rows.value))
    else if kind == "update" then
      if !p.Update? then Err("spill: invalid update payload")
      else if p.fromTable != "" || p.fromQuery || p.returning then Err("spill: UPDATE form is not supported")
      else
        var assignments, cond := EncodeAssignments(p.assignments), Encode(p.cond);
        if assignments.Err? then Err(assignments.error) else if cond.Err? then Err(cond.error)
        else Ok(WireUpdate(p.table, assignments.value, cond.value))
    else if kind == "delete" then
      if !p.Delete? then Err("spill: invalid delete payload")
      else if p.returning then Err("spill: DELETE form is not supported")
      else
        var cond := Encode(p.cond);
        if cond.Err? then Err(cond.error) else Ok(WireDelete(p.table, cond.value))
    else if kind == "truncate" then
      if !p.Truncate? then Err("spill: invalid truncate payload") else Ok(WireTruncate(p.table))
    else Err("spill: unknown op type")
  }

  /** `encodePendingOp`. */
  function EncodeOp(op: PendingOp): Result<WireOp> {
    var body := EncodeBody(op.kind, op.payload);
    if body.Err? then Err(body.error) else Ok(WireOp(op.kind, op.db, op.table, op.pos, body.value))
  }

  function DecodeBody(kind: string, b: Body): Result<Payload> {
    if kind == "insert" then
      if !b.WireInsert? then Err("spill: missing insert body") else
      var rows := DecodeRows(b.rows);
      if rows.Err? then Err(rows.error) else Ok(Insert(b.table, b.columns, rows.value, false, false, false, false))
    else if kind == "update" then
      if !b.WireUpdate? then Err("spill: missing update body") else
      var assignments, cond := DecodeAssignments(b.assignments), Decode(b.cond);
      if assignments.Err? then Err(assignments.error) else if cond.Err? then Err(cond.error)
      else Ok(Update(b.table, assignments.value, cond.value, false, "", "", false))
    else if kind == "delete" then
      if !b.WireDelete? then Err("spill: missing delete body") else
      var cond := Decode(b.cond);
      if cond.Err? then Err(cond.error) else Ok(Delete(b.table, cond.value, false))
    else if kind == "truncate" then
      if !b.WireTruncate? then Err("spill: missing truncate body") else Ok(Truncate(b.table))
    else Err("spill: unknown op type")
  }

  /** `decodePendingOp`. */
  function DecodeOp(w: WireOp): Result<PendingOp> {
    var payload := DecodeBody(w.kind, w.body);
    if payload.Err? then Err(payload.error) else Ok(PendingOp(w.kind, w.db, w.table, payload.value, w.pos, None))
  }

  // ----- the round trip

  function BareRows(rows: seq<seq<Expr>>): seq<seq<Expr>> {
    if rows == [] then [] else BareRows(rows[..|rows| - 1]) + [BareAll(rows[|rows| - 1])]
  }

  function BareAssignments(s: seq<Assignment>): seq<Assignment> {
    if s == [] then [] else
    BareAssignments(s[..|s| - 1]) + [Assignment(s[|s| - 1].column, Bare(s[|s| - 1].value))]
  }

  function BarePayload(p: Payload): Payload {
    match p
    case Insert(table, columns, rows, select, onConflict, returning, _) =>
      Insert(table, columns, BareRows(rows), select, onConflict, returning, false)
    case Update(table, assignments, cond, returning, fromTable, _, fromQuery) =>
      Update(table, BareAssignments(assignments), Bare(cond), returning, fromTable, "", fromQuery)
    case Delete(table, cond, returning) => Delete(table, Bare(cond), returning)
    case _ => p
  }

  /** What is left of an operation on the wire: no qualifiers, no OR REPLACE, no undo data. */
  function Recoded(op: PendingOp): PendingOp {
    op.(payload := BarePayload(op.payload), undo := None)
  }

  predicate RowsSupported(rows: seq<seq<Expr>>) {
    forall i :: 0 <= i < |rows| ==> AllSupported(rows[i])
  }

  predicate AssignmentsSupported(s: seq<Assignment>) {
    forall i :: 0 <= i < |s| ==> Supported(s[i].value)
  }

  /** The operations that can be written out. */
  predicate Writable(op: PendingOp) {
    var p := op.payload;
    || (op.kind == "insert" && p.Insert? && !p.select && !p.onConflict && !p.returning && RowsSupported(p.rows))
    || (op.kind == "update" && p.Update? && p.fromTable == "" && !p.fromQuery && !p.returning
        && AssignmentsSupported(p.assignments) && Supported(p.cond))
    || (op.kind == "delete" && p.Delete? && !p.returning && Supported(p.cond))
    || (op.kind == "truncate" && p.Truncate?)
  }

  lemma {:induction false} RowsRoundTrip(rows: seq<seq<Expr>>)
    ensures EncodeRows(rows).Ok? <==> RowsSupported(rows)
    ensures RowsSupported(rows) ==> DecodeRows(EncodeRows(rows).value) == Ok(BareRows(rows))
  {
    if rows != [] {
      var n := |rows| - 1;
      RowsRoundTrip(rows[..n]);
      RoundTripAll(rows[n]);
      assert RowsSupported(rows) <==> RowsSupported(rows[..n]) && AllSupported(rows[n]);
      if RowsSupported(rows) {
        var ws := EncodeRows(rows).value;
        assert ws[..|ws| - 1] == EncodeRows(rows[..n]).value;
      }
    }
  }

  lemma {:induction false} AssignmentsRoundTrip(s: seq<Assignment>)
    ensures EncodeAssignments(s).Ok? <==> AssignmentsSupported(s)
    ensures AssignmentsSupported(s) ==> DecodeAssignments(EncodeAssignments(s).value) == Ok(BareAssignments(s))
  {
    if s != [] {
      var n := |s| - 1;
      AssignmentsRoundTrip(s[..n]);
      RoundTrip(s[n].value);
      assert AssignmentsSupported(s) <==> AssignmentsSupported(s[..n]) && Supported(s[n].value);
      if AssignmentsSupported(s) {
        var ws := EncodeAssignments(s).value;
        assert ws[..|ws| - 1] == EncodeAssignments(s[..n]).value;
      }
    }
  }

  /** An operation is written exactly when it is writable, and reading it back gives its recoded form. */
  lemma OpRoundTrip(op: PendingOp)
    ensures EncodeOp(op).Ok? <==> Writable(op)
    ensures Writable(op) ==> DecodeOp(EncodeOp(op).value) == Ok(Recoded(op))
  {
    match op.payload
    case Insert(_, _, rows, _, _, _, _) => RowsRoundTrip(rows);
    case Update(_, assignments, cond, _, _, _, _) => AssignmentsRoundTrip(assignments); RoundTrip(cond);
    case Delete(_, cond, _) => RoundTrip(cond);
    case _ =>
  }

  lemma {:induction false} RowsEncodeAlike(rows: seq<seq<Expr>>)
    ensures EncodeRows(BareRows(rows)) == EncodeRows(rows)
  {
    if rows != [] {
      var n, b := |rows| - 1, BareRows(rows);
      RowsEncodeAlike(rows[..n]);
      BareAllIff(rows[n]);
      assert b[..|b| - 1] == BareRows(rows[..n]);
    }
  }

  lemma {:induction false} AssignmentsEncodeAlike(s: seq<Assignment>)
    ensures EncodeAssignments(BareAssignments(s)) == EncodeAssignments(s)
  {
    if s != [] {
      var n, b := |s| - 1, BareAssignments(s);
      AssignmentsEncodeAlike(s[..n]);
      BareIff(s[n].value);
      assert b[..|b| - 1] == BareAssignments(s[..n]);
    }
  }

  lemma CondEncodesAlike(e: Expr)
    ensures Encode(Bare(e)) == Encode(e)
  {
    BareIff(e);
  }

  lemma BodyEncodesAlike(kind: string, p: Payload)
    requires p.Insert? || p.Update? || p.Delete?
    ensures EncodeBody(kind, BarePayload(p)) == EncodeBody(kind, p)
  {
    if p.Insert? {
      RowsEncodeAlike(p.rows);
      assert BarePayload(p).rows == BareRows(p.rows);
    } else if p.Update? {
      AssignmentsEncodeAlike(p.assignments);
      CondEncodesAlike(p.cond);
      assert BarePayload(p).cond == Bare(p.cond);
    } else {
      CondEncodesAlike(p.cond);
      assert BarePayload(p).cond == Bare(p.cond);
    }
  }

  /** Writing out once more changes nothing. */
  lemma RecodedEncodesAlike(op: PendingOp)
    ensures EncodeOp(Recoded(op)) == EncodeOp(op)
  {
    var p := op.payload;
    if p.Insert? || p.Update? || p.Delete? {
      BodyEncodesAlike(op.kind, p);
    }
  }
}
