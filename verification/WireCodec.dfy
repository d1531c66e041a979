/** The tagged form in which buffered operations are written out, and back.  A wire record stands
    for its JSON text. */
module WireCodec {
  import opened Ast
  import opened Results

  /** `wireExpr`; `Absent` is the null pointer. */
  datatype Wire = Absent | Node(
    kind: string, tag: string, int_: int, float_: real, text: string, bool_: bool, name: string, op: Op,
    left: Wire, right: Wire, args: seq<Wire>, list: seq<Wire>, negated: bool, index: int)

  function Blank(kind: string): (w: Wire)
    ensures w.Node?
  {
    Node(kind, "", 0, 0.0, "", false, "", Infix(""), Absent, Absent, [], [], false, 0)
  }

  /** `encodeExpr`. */
  function Encode(e: Expr): Result<Wire>
    decreases e, 0
  {
    match e
    case Nil => Ok(Absent)
    case Val(v) => Ok(Blank("val").(tag := v.tag, int_ := v.int_, float_ := v.float_, text := v.text, bool_ := v.bool_))
    case Col(_, name) => Ok(Blank("col").(name := name))
    case Binary(l, op, r) => Paired(Blank("bin").(op := op), Encode(l), Encode(r))
    case And(l, r) => Paired(Blank("and"), Encode(l), Encode(r))
    case Or(l, r) => Paired(Blank("or"), Encode(l), Encode(r))
    case Not(x) => Paired(Blank("not"), Encode(x), Ok(Absent))
    case Call(name, args) =>
      var ws := EncodeAll(args);
      if ws.Err? then Err(ws.error) else Ok(Blank("fn").(name := name, args := ws.value))
    case In(l, list, negated) =>
      var a, ws := Encode(l), EncodeAll(list);
      if a.Err? then a else if ws.Err? then Err(ws.error)
      else Ok(Blank("in").(left := a.value, list := ws.value, negated := negated))
    case Param(index) => Ok(Blank("param").(index := index))
    case _ => Err("spill: unsupported expression type")
  }

  function Paired(w: Wire, l: Result<Wire>, r: Result<Wire>): Result<Wire>
    requires w.Node?
  {
    if l.Err? then l else if r.Err? then r else Ok(w.(left := l.value, right := r.value))
  }

  function EncodeAll(es: seq<Expr>): Result<seq<Wire>>
    decreases es, 0
  {
    if es == [] then Ok([]) else
    var front := EncodeAll(es[..|es| - 1]);
    if front.Err? then front else
    var last := Encode(es[|es| - 1]);
    if last.Err? then Err(last.error) else Ok(front.value + [last.value])
  }

  /** `decodeExpr`. */
  function Decode(w: Wire): Result<Expr>
    decreases w, 0
  {
    if w.Absent? then Ok(Nil)
    else if w.kind == "val" then Ok(Val(Value(w.tag, w.int_, w.float_, w.text, w.bool_)))
    else if w.kind == "col" then Ok(Col("", w.name))
    else if w.kind == "bin" then
      var l, r := Decode(w.left), Decode(w.right);
      if l.Err? then l else if r.Err? then r else Ok(Binary(l.value, w.op, r.value))
    else if w.kind == "and" then
      var l, r := Decode(w.left), Decode(w.right);
      if l.Err? then l else if r.Err? then r else Ok(And(l.value, r.value))
    else if w.kind == "or" then
      var l, r := Decode(w.left), Decode(w.right);
      if l.Err? then l else if r.Err? then r else Ok(Or(l.value, r.value))
    else if w.kind == "not" then
      var l := Decode(w.left);
      if l.Err? then l else Ok(Not(l.value))
    else if w.kind == "fn" then
      var es := DecodeAll(w.args);
      if es.Err? then Err(es.error) else Ok(Call(w.name, es.value))
    else if w.kind == "in" then
      var l, es := Decode(w.left), DecodeAll(w.list);
      if l.Err? then l else if es.Err? then Err(es.error) else Ok(In(l.value, es.value, w.negated))
    else if w.kind == "param" then Ok(Param(w.index))
    else Err("spill: unknown expr kind")
  }

  function DecodeAll(ws: seq<Wire>): Result<seq<Expr>>
    decreases ws, 0
  {
    if ws == [] then Ok([]) else
    var front := DecodeAll(ws[..|ws| - 1]);
    if front.Err? then front else
    var last := Decode(ws[|ws| - 1]);
    if last.Err? then Err(last.error) else Ok(front.value + [last.value])
  }

  // ----- the expression round trip

  /** The forms that have a wire form. */
  predicate Supported(e: Expr)
    decreases e, 0
  {
    match e
    case Binary(l, _, r) => Supported(l) && Supported(r)
    case And(l, r) => Supported(l) && Supported(r)
    case Or(l, r) => Supported(l) && Supported(r)
    case Not(x) => Supported(x)
    case Call(_, args) => AllSupported(args)
    case In(l, list, _) => Supported(l) && AllSupported(list)
    case Between(_, _, _, _) => false
    case Cast(_, _) => false
    case Opaque(_, _) => false
    case _ => true
  }

  predicate AllSupported(es: seq<Expr>)
    decreases es, 0
  {
    es == [] || (AllSupported(es[..|es| - 1]) && Supported(es[|es| - 1]))
  }

  /** The expression with every column qualifier taken off. */
  function Bare(e: Expr): Expr
    decreases e, 0
  {
    match e
    case Col(_, name) => Col("", name)
    case Binary(l, op, r) => Binary(Bare(l), op, Bare(r))
    case And(l, r) => And(Bare(l), Bare(r))
    case Or(l, r) => Or(Bare(l), Bare(r))
    case Not(x) => Not(Bare(x))
    case In(l, list, negated) => In(Bare(l), BareAll(list), negated)
    case Call(name, args) => Call(name, BareAll(args))
    case _ => e
  }

  function BareAll(es: seq<Expr>): (r: seq<Expr>)
    ensures |r| == |es|
    decreases es, 0
  {
    if es == [] then [] else BareAll(es[..|es| - 1]) + [Bare(es[|es| - 1])]
  }

  lemma DecodeAllPush(ws: seq<Wire>, w: Wire)
    ensures DecodeAll(ws + [w]) ==
      if DecodeAll(ws).Err? then DecodeAll(ws)
      else if Decode(w).Err? then Err(Decode(w).error)
      else Ok(DecodeAll(ws).value + [Decode(w).value])
  {
    assert (ws + [w])[..|ws|] == ws;
  }

  /** Encoding succeeds on exactly the supported forms, and decoding gives the expression back
      without its qualifiers. */
  lemma {:induction false} RoundTrip(e: Expr)
    ensures Encode(e).Ok? <==> Supported(e)
    ensures Supported(e) ==> Decode(Encode(e).value) == Ok(Bare(e))
    decreases e, 0
  {
    hide EncodeAll, DecodeAll, BareAll, AllSupported;
    match e
    case Binary(l, _, r) => RoundTrip(l); RoundTrip(r);
    case And(l, r) => RoundTrip(l); RoundTrip(r);
    case Or(l, r) => RoundTrip(l); RoundTrip(r);
    case Not(x) => RoundTrip(x);
    case Call(_, args) => RoundTripAll(args);
    case In(l, list, _) => RoundTrip(l); RoundTripAll(list);
    case _ =>
  }

  lemma {:induction false} RoundTripAll(es: seq<Expr>)
    ensures EncodeAll(es).Ok? <==> AllSupported(es)
    ensures AllSupported(es) ==> DecodeAll(EncodeAll(es).value) == Ok(BareAll(es))
    decreases es, 0
  {
    if es != [] {
      var n := |es| - 1;
      RoundTripAll(es[..n]);
      RoundTrip(es[n]);
      if AllSupported(es) {
        DecodeAllPush(EncodeAll(es[..n]).value, Encode(es[n]).value);
      }
    }
  }

  /** No column carries a qualifier. */
  predicate Unqualified(e: Expr)
    decreases e, 0
  {
    match e
    case Col(table, _) => table == ""
    case Binary(l, _, r) => Unqualified(l) && Unqualified(r)
    case And(l, r) => Unqualified(l) && Unqualified(r)
    case Or(l, r) => Unqualified(l) && Unqualified(r)
    case Not(x) => Unqualified(x)
    case In(l, list, _) => Unqualified(l) && AllUnqualified(list)
    case Call(_, args) => AllUnqualified(args)
    case _ => true
  }

  predicate AllUnqualified(es: seq<Expr>)
    decreases es, 0
  {
    es == [] || (AllUnqualified(es[..|es| - 1]) && Unqualified(es[|es| - 1]))
  }

  lemma {:induction false} BareIff(e: Expr)
    ensures Bare(e) == e <==> Unqualified(e)
    ensures Unqualified(Bare(e)) && Encode(Bare(e)) == Encode(e)
    decreases e, 0
  {
    match e
    case Binary(l, _, r) => BareIff(l); BareIff(r);
    case And(l, r) => BareIff(l); BareIff(r);
    case Or(l, r) => BareIff(l); BareIff(r);
    case Not(x) => BareIff(x);
    case Call(_, args) => BareAllIff(args);
    case In(l, list, _) => BareIff(l); BareAllIff(list);
    case _ =>
  }

  lemma {:induction false} BareAllIff(es: seq<Expr>)
    ensures BareAll(es) == es <==> AllUnqualified(es)
    ensures AllUnqualified(BareAll(es)) && EncodeAll(BareAll(es)) == EncodeAll(es)
    decreases es, 0
  {
    if es != [] {
      var n, b := |es| - 1, BareAll(es);
      BareAllIff(es[..n]);
      BareIff(es[n]);
      assert b[..n] == BareAll(es[..n]) && b[n] == Bare(es[n]);
      assert es == es[..n] + [es[n]];
    }
  }

  /** The round trip is the identity exactly on expressions without qualified columns. */
  lemma RoundTripExactIff(e: Expr)
    requires Encode(e).Ok?
    ensures Decode(Encode(e).value) == Ok(e) <==> Unqualified(e)
  {
    RoundTrip(e);
    BareIff(e);
  }

  /** Two expressions share a wire form exactly when they differ in qualifiers only. */
  lemma EncodeAlikeIff(e: Expr, f: Expr)
    requires Supported(e) && Supported(f)
    ensures Encode(e) == Encode(f) <==> Bare(e) == Bare(f)
  {
    RoundTrip(e);
    RoundTrip(f);
    BareIff(e);
    BareIff(f);
  }
}
