/** Evaluation of expressions. */
module Evaluation {
  import opened Ast
  import opened Results
  import opened Text

  /** The value operations evaluation relies on: comparison, the other operators, casts, functions
      by upper-case name, and the forms not looked into. */
  datatype Env = Env(
    compare: (Raw, Raw, string) -> Result<bool>,
    operate: (Op, Raw, Raw) -> Result<Raw>,
    cast: (Raw, string) -> Result<Raw>,
    call: (string, seq<Raw>) -> Result<Raw>,
    other: (nat, Result<string>, Scope) -> Result<Raw>)

  /** Where a node stands in its expression: the child numbers from the root. */
  type Path = seq<nat>

  /** What a volatile call at each place returns this time, or what a subquery there finds in the
      database; every place has its own reading. */
  type Clock = Path -> Result<string>

  const VOLATILE: set<string> := {"NOW", "CURRENT_TIMESTAMP", "CURRENT_DATE", "CURRENT_TIME", "UUID"}

  const COMPARISONS: set<string> := {"=", "!=", "<", ">", "<=", ">="}

  function AsBool(r: Result<bool>): Result<Raw> {
    match r
    case Ok(b) => Ok(Bool(b))
    case Err(m) => Err(m)
  }

  /** The operator switch of `evalBinary`. */
  function Apply(env: Env, op: Op, a: Raw, b: Raw): Result<Raw> {
    match op
    case Infix(symbol) => if symbol in COMPARISONS then AsBool(env.compare(a, b, symbol)) else env.operate(op, a, b)
    case IsOp => Ok(Bool(a.Null?))
    case IsNotOp => Ok(Bool(!a.Null?))
    case _ => env.operate(op, a, b)
  }

  /** `evalOperand`. */
  function Eval(env: Env, clock: Clock, at: Path, e: Expr, scope: Scope): Result<Raw>
    decreases e, 0
  {
    match e
    case Nil => Ok(Null)
    case Val(v) => Ok(ToRaw(v))
    case Col(table, name) => scope(table, name)
    case Binary(l, op, r) =>
      var a := Eval(env, clock, at + [0], l, scope);
      var b := Eval(env, clock, at + [1], r, scope);
      if a.Err? then a else if b.Err? then b else Apply(env, op, a.value, b.value)
    case And(l, r) =>
      var a := Test(env, clock, at + [0], l, scope);
      var b := Test(env, clock, at + [1], r, scope);
      if a.Err? then AsBool(a) else if b.Err? then AsBool(b) else Ok(Bool(a.value && b.value))
    case Or(l, r) =>
      var a := Test(env, clock, at + [0], l, scope);
      var b := Test(env, clock, at + [1], r, scope);
      if a.Err? then AsBool(a) else if b.Err? then AsBool(b) else Ok(Bool(a.value || b.value))
    case Not(x) =>
      var a := Test(env, clock, at + [0], x, scope);
      if a.Err? then AsBool(a) else Ok(Bool(!a.value))
    case In(l, list, negated) =>
      var a := Eval(env, clock, at + [0], l, scope);
      if a.Err? then a else
      var found := Find(env, clock, at, a.value, list, scope);
      if found.Err? then AsBool(found) else Ok(Bool(found.value != negated))
    case Between(x, lower, upper, negated) =>
      var a := Eval(env, clock, at + [0], x, scope);
      var lo := Eval(env, clock, at + [1], lower, scope);
      var hi := Eval(env, clock, at + [2], upper, scope);
      if a.Err? then a else if lo.Err? then lo else if hi.Err? then hi
      else WithinBounds(env, a.value, lo.value, hi.value, negated)
    case Cast(x, target) =>
      var a := Eval(env, clock, at + [0], x, scope);
      if a.Err? || a.value.Null? then a else env.cast(a.value, target)
    case Call(name, args) =>
      var vals := EvalAll(env, clock, at, args, scope);
      if vals.Err? then Err(vals.error)
      else if Upper(name) in VOLATILE then Reading(clock(at))
      else env.call(Upper(name), vals.value)
    case Param(_) => Err("unsupported expression type")
    case Opaque(id, volatile) => env.other(id, if volatile then clock(at) else Ok(""), scope)
  }

  function Reading(r: Result<string>): Result<Raw> {
    match r
    case Ok(s) => Ok(Text(s))
    case Err(m) => Err(m)
  }

  function WithinBounds(env: Env, a: Raw, lo: Raw, hi: Raw, negated: bool): Result<Raw> {
    var above, below := env.compare(a, lo, ">="), env.compare(a, hi, "<=");
    if above.Err? then AsBool(above) else if below.Err? then AsBool(below)
    else Ok(Bool((above.value && below.value) != negated))
  }

  /** `evalExpr`: the absent condition holds, and a condition must be boolean. */
  function Test(env: Env, clock: Clock, at: Path, e: Expr, scope: Scope): Result<bool>
    decreases e, 1
  {
    if e.Nil? then Ok(true) else
    var a := Eval(env, clock, at, e, scope);
    if a.Err? then Err(a.error) else if a.value.Bool? then Ok(a.value.b) else Err("expression must return boolean")
  }

  /** The arguments of a call, up to the first error. */
  function EvalAll(env: Env, clock: Clock, at: Path, es: seq<Expr>, scope: Scope): Result<seq<Raw>>
    decreases es, 0
  {
    if es == [] then Ok([]) else
    var front := EvalAll(env, clock, at, es[..|es| - 1], scope);
    if front.Err? then front else
    var last := Eval(env, clock, at + [|es| - 1], es[|es| - 1], scope);
    if last.Err? then Err(last.error) else Ok(front.value + [last.value])
  }

  /** Whether the list holds a value equal to `a`: the search stops at the first hit or error. */
  function Find(env: Env, clock: Clock, at: Path, a: Raw, list: seq<Expr>, scope: Scope): Result<bool>
    decreases list, 0
  {
    if list == [] then Ok(false) else
    var front := Find(env, clock, at, a, list[..|list| - 1], scope);
    if front.Err? || front.value then front else
    var b := Eval(env, clock, at + [|list|], list[|list| - 1], scope);
    if b.Err? then Err(b.error) else env.compare(a, b.value, "=")
  }

  function Pushed(front: Result<seq<Raw>>, last: Result<Raw>): Result<seq<Raw>> {
    if front.Err? then front else if last.Err? then Err(last.error) else Ok(front.value + [last.value])
  }

  lemma EvalAllNone(env: Env, clock: Clock, at: Path, scope: Scope)
    ensures EvalAll(env, clock, at, [], scope) == Ok([])
  {
  }

  lemma EvalAllPush(env: Env, clock: Clock, at: Path, es: seq<Expr>, e: Expr, scope: Scope)
    ensures EvalAll(env, clock, at, es + [e], scope) ==
      Pushed(EvalAll(env, clock, at, es, scope), Eval(env, clock, at + [|es|], e, scope))
  {
    assert (es + [e])[..|es|] == es;
  }

  lemma FindPush(env: Env, clock: Clock, at: Path, a: Raw, list: seq<Expr>, e: Expr, scope: Scope)
    ensures var front, b := Find(env, clock, at, a, list, scope), Eval(env, clock, at + [|list| + 1], e, scope);
      Find(env, clock, at, a, list + [e], scope) ==
        if front.Err? || front.value then front else if b.Err? then Err(b.error) else env.compare(a, b.value, "=")
  {
    assert (list + [e])[..|list|] == list;
  }
}
