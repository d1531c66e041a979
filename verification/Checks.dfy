/** CHECK constraints: stored as printed text, parsed again and evaluated for each row. */
module Checks {
  import opened Ast
  import opened Evaluation
  import opened Parsing
  import opened Printing
  import opened Results

  function Symbol(op: Op): string {
    match op
    case Sum => "+"
    case Difference => "-"
    case Times => "*"
    case Divide => "/"
    case LikeOp => "LIKE"
    case ILikeOp => "ILIKE"
    case IsOp => "IS"
    case IsNotOp => "IS NOT"
    case Infix(symbol) => symbol
  }

  function AsTruth(r: Result<Raw>): Result<bool> {
    if r.Err? then Err(r.error) else if r.value.Bool? then Ok(r.value.b) else Err("expression must return boolean")
  }

  /** `evalCheckExprAST`: every infix operator is taken for a comparison, and a list item that
      cannot be compared is passed over. */
  function CheckTest(env: Env, clock: Clock, at: Path, e: Expr, scope: Scope): Result<bool>
    decreases e, 0
  {
    match e
    case Binary(l, op, r) =>
      var a, b := Eval(env, clock, at + [0], l, scope), Eval(env, clock, at + [1], r, scope);
      if a.Err? then Err(a.error) else if b.Err? then Err(b.error) else env.compare(a.value, b.value, Symbol(op))
    case And(l, r) =>
      var a, b := CheckTest(env, clock, at + [0], l, scope), CheckTest(env, clock, at + [1], r, scope);
      if a.Err? then a else if b.Err? then b else Ok(a.value && b.value)
    case Or(l, r) =>
      var a, b := CheckTest(env, clock, at + [0], l, scope), CheckTest(env, clock, at + [1], r, scope);
      if a.Err? then a else if b.Err? then b else Ok(a.value || b.value)
    case Not(x) =>
      var a := CheckTest(env, clock, at + [0], x, scope);
      if a.Err? then a else Ok(!a.value)
    case In(l, list, negated) =>
      var a := Eval(env, clock, at + [0], l, scope);
      if a.Err? then Err(a.error) else
      var found := CheckFind(env, clock, at, a.value, list, scope);
      if found.Err? then found else Ok(found.value != negated)
    case Between(_, _, _, _) => AsTruth(Eval(env, clock, at, e, scope))
    case Call(_, _) => AsTruth(Eval(env, clock, at, e, scope))
    case _ => Err("unsupported CHECK expression type")
  }

  function CheckFind(env: Env, clock: Clock, at: Path, a: Raw, list: seq<Expr>, scope: Scope): Result<bool> {
    if list == [] then Ok(false) else
    var front := CheckFind(env, clock, at, a, list[..|list| - 1], scope);
    if front.Err? || front.value then front else
    var b := Eval(env, clock, at + [|list|], list[|list| - 1], scope);
    if b.Err? then Err(b.error) else
    var same := env.compare(a, b.value, "=");
    if same.Err? then Ok(false) else same
  }

  /** The conditions a CHECK can hold: comparisons, BETWEEN, IN and calls under AND, OR and NOT. */
  predicate Checkable(e: Expr) {
    match e
    case Binary(_, op, _) => op.Infix? && op.symbol in COMPARISONS
    case And(l, r) => Checkable(l) && Checkable(r)
    case Or(l, r) => Checkable(l) && Checkable(r)
    case Not(x) => Checkable(x)
    case In(_, _, _) => true
    case Between(_, _, _, _) => true
    case Call(_, _) => true
    case _ => false
  }

  lemma {:induction false} CheckFindAgrees(env: Env, clock: Clock, at: Path, a: Raw, list: seq<Expr>, scope: Scope)
    requires Find(env, clock, at, a, list, scope).Ok?
    ensures CheckFind(env, clock, at, a, list, scope) == Find(env, clock, at, a, list, scope)
  {
    if list != [] {
      CheckFindAgrees(env, clock, at, a, list[..|list| - 1], scope);
    }
  }

  /** Where the condition has a value as a WHERE condition, the CHECK gives the same. */
  lemma {:induction false} CheckAgrees(env: Env, clock: Clock, at: Path, e: Expr, scope: Scope)
    requires Checkable(e) && Test(env, clock, at, e, scope).Ok?
    ensures CheckTest(env, clock, at, e, scope) == Test(env, clock, at, e, scope)
    decreases e
  {
    match e
    case And(l, r) =>
      CheckAgrees(env, clock, at + [0], l, scope);
      CheckAgrees(env, clock, at + [1], r, scope);
    case Or(l, r) =>
      CheckAgrees(env, clock, at + [0], l, scope);
      CheckAgrees(env, clock, at + [1], r, scope);
    case Not(x) => CheckAgrees(env, clock, at + [0], x, scope);
    case In(l, list, _) =>
      CheckFindAgrees(env, clock, at, Eval(env, clock, at + [0], l, scope).value, list, scope);
    case _ =>
  }

  /** A declared CHECK means what was declared after the trip through its printed text, for every
      condition of the grammar's ranks that is not nested too deep. */
  lemma StoredCheckMeansDeclared(env: Env, clock: Clock, at: Path, e: Expr, scope: Scope)
    requires Rank4(e) && Depth(e) <= MAX_DEPTH && Checkable(e) && Test(env, clock, at, e, scope).Ok?
    ensures Reread(e).Done? && CheckTest(env, clock, at, Reread(e).e, scope) == Test(env, clock, at, e, scope)
  {
    PrintReadsBack(e);
    CheckAgrees(env, clock, at, e, scope);
  }

  // ----- what the CHECK takes for a comparison and is none

  /** Comparing NULLs or texts by anything but the six comparisons gives false. */
  ghost predicate FalseOtherwise(env: Env) {
    forall a: Raw, b: Raw, symbol | symbol !in COMPARISONS && (a.Null? || b.Null? || (a.Text? && b.Text?)) ::
      env.compare(a, b, symbol) == Ok(false)
  }

  lemma NoComparison(op: Op)
    requires op.LikeOp? || op.ILikeOp? || op.IsOp? || op.IsNotOp?
    ensures Symbol(op) !in COMPARISONS
  {
    assert "LIKE"[0] == 'L' && "ILIKE"[0] == 'I' && "IS"[0] == 'I' && "IS NOT"[0] == 'I';
    assert "="[0] == '=' && "!="[0] == '!' && "<"[0] == '<' && ">"[0] == '>' && "<="[0] == '<' && ">="[0] == '>';
  }

  /** IS NULL and IS NOT NULL are false of every row, so they mean what was declared exactly where
      that is false: on a value, and on NULL. */
  lemma CheckNullTestIff(env: Env, clock: Clock, at: Path, x: Expr, negated: bool, scope: Scope)
    requires FalseOtherwise(env) && Eval(env, clock, at + [0], x, scope).Ok?
    ensures var v, e := Eval(env, clock, at + [0], x, scope).value, Binary(x, if negated then IsNotOp else IsOp, Val(NULL_VAL));
      && CheckTest(env, clock, at, e, scope) == Ok(false) && Test(env, clock, at, e, scope) == Ok(v.Null? != negated)
      && (CheckTest(env, clock, at, e, scope) == Test(env, clock, at, e, scope) <==> v.Null? == negated)
  {
    var op := if negated then IsNotOp else IsOp;
    NoComparison(op);
    assert |"int"| == 3 && |"float"| == 5 && |"string"| == 6 && |"bool"| == 4 && "bool"[0] != "null"[0];
    assert Eval(env, clock, at + [1], Val(NULL_VAL), scope) == Ok(Null);
  }

  /** LIKE and ILIKE are false of every two texts, whether they match or not. */
  lemma CheckLikeFails(env: Env, clock: Clock, at: Path, x: Expr, pattern: Expr, op: Op, scope: Scope)
    requires FalseOtherwise(env) && (op.LikeOp? || op.ILikeOp?)
    requires Eval(env, clock, at + [0], x, scope).Ok? && Eval(env, clock, at + [0], x, scope).value.Text?
    requires Eval(env, clock, at + [1], pattern, scope).Ok? && Eval(env, clock, at + [1], pattern, scope).value.Text?
    ensures CheckTest(env, clock, at, Binary(x, op, pattern), scope) == Ok(false)
    ensures Eval(env, clock, at, Binary(x, op, pattern), scope) ==
      env.operate(op, Eval(env, clock, at + [0], x, scope).value, Eval(env, clock, at + [1], pattern, scope).value)
  {
    NoComparison(op);
  }
}
