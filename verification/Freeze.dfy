/** Freezing: volatile calls become literals when a statement is buffered. */
module Freezing {
  import opened Ast
  import opened Evaluation
  import opened Results
  import opened Text

  predicate IsVolatile(e: Expr) {
    e.Call? && Upper(e.name) in VOLATILE
  }

  /** Whether evaluation can look at the clock. */
  predicate Volatile(e: Expr)
    decreases e, 0
  {
    match e
    case Nil => false
    case Val(_) => false
    case Col(_, _) => false
    case Binary(l, _, r) => Volatile(l) || Volatile(r)
    case And(l, r) => Volatile(l) || Volatile(r)
    case Or(l, r) => Volatile(l) || Volatile(r)
    case Not(x) => Volatile(x)
    case In(l, list, _) => Volatile(l) || AnyVolatile(list)
    case Between(x, lower, upper, _) => Volatile(x) || Volatile(lower) || Volatile(upper)
    case Cast(x, _) => Volatile(x)
    case Call(_, args) => IsVolatile(e) || AnyVolatile(args)
    case Param(_) => false
    case Opaque(_, volatile) => volatile
  }

  predicate AnyVolatile(es: seq<Expr>)
    decreases es, 0
  {
    es != [] && (AnyVolatile(es[..|es| - 1]) || Volatile(es[|es| - 1]))
  }

  /** Whether a volatile call stands where freezing does not go: under BETWEEN, CAST or a form not
      looked into. */
  predicate Sheltered(e: Expr)
    decreases e, 0
  {
    match e
    case Nil => false
    case Val(_) => false
    case Col(_, _) => false
    case Binary(l, _, r) => Sheltered(l) || Sheltered(r)
    case And(l, r) => Sheltered(l) || Sheltered(r)
    case Or(l, r) => Sheltered(l) || Sheltered(r)
    case Not(x) => Sheltered(x)
    case In(l, list, _) => Sheltered(l) || AnySheltered(list)
    case Between(_, _, _, _) => Volatile(e)
    case Cast(_, _) => Volatile(e)
    case Call(_, args) => !IsVolatile(e) && AnySheltered(args)
    case Param(_) => false
    case Opaque(_, volatile) => volatile
  }

  predicate AnySheltered(es: seq<Expr>)
    decreases es, 0
  {
    es != [] && (AnySheltered(es[..|es| - 1]) || Sheltered(es[|es| - 1]))
  }

  /** `freezeVolatileExpr`.  A volatile call is evaluated without a row. */
  function Freeze(env: Env, clock: Clock, at: Path, e: Expr): Result<Expr>
    decreases e, 0
  {
    match e
    case Call(name, args) =>
      if IsVolatile(e) then
        var r := Eval(env, clock, at, e, NO_SCOPE);
        if r.Err? then Err(r.error) else Ok(Val(ToLiteral(r.value)))
      else
        var fs := FreezeAll(env, clock, at, 0, args);
        if fs.Err? then Err(fs.error) else Ok(Call(name, fs.value))
    case Binary(l, op, r) =>
      var a, b := Freeze(env, clock, at + [0], l), Freeze(env, clock, at + [1], r);
      if a.Err? then a else if b.Err? then b else Ok(Binary(a.value, op, b.value))
    case And(l, r) =>
      var a, b := Freeze(env, clock, at + [0], l), Freeze(env, clock, at + [1], r);
      if a.Err? then a else if b.Err? then b else Ok(And(a.value, b.value))
    case Or(l, r) =>
      var a, b := Freeze(env, clock, at + [0], l), Freeze(env, clock, at + [1], r);
      if a.Err? then a else if b.Err? then b else Ok(Or(a.value, b.value))
    case Not(x) =>
      var a := Freeze(env, clock, at + [0], x);
      if a.Err? then a else Ok(Not(a.value))
    case In(l, list, negated) =>
      var a, fs := Freeze(env, clock, at + [0], l), FreezeAll(env, clock, at, 1, list);
      if a.Err? then a else if fs.Err? then Err(fs.error) else Ok(In(a.value, fs.value, negated))
    case _ => Ok(e)
  }

  function FreezeAll(env: Env, clock: Clock, at: Path, first: nat, es: seq<Expr>): (r: Result<seq<Expr>>)
    ensures r.Ok? ==> |r.value| == |es|
    decreases es, 0
  {
    if es == [] then Ok([]) else
    var front := FreezeAll(env, clock, at, first, es[..|es| - 1]);
    if front.Err? then front else
    var last := Freeze(env, clock, at + [first + |es| - 1], es[|es| - 1]);
    if last.Err? then Err(last.error) else Ok(front.value + [last.value])
  }

  // ----- evaluation and the clock

  /** An expression without volatile parts has one value, whatever the clock says. */
  lemma {:induction false} ClockFree(env: Env, c1: Clock, p1: Path, c2: Clock, p2: Path, e: Expr, scope: Scope)
    requires !Volatile(e)
    ensures Eval(env, c1, p1, e, scope) == Eval(env, c2, p2, e, scope)
    decreases e, 0
  {
    match e
    case Binary(l, _, r) =>
      ClockFree(env, c1, p1 + [0], c2, p2 + [0], l, scope);
      ClockFree(env, c1, p1 + [1], c2, p2 + [1], r, scope);
    case And(l, r) =>
      ClockFree(env, c1, p1 + [0], c2, p2 + [0], l, scope);
      ClockFree(env, c1, p1 + [1], c2, p2 + [1], r, scope);
    case Or(l, r) =>
      ClockFree(env, c1, p1 + [0], c2, p2 + [0], l, scope);
      ClockFree(env, c1, p1 + [1], c2, p2 + [1], r, scope);
    case Not(x) => ClockFree(env, c1, p1 + [0], c2, p2 + [0], x, scope);
    case In(l, list, _) =>
      ClockFree(env, c1, p1 + [0], c2, p2 + [0], l, scope);
      var a := Eval(env, c1, p1 + [0], l, scope);
      if a.Ok? {
        FindClockFree(env, c1, p1, c2, p2, a.value, list, scope);
      }
    case Between(x, lower, upper, _) =>
      ClockFree(env, c1, p1 + [0], c2, p2 + [0], x, scope);
      ClockFree(env, c1, p1 + [1], c2, p2 + [1], lower, scope);
      ClockFree(env, c1, p1 + [2], c2, p2 + [2], upper, scope);
    case Cast(x, _) => ClockFree(env, c1, p1 + [0], c2, p2 + [0], x, scope);
    case Call(_, args) => AllClockFree(env, c1, p1, c2, p2, args, scope);
    case _ =>
  }

  lemma {:induction false} AllClockFree(env: Env, c1: Clock, p1: Path, c2: Clock, p2: Path, es: seq<Expr>, scope: Scope)
    requires !AnyVolatile(es)
    ensures EvalAll(env, c1, p1, es, scope) == EvalAll(env, c2, p2, es, scope)
    decreases es, 0
  {
    if es != [] {
      var n := |es| - 1;
      AllClockFree(env, c1, p1, c2, p2, es[..n], scope);
      ClockFree(env, c1, p1 + [n], c2, p2 + [n], es[n], scope);
    }
  }

  lemma {:induction false} FindClockFree(env: Env, c1: Clock, p1: Path, c2: Clock, p2: Path, a: Raw, list: seq<Expr>, scope: Scope)
    requires !AnyVolatile(list)
    ensures Find(env, c1, p1, a, list, scope) == Find(env, c2, p2, a, list, scope)
    decreases list, 0
  {
    if list != [] {
      var n := |list| - 1;
      FindClockFree(env, c1, p1, c2, p2, a, list[..n], scope);
      ClockFree(env, c1, p1 + [n + 1], c2, p2 + [n + 1], list[n], scope);
    }
  }

  /** A clock that cannot be read. */
  const STOPPED: Clock := (p: Path) => Err("no reading")

  /** Everything in the expression is evaluated: it has no IN list to stop in. */
  predicate Listless(e: Expr)
    decreases e, 0
  {
    match e
    case Binary(l, _, r) => Listless(l) && Listless(r)
    case And(l, r) => Listless(l) && Listless(r)
    case Or(l, r) => Listless(l) && Listless(r)
    case Not(x) => Listless(x)
    case In(_, _, _) => false
    case Between(x, lower, upper, _) => Listless(x) && Listless(lower) && Listless(upper)
    case Cast(x, _) => Listless(x)
    case Call(_, args) => AllListless(args)
    case _ => true
  }

  predicate AllListless(es: seq<Expr>)
    decreases es, 0
  {
    es == [] || (AllListless(es[..|es| - 1]) && Listless(es[|es| - 1]))
  }

  /** And every form in it is looked into. */
  predicate Strict(e: Expr) {
    Listless(e) && Plain(e)
  }

  predicate AllStrict(es: seq<Expr>) {
    AllListless(es) && AllPlain(es)
  }

  /** What has a volatile part, and no list to stop in before it, fails when the clock cannot be
      read. */
  lemma {:induction false} StrictFails(env: Env, p: Path, e: Expr, scope: Scope)
    requires Strict(e) && Volatile(e)
    ensures Eval(env, STOPPED, p, e, scope).Err? && !e.Nil?
    decreases e, 0
  {
    hide Apply, WithinBounds, ToRaw;
    match e
    case Binary(l, _, r) => EitherFails(env, p, l, r, scope);
    case And(l, r) => EitherFails(env, p, l, r, scope);
    case Or(l, r) => EitherFails(env, p, l, r, scope);
    case Not(x) => StrictFails(env, p + [0], x, scope);
    case Between(x, lower, upper, _) =>
      if Volatile(x) {
        StrictFails(env, p + [0], x, scope);
      } else if Volatile(lower) {
        StrictFails(env, p + [1], lower, scope);
      } else {
        StrictFails(env, p + [2], upper, scope);
      }
    case Cast(x, _) => StrictFails(env, p + [0], x, scope);
    case Call(_, args) =>
      if !IsVolatile(e) {
        AllFails(env, p, args, scope);
      }
    case _ =>
  }

  lemma {:induction false} EitherFails(env: Env, p: Path, l: Expr, r: Expr, scope: Scope)
    requires Strict(l) && Strict(r) && (Volatile(l) || Volatile(r))
    ensures (!l.Nil? && Eval(env, STOPPED, p + [0], l, scope).Err?) || (!r.Nil? && Eval(env, STOPPED, p + [1], r, scope).Err?)
    decreases (if Volatile(l) then l else r), 1
  {
    if Volatile(l) {
      StrictFails(env, p + [0], l, scope);
    } else {
      StrictFails(env, p + [1], r, scope);
    }
  }

  lemma {:induction false} AllFails(env: Env, p: Path, es: seq<Expr>, scope: Scope)
    requires AllStrict(es) && AnyVolatile(es)
    ensures EvalAll(env, STOPPED, p, es, scope).Err?
    decreases es, 0
  {
    var n := |es| - 1;
    if AnyVolatile(es[..n]) {
      AllFails(env, p, es[..n], scope);
    } else {
      StrictFails(env, p + [n], es[n], scope);
    }
  }

  /** For every environment: an expression without lists that has a value keeps it under every clock,
      one that cannot be read included, exactly when it has no volatile part. */
  lemma ClockFreeIff(env: Env, c: Clock, p: Path, e: Expr, scope: Scope)
    requires Strict(e) && Eval(env, c, p, e, scope).Ok?
    ensures (forall c2: Clock :: Eval(env, c2, p, e, scope) == Eval(env, c, p, e, scope)) <==> !Volatile(e)
  {
    if Volatile(e) {
      StrictFails(env, p, e, scope);
    } else {
      forall c2: Clock ensures Eval(env, c2, p, e, scope) == Eval(env, c, p, e, scope) {
        ClockFree(env, c2, p, c, p, e, scope);
      }
    }
  }

  // ----- evaluation without a row

  /** Whether every part is one of the forms looked into. */
  predicate Plain(e: Expr)
    decreases e, 0
  {
    match e
    case Nil => true
    case Val(_) => true
    case Col(_, _) => true
    case Binary(l, _, r) => Plain(l) && Plain(r)
    case And(l, r) => Plain(l) && Plain(r)
    case Or(l, r) => Plain(l) && Plain(r)
    case Not(x) => Plain(x)
    case In(l, list, _) => Plain(l) && AllPlain(list)
    case Between(x, lower, upper, _) => Plain(x) && Plain(lower) && Plain(upper)
    case Cast(x, _) => Plain(x)
    case Call(_, args) => AllPlain(args)
    case Param(_) => true
    case Opaque(_, _) => false
  }

  predicate AllPlain(es: seq<Expr>)
    decreases es, 0
  {
    es == [] || (AllPlain(es[..|es| - 1]) && Plain(es[|es| - 1]))
  }

  /** A scope without any column. */
  ghost predicate Empty(scope: Scope) {
    forall table, name :: scope(table, name).Err?
  }

  /** What evaluates without a row never asked for a column, so it has the same value on any row. */
  lemma {:induction false} Rowless(env: Env, clock: Clock, at: Path, e: Expr, none: Scope, scope: Scope)
    requires Empty(none) && Plain(e) && Eval(env, clock, at, e, none).Ok?
    ensures Eval(env, clock, at, e, scope) == Eval(env, clock, at, e, none)
    decreases e, 0
  {
    match e
    case Binary(l, _, r) =>
      Rowless(env, clock, at + [0], l, none, scope);
      Rowless(env, clock, at + [1], r, none, scope);
    case And(l, r) =>
      Rowless(env, clock, at + [0], l, none, scope);
      Rowless(env, clock, at + [1], r, none, scope);
    case Or(l, r) =>
      Rowless(env, clock, at + [0], l, none, scope);
      Rowless(env, clock, at + [1], r, none, scope);
    case Not(x) => Rowless(env, clock, at + [0], x, none, scope);
    case In(l, list, _) =>
      Rowless(env, clock, at + [0], l, none, scope);
      FindRowless(env, clock, at, Eval(env, clock, at + [0], l, scope).value, list, none, scope);
    case Between(x, lower, upper, _) =>
      Rowless(env, clock, at + [0], x, none, scope);
      Rowless(env, clock, at + [1], lower, none, scope);
      Rowless(env, clock, at + [2], upper, none, scope);
    case Cast(x, _) => Rowless(env, clock, at + [0], x, none, scope);
    case Call(_, args) => AllRowless(env, clock, at, args, none, scope);
    case _ =>
  }

  lemma {:induction false} AllRowless(env: Env, clock: Clock, at: Path, es: seq<Expr>, none: Scope, scope: Scope)
    requires Empty(none) && AllPlain(es) && EvalAll(env, clock, at, es, none).Ok?
    ensures EvalAll(env, clock, at, es, scope) == EvalAll(env, clock, at, es, none)
    decreases es, 0
  {
    if es != [] {
      AllRowless(env, clock, at, es[..|es| - 1], none, scope);
      Rowless(env, clock, at + [|es| - 1], es[|es| - 1], none, scope);
    }
  }

  lemma {:induction false} FindRowless(env: Env, clock: Clock, at: Path, a: Raw, list: seq<Expr>, none: Scope, scope: Scope)
    requires Empty(none) && AllPlain(list) && Find(env, clock, at, a, list, none).Ok?
    ensures Find(env, clock, at, a, list, scope) == Find(env, clock, at, a, list, none)
    decreases list, 0
  {
    if list != [] {
      FindRowless(env, clock, at, a, list[..|list| - 1], none, scope);
      if !Find(env, clock, at, a, list[..|list| - 1], none).value {
        Rowless(env, clock, at + [|list|], list[|list| - 1], none, scope);
      }
    }
  }

  // ----- what freezing keeps

  /** The arguments of every volatile call freezing reaches are plain. */
  predicate PlainCalls(e: Expr)
    decreases e, 0
  {
    match e
    case Binary(l, _, r) => PlainCalls(l) && PlainCalls(r)
    case And(l, r) => PlainCalls(l) && PlainCalls(r)
    case Or(l, r) => PlainCalls(l) && PlainCalls(r)
    case Not(x) => PlainCalls(x)
    case In(l, list, _) => PlainCalls(l) && AllPlainCalls(list)
    case Call(_, args) => if IsVolatile(e) then AllPlain(args) else AllPlainCalls(args)
    case _ => true
  }

  predicate AllPlainCalls(es: seq<Expr>)
    decreases es, 0
  {
    es == [] || (AllPlainCalls(es[..|es| - 1]) && PlainCalls(es[|es| - 1]))
  }

  /** The frozen form has, under every clock and on every row, the value the original has under
      the clock it was frozen by. */
  lemma {:induction false} FreezeKeepsMeaning(env: Env, c: Clock, p: Path, e: Expr, c2: Clock, p2: Path, scope: Scope)
    requires Freeze(env, c, p, e).Ok? && !Sheltered(e) && PlainCalls(e)
    ensures Eval(env, c2, p2, Freeze(env, c, p, e).value, scope) == Eval(env, c, p, e, scope)
    ensures Freeze(env, c, p, e).value.Nil? <==> e.Nil?
    decreases e, 0
  {
    match e
    case Binary(l, _, r) =>
      FreezeKeepsMeaning(env, c, p + [0], l, c2, p2 + [0], scope);
      FreezeKeepsMeaning(env, c, p + [1], r, c2, p2 + [1], scope);
    case And(l, r) =>
      FreezeKeepsMeaning(env, c, p + [0], l, c2, p2 + [0], scope);
      FreezeKeepsMeaning(env, c, p + [1], r, c2, p2 + [1], scope);
    case Or(l, r) =>
      FreezeKeepsMeaning(env, c, p + [0], l, c2, p2 + [0], scope);
      FreezeKeepsMeaning(env, c, p + [1], r, c2, p2 + [1], scope);
    case Not(x) => FreezeKeepsMeaning(env, c, p + [0], x, c2, p2 + [0], scope);
    case In(l, list, _) =>
      FreezeKeepsMeaning(env, c, p + [0], l, c2, p2 + [0], scope);
      if Eval(env, c, p + [0], l, scope).Ok? {
        FreezeKeepsFind(env, c, p, Eval(env, c, p + [0], l, scope).value, list, c2, p2, scope);
      }
    case Call(_, args) =>
      if IsVolatile(e) {
        AllRowless(env, c, p, args, NO_SCOPE, scope);
      } else {
        FreezeKeepsAll(env, c, p, args, c2, p2, scope);
      }
    case Between(_, _, _, _) => ClockFree(env, c, p, c2, p2, e, scope);
    case Cast(_, _) => ClockFree(env, c, p, c2, p2, e, scope);
    case _ =>
  }

  lemma {:induction false} FreezeKeepsAll(env: Env, c: Clock, p: Path, es: seq<Expr>, c2: Clock, p2: Path, scope: Scope)
    requires FreezeAll(env, c, p, 0, es).Ok? && !AnySheltered(es) && AllPlainCalls(es)
    ensures EvalAll(env, c2, p2, FreezeAll(env, c, p, 0, es).value, scope) == EvalAll(env, c, p, es, scope)
    decreases es, 0
  {
    hide Eval, EvalAll, Freeze, Sheltered, PlainCalls;
    EvalAllNone(env, c, p, scope);
    EvalAllNone(env, c2, p2, scope);
    if es != [] {
      var n := |es| - 1;
      var front, last := FreezeAll(env, c, p, 0, es[..n]).value, Freeze(env, c, p + [n], es[n]).value;
      FreezeKeepsAll(env, c, p, es[..n], c2, p2, scope);
      FreezeKeepsMeaning(env, c, p + [n], es[n], c2, p2 + [n], scope);
      EvalAllPush(env, c2, p2, front, last, scope);
      EvalAllPush(env, c, p, es[..n], es[n], scope);
      assert es == es[..n] + [es[n]];
    }
  }

  lemma {:induction false} FreezeKeepsFind(env: Env, c: Clock, p: Path, a: Raw, es: seq<Expr>, c2: Clock, p2: Path, scope: Scope)
    requires FreezeAll(env, c, p, 1, es).Ok? && !AnySheltered(es) && AllPlainCalls(es)
    ensures Find(env, c2, p2, a, FreezeAll(env, c, p, 1, es).value, scope) == Find(env, c, p, a, es, scope)
    decreases es, 0
  {
    if es != [] {
      var n := |es| - 1;
      var front, last := FreezeAll(env, c, p, 1, es[..n]).value, Freeze(env, c, p + [n + 1], es[n]).value;
      FreezeKeepsFind(env, c, p, a, es[..n], c2, p2, scope);
      FreezeKeepsMeaning(env, c, p + [n + 1], es[n], c2, p2 + [n + 1], scope);
      FindPush(env, c2, p2, a, front, last, scope);
    }
  }

  /** Freezing takes out every volatile call except the sheltered ones. */
  lemma {:induction false} FrozenVolatileIff(env: Env, c: Clock, p: Path, e: Expr)
    requires Freeze(env, c, p, e).Ok?
    ensures Volatile(Freeze(env, c, p, e).value) <==> Sheltered(e)
    decreases e, 0
  {
    match e
    case Binary(l, _, r) =>
      FrozenVolatileIff(env, c, p + [0], l);
      FrozenVolatileIff(env, c, p + [1], r);
    case And(l, r) =>
      FrozenVolatileIff(env, c, p + [0], l);
      FrozenVolatileIff(env, c, p + [1], r);
    case Or(l, r) =>
      FrozenVolatileIff(env, c, p + [0], l);
      FrozenVolatileIff(env, c, p + [1], r);
    case Not(x) => FrozenVolatileIff(env, c, p + [0], x);
    case In(l, list, _) =>
      FrozenVolatileIff(env, c, p + [0], l);
      AllFrozenVolatileIff(env, c, p, 1, list);
    case Call(_, args) =>
      if !IsVolatile(e) {
        AllFrozenVolatileIff(env, c, p, 0, args);
      }
    case _ =>
  }

  lemma {:induction false} AllFrozenVolatileIff(env: Env, c: Clock, p: Path, first: nat, es: seq<Expr>)
    requires FreezeAll(env, c, p, first, es).Ok?
    ensures AnyVolatile(FreezeAll(env, c, p, first, es).value) <==> AnySheltered(es)
    decreases es, 0
  {
    if es != [] {
      var n, fs := |es| - 1, FreezeAll(env, c, p, first, es).value;
      AllFrozenVolatileIff(env, c, p, first, es[..n]);
      FrozenVolatileIff(env, c, p + [first + n], es[n]);
      assert fs[..n] == FreezeAll(env, c, p, first, es[..n]).value;
    }
  }

  lemma {:induction false} FrozenStrict(env: Env, c: Clock, p: Path, e: Expr)
    requires Strict(e) && Freeze(env, c, p, e).Ok?
    ensures Strict(Freeze(env, c, p, e).value)
    decreases e, 0
  {
    match e
    case Binary(l, _, r) => FrozenStrict(env, c, p + [0], l); FrozenStrict(env, c, p + [1], r);
    case And(l, r) => FrozenStrict(env, c, p + [0], l); FrozenStrict(env, c, p + [1], r);
    case Or(l, r) => FrozenStrict(env, c, p + [0], l); FrozenStrict(env, c, p + [1], r);
    case Not(x) => FrozenStrict(env, c, p + [0], x);
    case Call(_, args) =>
      if !IsVolatile(e) {
        AllFrozenStrict(env, c, p, args);
      }
    case _ =>
  }

  lemma {:induction false} AllFrozenStrict(env: Env, c: Clock, p: Path, es: seq<Expr>)
    requires AllStrict(es) && FreezeAll(env, c, p, 0, es).Ok?
    ensures AllStrict(FreezeAll(env, c, p, 0, es).value)
    decreases es, 0
  {
    if es != [] {
      var n, fs := |es| - 1, FreezeAll(env, c, p, 0, es).value;
      AllFrozenStrict(env, c, p, es[..n]);
      FrozenStrict(env, c, p + [n], es[n]);
      assert fs[..n] == FreezeAll(env, c, p, 0, es[..n]).value;
    }
  }

  /** So a frozen expression without lists that has a value keeps it under every clock exactly when
      no volatile call was sheltered. */
  lemma FrozenSteadyIff(env: Env, c: Clock, p: Path, e: Expr, c1: Clock, scope: Scope)
    requires Strict(e) && Freeze(env, c, p, e).Ok? && Eval(env, c1, p, Freeze(env, c, p, e).value, scope).Ok?
    ensures var f := Freeze(env, c, p, e).value;
      (forall c2: Clock :: Eval(env, c2, p, f, scope) == Eval(env, c1, p, f, scope)) <==> !Sheltered(e)
  {
    hide Eval, Freeze, Volatile, Sheltered, Strict;
    FrozenStrict(env, c, p, e);
    FrozenVolatileIff(env, c, p, e);
    ClockFreeIff(env, c1, p, Freeze(env, c, p, e).value, scope);
  }

  /** NOW() BETWEEN a AND b is not frozen: two clocks that compare differently disagree on it. */
  lemma ShelteredCallDrifts(env: Env, c1: Clock, c2: Clock, p: Path, low: Value, high: Value, scope: Scope)
    requires c1(p + [0]).Ok? && c2(p + [0]).Ok?
    requires WithinBounds(env, Text(c1(p + [0]).value), ToRaw(low), ToRaw(high), false)
          != WithinBounds(env, Text(c2(p + [0]).value), ToRaw(low), ToRaw(high), false)
    ensures var e := Between(Call("NOW", []), Val(low), Val(high), false);
      Freeze(env, c1, p, e) == Ok(e) && Eval(env, c1, p, e, scope) != Eval(env, c2, p, e, scope)
  {
    var now := Call("NOW", []);
    assert Upper("NOW") == "NOW";
    assert Eval(env, c1, p + [0], now, scope) == Ok(Text(c1(p + [0]).value));
    assert Eval(env, c2, p + [0], now, scope) == Ok(Text(c2(p + [0]).value));
  }
}
