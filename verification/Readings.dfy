/** When the readings of a clock that can always be read show in a value. */
module Readings {
  import opened Ast
  import opened Evaluation
  import opened Freezing
  import opened Results
  import opened Text

  /** Every volatile call gets a reading. */
  ghost predicate Readable(c: Clock) {
    forall p :: c(p).Ok?
  }

  /** Whether, in some environment, some reading makes the evaluation fail: a reading gets to an
      operation that may refuse it.  IS NULL refuses nothing, a list without items is not searched, and
      the arguments of a volatile call are not looked at. */
  predicate Errs(e: Expr)
    decreases e, 0
  {
    match e
    case Nil => false
    case Val(_) => false
    case Col(_, _) => false
    case Binary(l, op, r) => if op.IsOp? || op.IsNotOp? then Errs(l) || Errs(r) else Shows(l) || Shows(r)
    case And(l, r) => Errs(l) || Errs(r)
    case Or(l, r) => Errs(l) || Errs(r)
    case Not(x) => Errs(x)
    case In(l, list, _) => (if list == [] then Errs(l) else Shows(l)) || AnyShows(list)
    case Between(x, lower, upper, _) => Shows(x) || Shows(lower) || Shows(upper)
    case Cast(x, _) => Shows(x)
    case Call(_, args) => if IsVolatile(e) then AnyErrs(args) else AnyShows(args)
    case Param(_) => false
    case Opaque(_, volatile) => volatile
  }

  /** Whether the outcome can depend on a reading. */
  predicate Shows(e: Expr)
    decreases e, 1
  {
    IsVolatile(e) || Errs(e)
  }

  predicate AnyErrs(es: seq<Expr>)
    decreases es, 0
  {
    es != [] && (AnyErrs(es[..|es| - 1]) || Errs(es[|es| - 1]))
  }

  predicate AnyShows(es: seq<Expr>)
    decreases es, 0
  {
    es != [] && (AnyShows(es[..|es| - 1]) || Shows(es[|es| - 1]))
  }

  // ----- what does not show

  /** The same outcome, or two readings. */
  predicate Alike(e: Expr, a: Result<Raw>, b: Result<Raw>) {
    a == b || (IsVolatile(e) && a.Ok? && b.Ok? && a.value.Text? && b.value.Text?)
  }

  lemma {:induction false} NoErrs(env: Env, c1: Clock, c2: Clock, p: Path, e: Expr, scope: Scope)
    requires Readable(c1) && Readable(c2) && !Errs(e)
    ensures Alike(e, Eval(env, c1, p, e, scope), Eval(env, c2, p, e, scope))
    decreases e, 1
  {
    hide Apply, WithinBounds, ToRaw, Upper;
    match e
    case Binary(_, _, _) => BinaryNoErrs(env, c1, c2, p, e, scope);
    case And(l, r) =>
      NoErrs(env, c1, c2, p + [0], l, scope);
      NoErrs(env, c1, c2, p + [1], r, scope);
    case Or(l, r) =>
      NoErrs(env, c1, c2, p + [0], l, scope);
      NoErrs(env, c1, c2, p + [1], r, scope);
    case Not(x) => NoErrs(env, c1, c2, p + [0], x, scope);
    case In(_, _, _) => InNoErrs(env, c1, c2, p, e, scope);
    case Between(x, lower, upper, _) =>
      NoErrs(env, c1, c2, p + [0], x, scope);
      NoErrs(env, c1, c2, p + [1], lower, scope);
      NoErrs(env, c1, c2, p + [2], upper, scope);
    case Cast(x, _) => NoErrs(env, c1, c2, p + [0], x, scope);
    case Call(_, args) =>
      if IsVolatile(e) {
        AllNoErrs(env, c1, c2, p, args, scope);
      } else {
        AllNoShows(env, c1, c2, p, args, scope);
      }
    case _ =>
  }

  lemma {:induction false} BinaryNoErrs(env: Env, c1: Clock, c2: Clock, p: Path, e: Expr, scope: Scope)
    requires Readable(c1) && Readable(c2) && e.Binary? && !Errs(e)
    ensures Eval(env, c1, p, e, scope) == Eval(env, c2, p, e, scope)
    decreases e, 0
  {
    hide Apply;
    var a, a2 := Eval(env, c1, p + [0], e.left, scope), Eval(env, c2, p + [0], e.left, scope);
    var b, b2 := Eval(env, c1, p + [1], e.right, scope), Eval(env, c2, p + [1], e.right, scope);
    NoErrs(env, c1, c2, p + [0], e.left, scope);
    NoErrs(env, c1, c2, p + [1], e.right, scope);
    NullTests(env, e.op, a, a2, b, b2);
  }

  lemma {:induction false} InNoErrs(env: Env, c1: Clock, c2: Clock, p: Path, e: Expr, scope: Scope)
    requires Readable(c1) && Readable(c2) && e.In? && !Errs(e)
    ensures Eval(env, c1, p, e, scope) == Eval(env, c2, p, e, scope)
    decreases e, 0
  {
    NoErrs(env, c1, c2, p + [0], e.left, scope);
    var a, a2 := Eval(env, c1, p + [0], e.left, scope), Eval(env, c2, p + [0], e.left, scope);
    if a.Ok? && a2.Ok? {
      FindNoShows(env, c1, c2, p, a.value, e.list, scope);
      FindNoShows(env, c1, c2, p, a2.value, e.list, scope);
    }
  }

  lemma NullTests(env: Env, op: Op, a: Result<Raw>, a2: Result<Raw>, b: Result<Raw>, b2: Result<Raw>)
    ensures (op.IsOp? || op.IsNotOp?) && a.Ok? && a2.Ok? && b.Ok? && b2.Ok? && (a.value.Null? <==> a2.value.Null?) ==>
      Apply(env, op, a.value, b.value) == Apply(env, op, a2.value, b2.value)
  {
  }

  lemma {:induction false} AllNoErrs(env: Env, c1: Clock, c2: Clock, p: Path, es: seq<Expr>, scope: Scope)
    requires Readable(c1) && Readable(c2) && !AnyErrs(es)
    ensures var a, b := EvalAll(env, c1, p, es, scope), EvalAll(env, c2, p, es, scope); a == b || (a.Ok? && b.Ok?)
    decreases es, 0
  {
    if es != [] {
      var n := |es| - 1;
      AllNoErrs(env, c1, c2, p, es[..n], scope);
      NoErrs(env, c1, c2, p + [n], es[n], scope);
    }
  }

  lemma {:induction false} AllNoShows(env: Env, c1: Clock, c2: Clock, p: Path, es: seq<Expr>, scope: Scope)
    requires Readable(c1) && Readable(c2) && !AnyShows(es)
    ensures EvalAll(env, c1, p, es, scope) == EvalAll(env, c2, p, es, scope)
    decreases es, 0
  {
    if es != [] {
      var n := |es| - 1;
      AllNoShows(env, c1, c2, p, es[..n], scope);
      NoErrs(env, c1, c2, p + [n], es[n], scope);
    }
  }

  lemma {:induction false} FindNoShows(env: Env, c1: Clock, c2: Clock, p: Path, a: Raw, list: seq<Expr>, scope: Scope)
    requires Readable(c1) && Readable(c2) && !AnyShows(list)
    ensures Find(env, c1, p, a, list, scope) == Find(env, c2, p, a, list, scope)
    ensures list == [] ==> Find(env, c1, p, a, list, scope) == Ok(false)
    decreases list, 0
  {
    if list != [] {
      var n := |list| - 1;
      FindNoShows(env, c1, c2, p, a, list[..n], scope);
      NoErrs(env, c1, c2, p + [n + 1], list[n], scope);
    }
  }

  /** In every environment, what does not show has one outcome under all readable clocks. */
  lemma NotShown(env: Env, c1: Clock, c2: Clock, p: Path, e: Expr, scope: Scope)
    requires Readable(c1) && Readable(c2) && !Shows(e)
    ensures Eval(env, c1, p, e, scope) == Eval(env, c2, p, e, scope)
  {
    hide Eval, Errs;
    NoErrs(env, c1, c2, p, e, scope);
  }

  // ----- an environment that refuses long texts

  predicate Long(k: nat, r: Raw) {
    r.Text? && |r.s| > k
  }

  predicate AnyLong(k: nat, rs: seq<Raw>) {
    exists i :: 0 <= i < |rs| && Long(k, rs[i])
  }

  function Refusal<T>(refused: bool, value: T): Result<T> {
    if refused then Err("text too long") else Ok(value)
  }

  /** Every operation gives false, except on texts longer than `k`, which it refuses. */
  function Wary(k: nat): Env {
    Env((a, b, symbol) => Refusal(Long(k, a) || Long(k, b), false),
        (op, a, b) => Refusal(Long(k, a) || Long(k, b), Bool(false)),
        (a, target) => Refusal(Long(k, a), Bool(false)),
        (name, vals) => Refusal(AnyLong(k, vals), Bool(false)),
        (id: nat, reading: Result<string>, scope: Scope) => Refusal(reading.Ok? && |reading.value| > k, Bool(false)))
  }

  const EARLY: Clock := (p: Path) => Ok("")

  function LateText(k: nat): string {
    seq(k + 1, i => 'x')
  }

  /** All readings are too long. */
  function Late(k: nat): Clock {
    (p: Path) => Ok(LateText(k))
  }

  lemma WaryApply(k: nat, op: Op, a: Raw, b: Raw)
    ensures Apply(Wary(k), op, a, b) ==
      if op.IsOp? then Ok(Bool(a.Null?)) else if op.IsNotOp? then Ok(Bool(!a.Null?)) else Refusal(Long(k, a) || Long(k, b), Bool(false))
  {
  }

  lemma WaryBounds(k: nat, a: Raw, lo: Raw, hi: Raw, negated: bool)
    ensures var r := WithinBounds(Wary(k), a, lo, hi, negated);
      if Long(k, a) || Long(k, lo) || Long(k, hi) then r.Err? else r == Ok(Bool(negated))
  {
  }

  // ----- with readings that are too long, what shows fails or is such a reading

  /** The outcome is an error or a reading that is too long. */
  predicate Spoilt(k: nat, r: Result<Raw>) {
    r.Err? || Long(k, r.value)
  }

  lemma {:induction false} ErrsFails(k: nat, p: Path, e: Expr, scope: Scope)
    requires Errs(e)
    ensures Eval(Wary(k), Late(k), p, e, scope).Err? && !e.Nil?
    decreases e, 1
  {
    hide Apply, WithinBounds, ToRaw, Upper, Wary, Late;
    match e
    case Binary(l, op, r) => BinaryFails(k, p, e, scope);
    case And(l, r) =>
      if Errs(l) {
        ErrsFails(k, p + [0], l, scope);
      } else {
        ErrsFails(k, p + [1], r, scope);
      }
    case Or(l, r) =>
      if Errs(l) {
        ErrsFails(k, p + [0], l, scope);
      } else {
        ErrsFails(k, p + [1], r, scope);
      }
    case Not(x) => ErrsFails(k, p + [0], x, scope);
    case In(l, list, _) => InFails(k, p, e, scope);
    case Between(_, _, _, _) => BetweenFails(k, p, e, scope);
    case Cast(x, target) =>
      ShowsSpoilt(k, p + [0], x, scope);
      WaryCast(k, Eval(Wary(k), Late(k), p + [0], x, scope), target);
    case Call(name, args) => CallFails(k, p, e, scope);
    case Opaque(id, _) => WaryOther(k, p, id, scope);
  }

  lemma WaryCast(k: nat, a: Result<Raw>, target: string)
    ensures a.Ok? && Long(k, a.value) ==> !a.value.Null? && Wary(k).cast(a.value, target).Err?
  {
  }

  lemma WaryOther(k: nat, p: Path, id: nat, scope: Scope)
    ensures Wary(k).other(id, Late(k)(p), scope).Err?
  {
  }

  lemma {:induction false} ShowsSpoilt(k: nat, p: Path, e: Expr, scope: Scope)
    requires Shows(e)
    ensures Spoilt(k, Eval(Wary(k), Late(k), p, e, scope)) && !e.Nil?
    decreases e, 2
  {
    hide Wary, Errs, Upper;
    if Errs(e) {
      ErrsFails(k, p, e, scope);
    } else {
      assert Late(k)(p) == Ok(LateText(k));
    }
  }

  lemma {:induction false} BinaryFails(k: nat, p: Path, e: Expr, scope: Scope)
    requires e.Binary? && Errs(e)
    ensures Eval(Wary(k), Late(k), p, e, scope).Err?
    decreases e, 0
  {
    hide Wary, Late, Apply;
    var a, b := Eval(Wary(k), Late(k), p + [0], e.left, scope), Eval(Wary(k), Late(k), p + [1], e.right, scope);
    if a.Ok? && b.Ok? {
      WaryApply(k, e.op, a.value, b.value);
    }
    if e.op.IsOp? || e.op.IsNotOp? {
      if Errs(e.left) {
        ErrsFails(k, p + [0], e.left, scope);
      } else {
        ErrsFails(k, p + [1], e.right, scope);
      }
    } else if Shows(e.left) {
      ShowsSpoilt(k, p + [0], e.left, scope);
    } else {
      ShowsSpoilt(k, p + [1], e.right, scope);
    }
  }

  lemma {:induction false} BetweenFails(k: nat, p: Path, e: Expr, scope: Scope)
    requires e.Between? && Errs(e)
    ensures Eval(Wary(k), Late(k), p, e, scope).Err?
    decreases e, 0
  {
    hide Wary, Late, WithinBounds;
    var a := Eval(Wary(k), Late(k), p + [0], e.inner, scope);
    var lo := Eval(Wary(k), Late(k), p + [1], e.lower, scope);
    var hi := Eval(Wary(k), Late(k), p + [2], e.upper, scope);
    if a.Ok? && lo.Ok? && hi.Ok? {
      WaryBounds(k, a.value, lo.value, hi.value, e.negated);
    }
    if Shows(e.inner) {
      ShowsSpoilt(k, p + [0], e.inner, scope);
    } else if Shows(e.lower) {
      ShowsSpoilt(k, p + [1], e.lower, scope);
    } else {
      ShowsSpoilt(k, p + [2], e.upper, scope);
    }
  }

  lemma {:induction false} InFails(k: nat, p: Path, e: Expr, scope: Scope)
    requires e.In? && Errs(e)
    ensures Eval(Wary(k), Late(k), p, e, scope).Err?
    decreases e, 0
  {
    hide Wary, Late;
    var a := Eval(Wary(k), Late(k), p + [0], e.left, scope);
    if e.list == [] {
      ErrsFails(k, p + [0], e.left, scope);
    } else {
      if Shows(e.left) {
        ShowsSpoilt(k, p + [0], e.left, scope);
      }
      if a.Ok? {
        FindFails(k, p, a.value, e.list, scope);
      }
    }
  }

  lemma {:induction false} FindFails(k: nat, p: Path, a: Raw, list: seq<Expr>, scope: Scope)
    requires list != []
    ensures Long(k, a) || AnyShows(list) ==> Find(Wary(k), Late(k), p, a, list, scope).Err?
    ensures Find(Wary(k), Late(k), p, a, list, scope) != Ok(true)
    decreases list, 0
  {
    hide Late, Wary, Eval, Find, Errs;
    var n := |list| - 1;
    var front := Find(Wary(k), Late(k), p, a, list[..n], scope);
    var b := Eval(Wary(k), Late(k), p + [n + 1], list[n], scope);
    if n > 0 {
      FindFails(k, p, a, list[..n], scope);
    } else {
      assert list[..n] == [];
      FindNone(Wary(k), Late(k), p, a, list[..n], scope);
    }
    if Shows(list[n]) {
      ShowsSpoilt(k, p + [n + 1], list[n], scope);
    }
    if b.Ok? {
      WaryCompare(k, a, b.value);
    }
    FindPush(Wary(k), Late(k), p, a, list[..n], list[n], scope);
    assert list == list[..n] + [list[n]];
    assert AnyShows(list) ==> AnyShows(list[..n]) || Shows(list[n]);
    assert front != Ok(true);
  }

  lemma FindNone(env: Env, c: Clock, p: Path, a: Raw, list: seq<Expr>, scope: Scope)
    requires list == []
    ensures Find(env, c, p, a, list, scope) == Ok(false)
  {
  }

  lemma WaryCompare(k: nat, a: Raw, b: Raw)
    ensures Wary(k).compare(a, b, "=") == Refusal(Long(k, a) || Long(k, b), false)
  {
  }

  lemma {:induction false} CallFails(k: nat, p: Path, e: Expr, scope: Scope)
    requires e.Call? && Errs(e)
    ensures Eval(Wary(k), Late(k), p, e, scope).Err?
    decreases e, 0
  {
    hide Late, Upper;
    AllSpoilt(k, p, e.args, scope);
  }

  lemma {:induction false} AllSpoilt(k: nat, p: Path, es: seq<Expr>, scope: Scope)
    ensures AnyErrs(es) ==> EvalAll(Wary(k), Late(k), p, es, scope).Err?
    ensures var r := EvalAll(Wary(k), Late(k), p, es, scope); AnyShows(es) ==> r.Err? || AnyLong(k, r.value)
    decreases es, 0
  {
    hide Wary, Late;
    if es != [] {
      var n := |es| - 1;
      AllSpoilt(k, p, es[..n], scope);
      if Errs(es[n]) {
        ErrsFails(k, p + [n], es[n], scope);
      } else if Shows(es[n]) {
        ShowsSpoilt(k, p + [n], es[n], scope);
      }
      var front, r := EvalAll(Wary(k), Late(k), p, es[..n], scope), EvalAll(Wary(k), Late(k), p, es, scope);
      if r.Ok? && AnyLong(k, front.value) {
        var i :| 0 <= i < |front.value| && Long(k, front.value[i]);
        assert r.value[i] == front.value[i];
      }
      if r.Ok? && Shows(es[n]) {
        assert Long(k, r.value[|front.value|]);
      }
    }
  }

  // ----- with readings that are short, what can have a value has one

  function Max(a: nat, b: nat): nat {
    if a < b then b else a
  }

  /** The length of the longest text in the expression. */
  function Longest(e: Expr): nat
    decreases e, 0
  {
    match e
    case Val(v) => |v.text|
    case Binary(l, _, r) => Max(Longest(l), Longest(r))
    case And(l, r) => Max(Longest(l), Longest(r))
    case Or(l, r) => Max(Longest(l), Longest(r))
    case Not(x) => Longest(x)
    case In(l, list, _) => Max(Longest(l), LongestAll(list))
    case Between(x, lower, upper, _) => Max(Longest(x), Max(Longest(lower), Longest(upper)))
    case Cast(x, _) => Longest(x)
    case Call(_, args) => LongestAll(args)
    case _ => 0
  }

  function LongestAll(es: seq<Expr>): nat
    decreases es, 0
  {
    if es == [] then 0 else Max(LongestAll(es[..|es| - 1]), Longest(es[|es| - 1]))
  }

  /** No list search ends with a hit. */
  ghost predicate FindsNothing(env: Env) {
    forall a, b :: env.compare(a, b, "=") != Ok(true)
  }

  /** The value at hand was had with every part of the expression evaluated. */
  ghost predicate Reached(env: Env, e: Expr) {
    FindsNothing(env) || Listless(e)
  }

  /** Where `s` has a column, `t` has false. */
  ghost predicate Blanks(s: Scope, t: Scope) {
    forall table, name :: s(table, name).Ok? ==> t(table, name) == Ok(Bool(false))
  }

  /** The value in the wary environment, beside the value `v` in another. */
  predicate Stands(k: nat, e: Expr, v: Raw, r: Result<Raw>) {
    r.Ok? && !Long(k, r.value) && (r.value.Bool? || r.value == v || (IsVolatile(e) && v.Text? && r.value.Text?))
  }

  lemma {:induction false} Evaluates(env: Env, c: Clock, p: Path, s: Scope, k: nat, q: Path, t: Scope, e: Expr)
    requires Reached(env, e) && Eval(env, c, p, e, s).Ok? && Blanks(s, t) && Longest(e) <= k
    ensures Stands(k, e, Eval(env, c, p, e, s).value, Eval(Wary(k), EARLY, q, e, t))
    decreases e, 1
  {
    hide Apply, WithinBounds, Upper, Wary, Find, EvalAll, FindsNothing;
    match e
    case Val(v) => assert ToRaw(v).Text? ==> ToRaw(v).s == v.text;
    case Binary(l, op, r) =>
      Evaluates(env, c, p + [0], s, k, q + [0], t, l);
      Evaluates(env, c, p + [1], s, k, q + [1], t, r);
      WaryApply(k, op, Eval(Wary(k), EARLY, q + [0], l, t).value, Eval(Wary(k), EARLY, q + [1], r, t).value);
    case And(l, r) =>
      Tests(env, c, p + [0], s, k, q + [0], t, l);
      Tests(env, c, p + [1], s, k, q + [1], t, r);
    case Or(l, r) =>
      Tests(env, c, p + [0], s, k, q + [0], t, l);
      Tests(env, c, p + [1], s, k, q + [1], t, r);
    case Not(x) => Tests(env, c, p + [0], s, k, q + [0], t, x);
    case In(_, _, _) => EvaluatesIn(env, c, p, s, k, q, t, e);
    case Between(x, lower, upper, negated) =>
      Evaluates(env, c, p + [0], s, k, q + [0], t, x);
      Evaluates(env, c, p + [1], s, k, q + [1], t, lower);
      Evaluates(env, c, p + [2], s, k, q + [2], t, upper);
      WaryBounds(k, Eval(Wary(k), EARLY, q + [0], x, t).value, Eval(Wary(k), EARLY, q + [1], lower, t).value, Eval(Wary(k), EARLY, q + [2], upper, t).value, negated);
    case Cast(x, target) =>
      Evaluates(env, c, p + [0], s, k, q + [0], t, x);
      ShortCast(k, Eval(Wary(k), EARLY, q + [0], x, t).value, target);
    case Call(_, _) => EvaluatesCall(env, c, p, s, k, q, t, e);
    case Opaque(id, volatile) => ShortOther(k, q, id, volatile, t);
    case _ =>
  }

  lemma ShortCast(k: nat, a: Raw, target: string)
    requires !Long(k, a)
    ensures Wary(k).cast(a, target) == Ok(Bool(false))
  {
  }

  lemma ShortOther(k: nat, q: Path, id: nat, volatile: bool, t: Scope)
    ensures Wary(k).other(id, if volatile then EARLY(q) else Ok(""), t) == Ok(Bool(false))
  {
  }

  lemma {:induction false} Tests(env: Env, c: Clock, p: Path, s: Scope, k: nat, q: Path, t: Scope, e: Expr)
    requires Reached(env, e) && Test(env, c, p, e, s).Ok? && Blanks(s, t) && Longest(e) <= k
    ensures Test(Wary(k), EARLY, q, e, t).Ok?
    decreases e, 2
  {
    hide Eval, Wary, Longest, FindsNothing, Listless;
    if !e.Nil? {
      Evaluates(env, c, p, s, k, q, t, e);
      VolatileText(env, c, p, s, e);
    }
  }

  lemma VolatileText(env: Env, c: Clock, p: Path, s: Scope, e: Expr)
    ensures IsVolatile(e) && Eval(env, c, p, e, s).Ok? ==> Eval(env, c, p, e, s).value.Text?
  {
    hide Upper, EvalAll;
  }

  lemma {:induction false} EvaluatesIn(env: Env, c: Clock, p: Path, s: Scope, k: nat, q: Path, t: Scope, e: Expr)
    requires e.In? && Reached(env, e) && Eval(env, c, p, e, s).Ok? && Blanks(s, t) && Longest(e) <= k
    ensures Stands(k, e, Eval(env, c, p, e, s).value, Eval(Wary(k), EARLY, q, e, t))
    decreases e, 0
  {
    hide Wary, Find;
    Evaluates(env, c, p + [0], s, k, q + [0], t, e.left);
    Searches(env, c, p, s, k, q, t, Eval(env, c, p + [0], e.left, s).value, Eval(Wary(k), EARLY, q + [0], e.left, t).value, e.list);
  }

  lemma {:induction false} Searches(env: Env, c: Clock, p: Path, s: Scope, k: nat, q: Path, t: Scope, a: Raw, b: Raw, list: seq<Expr>)
    requires FindsNothing(env) && Find(env, c, p, a, list, s).Ok? && Blanks(s, t) && LongestAll(list) <= k && !Long(k, b)
    ensures Find(Wary(k), EARLY, q, b, list, t) == Ok(false)
    decreases list, 0
  {
    hide Wary, Eval;
    if list != [] {
      var n := |list| - 1;
      var front := Find(env, c, p, a, list[..n], s);
      Searches(env, c, p, s, k, q, t, a, b, list[..n]);
      NothingFound(env, c, p, a, list[..n], s);
      Evaluates(env, c, p + [n + 1], s, k, q + [n + 1], t, list[n]);
      WaryCompare(k, b, Eval(Wary(k), EARLY, q + [n + 1], list[n], t).value);
    }
  }

  lemma {:induction false} NothingFound(env: Env, c: Clock, p: Path, a: Raw, list: seq<Expr>, s: Scope)
    requires FindsNothing(env)
    ensures Find(env, c, p, a, list, s) != Ok(true)
  {
    if list != [] {
      NothingFound(env, c, p, a, list[..|list| - 1], s);
    }
  }

  lemma {:induction false} EvaluatesCall(env: Env, c: Clock, p: Path, s: Scope, k: nat, q: Path, t: Scope, e: Expr)
    requires e.Call? && Reached(env, e) && Eval(env, c, p, e, s).Ok? && Blanks(s, t) && Longest(e) <= k
    ensures Stands(k, e, Eval(env, c, p, e, s).value, Eval(Wary(k), EARLY, q, e, t))
    decreases e, 0
  {
    hide Upper, EvalAll;
    EvaluatesAll(env, c, p, s, k, q, t, e.args);
  }

  lemma {:induction false} EvaluatesAll(env: Env, c: Clock, p: Path, s: Scope, k: nat, q: Path, t: Scope, es: seq<Expr>)
    requires (FindsNothing(env) || AllListless(es)) && EvalAll(env, c, p, es, s).Ok? && Blanks(s, t) && LongestAll(es) <= k
    ensures EvalAll(Wary(k), EARLY, q, es, t).Ok? && !AnyLong(k, EvalAll(Wary(k), EARLY, q, es, t).value)
    decreases es, 0
  {
    hide Wary, Eval, FindsNothing;
    if es != [] {
      var n := |es| - 1;
      EvaluatesAll(env, c, p, s, k, q, t, es[..n]);
      Evaluates(env, c, p + [n], s, k, q + [n], t, es[n]);
      var front, all := EvalAll(Wary(k), EARLY, q, es[..n], t).value, EvalAll(Wary(k), EARLY, q, es, t).value;
      assert forall i :: 0 <= i < |front| ==> all[i] == front[i];
    }
  }

  // ----- exactly when a reading shows

  /** The expression has a value somewhere, with every part of it evaluated. */
  ghost predicate HasValue(e: Expr) {
    exists env, c, p, s :: Reached(env, e) && Eval(env, c, p, e, s).Ok?
  }

  /** The outcome is one under all readable clocks, in every environment and on every row. */
  ghost predicate Settled(e: Expr) {
    forall env, c1: Clock, c2: Clock, p, scope | Readable(c1) && Readable(c2) :: Eval(env, c1, p, e, scope) == Eval(env, c2, p, e, scope)
  }

  const BLANK: Scope := (table: string, name: string) => Ok(Bool(false))

  /** For clocks that can always be read: an expression that can have a value has one outcome in every
      environment exactly when no reading gets to where it can be seen. */
  lemma SettledIff(e: Expr)
    requires HasValue(e)
    ensures Settled(e) <==> !Shows(e)
  {
    hide Eval, Errs, Longest;
    if !Shows(e) {
      forall env, c1: Clock, c2: Clock, p, scope | Readable(c1) && Readable(c2) ensures Eval(env, c1, p, e, scope) == Eval(env, c2, p, e, scope) {
        NotShown(env, c1, c2, p, e, scope);
      }
    } else {
      var k := Longest(e);
      var env, c, p, s :| Reached(env, e) && Eval(env, c, p, e, s).Ok?;
      Evaluates(env, c, p, s, k, [], BLANK, e);
      ShowsSpoilt(k, [], e, BLANK);
      assert Readable(EARLY) && Readable(Late(k));
      assert Eval(Wary(k), EARLY, [], e, BLANK) != Eval(Wary(k), Late(k), [], e, BLANK);
    }
  }

  // ----- frozen expressions

  /** Whether a volatile call stands where freezing does not go, and its reading can be seen. */
  predicate Drifts(e: Expr)
    decreases e, 0
  {
    match e
    case Nil => false
    case Val(_) => false
    case Col(_, _) => false
    case Binary(l, _, r) => Drifts(l) || Drifts(r)
    case And(l, r) => Drifts(l) || Drifts(r)
    case Or(l, r) => Drifts(l) || Drifts(r)
    case Not(x) => Drifts(x)
    case In(l, list, _) => Drifts(l) || AnyDrifts(list)
    case Between(_, _, _, _) => Errs(e)
    case Cast(_, _) => Errs(e)
    case Call(_, args) => !IsVolatile(e) && AnyDrifts(args)
    case Param(_) => false
    case Opaque(_, volatile) => volatile
  }

  predicate AnyDrifts(es: seq<Expr>)
    decreases es, 0
  {
    es != [] && (AnyDrifts(es[..|es| - 1]) || Drifts(es[|es| - 1]))
  }

  lemma {:induction false} FrozenShowsIff(env: Env, c: Clock, p: Path, e: Expr)
    requires Freeze(env, c, p, e).Ok?
    ensures var f := Freeze(env, c, p, e).value; !IsVolatile(f) && (Shows(f) <==> Drifts(e))
    decreases e, 0
  {
    hide Eval, Upper;
    match e
    case Binary(l, _, r) =>
      FrozenShowsIff(env, c, p + [0], l);
      FrozenShowsIff(env, c, p + [1], r);
    case And(l, r) =>
      FrozenShowsIff(env, c, p + [0], l);
      FrozenShowsIff(env, c, p + [1], r);
    case Or(l, r) =>
      FrozenShowsIff(env, c, p + [0], l);
      FrozenShowsIff(env, c, p + [1], r);
    case Not(x) => FrozenShowsIff(env, c, p + [0], x);
    case In(l, list, _) =>
      FrozenShowsIff(env, c, p + [0], l);
      AllFrozenShowsIff(env, c, p, 1, list);
    case Call(_, args) =>
      if !IsVolatile(e) {
        AllFrozenShowsIff(env, c, p, 0, args);
      }
    case _ =>
  }

  lemma {:induction false} AllFrozenShowsIff(env: Env, c: Clock, p: Path, first: nat, es: seq<Expr>)
    requires FreezeAll(env, c, p, first, es).Ok?
    ensures AnyShows(FreezeAll(env, c, p, first, es).value) <==> AnyDrifts(es)
    decreases es, 0
  {
    hide Freeze;
    if es != [] {
      var n, fs := |es| - 1, FreezeAll(env, c, p, first, es).value;
      AllFrozenShowsIff(env, c, p, first, es[..n]);
      FrozenShowsIff(env, c, p + [first + n], es[n]);
      assert fs[..n] == FreezeAll(env, c, p, first, es[..n]).value;
    }
  }

  /** For clocks that can always be read: a frozen expression that can have a value has one outcome in
      every environment exactly when no volatile call was sheltered where its reading can be seen. */
  lemma FrozenSettledIff(env: Env, c: Clock, p: Path, e: Expr)
    requires Freeze(env, c, p, e).Ok? && HasValue(Freeze(env, c, p, e).value)
    ensures Settled(Freeze(env, c, p, e).value) <==> !Drifts(e)
  {
    hide Freeze, Shows, Drifts;
    FrozenShowsIff(env, c, p, e);
    SettledIff(Freeze(env, c, p, e).value);
  }

  /** Such a call is sheltered; but a sheltered call is not always one: in `(NOW() IS NULL) BETWEEN a AND
      b` the reading is not looked at. */
  lemma {:induction false} DriftsSheltered(e: Expr)
    requires Drifts(e)
    ensures Sheltered(e)
    decreases e, 0
  {
    match e
    case Binary(l, _, r) => if Drifts(l) { DriftsSheltered(l); } else { DriftsSheltered(r); }
    case And(l, r) => if Drifts(l) { DriftsSheltered(l); } else { DriftsSheltered(r); }
    case Or(l, r) => if Drifts(l) { DriftsSheltered(l); } else { DriftsSheltered(r); }
    case Not(x) => DriftsSheltered(x);
    case In(l, list, _) => if Drifts(l) { DriftsSheltered(l); } else { AnyDriftsSheltered(list); }
    case Between(_, _, _, _) => ErrsVolatile(e);
    case Cast(_, _) => ErrsVolatile(e);
    case Call(_, args) => AnyDriftsSheltered(args);
    case _ =>
  }

  lemma {:induction false} AnyDriftsSheltered(es: seq<Expr>)
    requires AnyDrifts(es)
    ensures AnySheltered(es)
    decreases es, 0
  {
    if AnyDrifts(es[..|es| - 1]) {
      AnyDriftsSheltered(es[..|es| - 1]);
    } else {
      DriftsSheltered(es[|es| - 1]);
    }
  }

  lemma {:induction false} ErrsVolatile(e: Expr)
    requires Errs(e)
    ensures Volatile(e)
    decreases e, 0
  {
    match e
    case Binary(l, _, r) => if Shows(l) { ShowsVolatile(l); } else { ShowsVolatile(r); }
    case And(l, r) => if Errs(l) { ErrsVolatile(l); } else { ErrsVolatile(r); }
    case Or(l, r) => if Errs(l) { ErrsVolatile(l); } else { ErrsVolatile(r); }
    case Not(x) => ErrsVolatile(x);
    case In(l, list, _) => if Shows(l) { ShowsVolatile(l); } else { AnyShowsVolatile(list); }
    case Between(x, lower, upper, _) => if Shows(x) { ShowsVolatile(x); } else if Shows(lower) { ShowsVolatile(lower); } else { ShowsVolatile(upper); }
    case Cast(x, _) => ShowsVolatile(x);
    case Call(_, args) =>
      if !IsVolatile(e) {
        AnyShowsVolatile(args);
      }
    case _ =>
  }

  lemma {:induction false} ShowsVolatile(e: Expr)
    requires Shows(e)
    ensures Volatile(e)
    decreases e, 1
  {
    if Errs(e) {
      ErrsVolatile(e);
    }
  }

  lemma {:induction false} AnyShowsVolatile(es: seq<Expr>)
    requires AnyShows(es)
    ensures AnyVolatile(es)
    decreases es, 0
  {
    if AnyShows(es[..|es| - 1]) {
      AnyShowsVolatile(es[..|es| - 1]);
    } else {
      ShowsVolatile(es[|es| - 1]);
    }
  }

  lemma NullTestSheltered(low: Value, high: Value)
    ensures var e := Between(Binary(Call("NOW", []), IsOp, Val(NULL_VAL)), Val(low), Val(high), false); Sheltered(e) && !Drifts(e)
  {
    var now, none := Call("NOW", []), Val(NULL_VAL);
    assert Upper("NOW") == "NOW" && IsVolatile(now) && Volatile(now);
    assert !AnyErrs(now.args) && !Errs(now) && !Errs(none);
    var test := Binary(now, IsOp, none);
    var e := Between(test, Val(low), Val(high), false);
    assert Volatile(test) && !Errs(test) && !Shows(test) && !Shows(Val(low)) && !Shows(Val(high));
    assert Volatile(e) && !Errs(e);
  }
}
