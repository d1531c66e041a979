/** Correlated subqueries: the outer row's values are written into the subquery's condition. */
module Correlation {
  import opened Ast
  import opened Evaluation
  import opened Freezing
  import opened Results
  import opened Text

  /** Whether `injectOuterColumns` takes a reference by `name` for this outer column. */
  predicate Claims(column: string, name: string) {
    SameFold(column, name) || (DotIn(column) && SameFold(AfterDot(column), name))
  }

  /** The outer value a name stands for: that of the first column that claims it. */
  function Outer(columns: seq<string>, row: Row, name: string, i: nat := 0): Option<Raw>
    requires i <= |columns|
    decreases |columns| - i
  {
    if i == |columns| then None
    else if i < |row| && Claims(columns[i], name) then Some(row[i])
    else Outer(columns, row, name, i + 1)
  }

  /** The literal an outer value becomes; what has no literal type is printed, NULL as "<nil>". */
  function Written(r: Raw): Value {
    match r
    case Int(i) => IntVal(i)
    case Float(f) => FloatVal(f)
    case Text(s) => TextVal(s)
    case Bool(b) => BoolVal(b)
    case Null => TextVal("<nil>")
    case Other(shown) => TextVal(shown)
  }

  /** `injectOuterColumns`. */
  function Inject(e: Expr, row: Row, columns: seq<string>): Expr
    decreases e, 0
  {
    match e
    case Binary(l, op, r) => Binary(Inject(l, row, columns), op, Inject(r, row, columns))
    case And(l, r) => And(Inject(l, row, columns), Inject(r, row, columns))
    case Or(l, r) => Or(Inject(l, row, columns), Inject(r, row, columns))
    case Not(x) => Not(Inject(x, row, columns))
    case Col(_, name) => if Outer(columns, row, name).Some? then Val(Written(Outer(columns, row, name).value)) else e
    case In(l, list, negated) => In(Inject(l, row, columns), InjectAll(list, row, columns), negated)
    case Call(name, args) => Call(name, InjectAll(args, row, columns))
    case _ => e
  }

  function InjectAll(es: seq<Expr>, row: Row, columns: seq<string>): seq<Expr>
    decreases es, 0
  {
    if es == [] then [] else InjectAll(es[..|es| - 1], row, columns) + [Inject(es[|es| - 1], row, columns)]
  }

  // ----- scopes

  /** Columns mean the outer row where it has them, and the subquery's own row elsewhere. */
  function OuterFirst(inner: Scope, row: Row, columns: seq<string>): Scope {
    (table: string, name: string) =>
      if Outer(columns, row, name).Some? then Ok(ToRaw(Written(Outer(columns, row, name).value))) else inner(table, name)
  }

  /** Columns mean the subquery's own row where it has them: the usual SQL rule. */
  function InnerFirst(inner: Scope, row: Row, columns: seq<string>): Scope {
    (table: string, name: string) =>
      if inner(table, name).Ok? || Outer(columns, row, name).None? then inner(table, name)
      else Ok(Outer(columns, row, name).value)
  }

  function ColumnsOf(e: Expr): set<(string, string)>
    decreases e, 0
  {
    match e
    case Nil => {}
    case Val(_) => {}
    case Col(table, name) => {(table, name)}
    case Binary(l, _, r) => ColumnsOf(l) + ColumnsOf(r)
    case And(l, r) => ColumnsOf(l) + ColumnsOf(r)
    case Or(l, r) => ColumnsOf(l) + ColumnsOf(r)
    case Not(x) => ColumnsOf(x)
    case In(l, list, _) => ColumnsOf(l) + ColumnsOfAll(list)
    case Between(x, lower, upper, _) => ColumnsOf(x) + ColumnsOf(lower) + ColumnsOf(upper)
    case Cast(x, _) => ColumnsOf(x)
    case Call(_, args) => ColumnsOfAll(args)
    case Param(_) => {}
    case Opaque(_, _) => {}
  }

  function ColumnsOfAll(es: seq<Expr>): set<(string, string)>
    decreases es, 0
  {
    if es == [] then {} else ColumnsOfAll(es[..|es| - 1]) + ColumnsOf(es[|es| - 1])
  }

  ghost predicate Agree(columns: set<(string, string)>, s: Scope, t: Scope) {
    forall c :: c in columns ==> s(c.0, c.1) == t(c.0, c.1)
  }

  /** The value depends on the scope only through the columns that occur. */
  lemma {:induction false} ScopesAgree(env: Env, c: Clock, p: Path, e: Expr, s: Scope, t: Scope)
    requires Plain(e) && Agree(ColumnsOf(e), s, t)
    ensures Eval(env, c, p, e, s) == Eval(env, c, p, e, t)
    decreases e, 0
  {
    match e
    case Col(table, name) => assert (table, name) in ColumnsOf(e);
    case Binary(l, _, r) =>
      ScopesAgree(env, c, p + [0], l, s, t);
      ScopesAgree(env, c, p + [1], r, s, t);
    case And(l, r) =>
      ScopesAgree(env, c, p + [0], l, s, t);
      ScopesAgree(env, c, p + [1], r, s, t);
    case Or(l, r) =>
      ScopesAgree(env, c, p + [0], l, s, t);
      ScopesAgree(env, c, p + [1], r, s, t);
    case Not(x) => ScopesAgree(env, c, p + [0], x, s, t);
    case In(l, list, _) =>
      ScopesAgree(env, c, p + [0], l, s, t);
      if Eval(env, c, p + [0], l, s).Ok? {
        ScopesAgreeFind(env, c, p, Eval(env, c, p + [0], l, s).value, list, s, t);
      }
    case Between(x, lower, upper, _) =>
      ScopesAgree(env, c, p + [0], x, s, t);
      ScopesAgree(env, c, p + [1], lower, s, t);
      ScopesAgree(env, c, p + [2], upper, s, t);
    case Cast(x, _) => ScopesAgree(env, c, p + [0], x, s, t);
    case Call(_, args) => ScopesAgreeAll(env, c, p, args, s, t);
    case _ =>
  }

  lemma {:induction false} ScopesAgreeAll(env: Env, c: Clock, p: Path, es: seq<Expr>, s: Scope, t: Scope)
    requires AllPlain(es) && Agree(ColumnsOfAll(es), s, t)
    ensures EvalAll(env, c, p, es, s) == EvalAll(env, c, p, es, t)
    decreases es, 0
  {
    if es != [] {
      ScopesAgreeAll(env, c, p, es[..|es| - 1], s, t);
      ScopesAgree(env, c, p + [|es| - 1], es[|es| - 1], s, t);
    }
  }

  lemma {:induction false} ScopesAgreeFind(env: Env, c: Clock, p: Path, a: Raw, es: seq<Expr>, s: Scope, t: Scope)
    requires AllPlain(es) && Agree(ColumnsOfAll(es), s, t)
    ensures Find(env, c, p, a, es, s) == Find(env, c, p, a, es, t)
    decreases es, 0
  {
    if es != [] {
      ScopesAgreeFind(env, c, p, a, es[..|es| - 1], s, t);
      ScopesAgree(env, c, p + [|es|], es[|es| - 1], s, t);
    }
  }

  // ----- the substitution

  /** An outer column is used where the rewriting does not go: under BETWEEN or CAST. */
  ghost predicate Hidden(e: Expr, row: Row, columns: seq<string>)
    decreases e, 0
  {
    match e
    case Binary(l, _, r) => Hidden(l, row, columns) || Hidden(r, row, columns)
    case And(l, r) => Hidden(l, row, columns) || Hidden(r, row, columns)
    case Or(l, r) => Hidden(l, row, columns) || Hidden(r, row, columns)
    case Not(x) => Hidden(x, row, columns)
    case In(l, list, _) => Hidden(l, row, columns) || AnyHidden(list, row, columns)
    case Call(_, args) => AnyHidden(args, row, columns)
    case Between(_, _, _, _) => UsesOuter(e, row, columns)
    case Cast(_, _) => UsesOuter(e, row, columns)
    case _ => false
  }

  ghost predicate AnyHidden(es: seq<Expr>, row: Row, columns: seq<string>)
    decreases es, 0
  {
    es != [] && (AnyHidden(es[..|es| - 1], row, columns) || Hidden(es[|es| - 1], row, columns))
  }

  ghost predicate UsesOuter(e: Expr, row: Row, columns: seq<string>) {
    exists c :: c in ColumnsOf(e) && Outer(columns, row, c.1).Some?
  }

  /** After the rewriting the outer row is used no more, except where it was hidden. */
  lemma {:induction false} InjectedUsesOuterIff(e: Expr, row: Row, columns: seq<string>)
    ensures UsesOuter(Inject(e, row, columns), row, columns) <==> Hidden(e, row, columns)
    decreases e, 0
  {
    hide Outer, Written;
    match e
    case Binary(l, _, r) => InjectedUsesOuterIff(l, row, columns); InjectedUsesOuterIff(r, row, columns);
    case And(l, r) => InjectedUsesOuterIff(l, row, columns); InjectedUsesOuterIff(r, row, columns);
    case Or(l, r) => InjectedUsesOuterIff(l, row, columns); InjectedUsesOuterIff(r, row, columns);
    case Not(x) => InjectedUsesOuterIff(x, row, columns);
    case In(l, list, _) => InjectedUsesOuterIff(l, row, columns); AllInjectedUsesOuterIff(list, row, columns);
    case Call(_, args) => AllInjectedUsesOuterIff(args, row, columns);
    case _ =>
  }

  lemma {:induction false} AllInjectedUsesOuterIff(es: seq<Expr>, row: Row, columns: seq<string>)
    ensures (exists c :: c in ColumnsOfAll(InjectAll(es, row, columns)) && Outer(columns, row, c.1).Some?) <==> AnyHidden(es, row, columns)
    decreases es, 0
  {
    if es != [] {
      var n, all := |es| - 1, InjectAll(es, row, columns);
      AllInjectedUsesOuterIff(es[..n], row, columns);
      InjectedUsesOuterIff(es[n], row, columns);
      assert all[..|all| - 1] == InjectAll(es[..n], row, columns);
    }
  }

  /** The rewritten condition, evaluated on the subquery's rows alone, means the condition with
      the outer row in scope first. */
  lemma {:induction false} InjectMeaning(env: Env, c: Clock, p: Path, e: Expr, inner: Scope, row: Row, columns: seq<string>)
    requires Plain(e) && !Hidden(e, row, columns)
    ensures Eval(env, c, p, Inject(e, row, columns), inner) == Eval(env, c, p, e, OuterFirst(inner, row, columns))
    ensures Inject(e, row, columns).Nil? <==> e.Nil?
    decreases e, 0
  {
    hide Apply, WithinBounds, ToRaw, Written, Outer;
    match e
    case Binary(l, _, r) =>
      InjectMeaning(env, c, p + [0], l, inner, row, columns);
      InjectMeaning(env, c, p + [1], r, inner, row, columns);
    case And(l, r) =>
      InjectMeaning(env, c, p + [0], l, inner, row, columns);
      InjectMeaning(env, c, p + [1], r, inner, row, columns);
    case Or(l, r) =>
      InjectMeaning(env, c, p + [0], l, inner, row, columns);
      InjectMeaning(env, c, p + [1], r, inner, row, columns);
    case Not(x) => InjectMeaning(env, c, p + [0], x, inner, row, columns);
    case In(l, list, _) =>
      InjectMeaning(env, c, p + [0], l, inner, row, columns);
      var a := Eval(env, c, p + [0], l, OuterFirst(inner, row, columns));
      if a.Ok? {
        InjectMeaningFind(env, c, p, a.value, list, inner, row, columns);
      }
    case Call(_, args) => InjectMeaningAll(env, c, p, args, inner, row, columns);
    case Between(_, _, _, _) => ScopesAgree(env, c, p, e, inner, OuterFirst(inner, row, columns));
    case Cast(_, _) => ScopesAgree(env, c, p, e, inner, OuterFirst(inner, row, columns));
    case _ =>
  }

  lemma {:induction false} InjectMeaningAll(env: Env, c: Clock, p: Path, es: seq<Expr>, inner: Scope, row: Row, columns: seq<string>)
    requires AllPlain(es) && !AnyHidden(es, row, columns)
    ensures EvalAll(env, c, p, InjectAll(es, row, columns), inner) == EvalAll(env, c, p, es, OuterFirst(inner, row, columns))
    ensures |InjectAll(es, row, columns)| == |es|
    decreases es, 0
  {
    if es != [] {
      var n := |es| - 1;
      InjectMeaningAll(env, c, p, es[..n], inner, row, columns);
      InjectMeaning(env, c, p + [n], es[n], inner, row, columns);
      EvalAllPush(env, c, p, InjectAll(es[..n], row, columns), Inject(es[n], row, columns), inner);
    }
  }

  lemma {:induction false} InjectMeaningFind(env: Env, c: Clock, p: Path, a: Raw, es: seq<Expr>, inner: Scope, row: Row, columns: seq<string>)
    requires AllPlain(es) && !AnyHidden(es, row, columns)
    ensures Find(env, c, p, a, InjectAll(es, row, columns), inner) == Find(env, c, p, a, es, OuterFirst(inner, row, columns))
    ensures |InjectAll(es, row, columns)| == |es|
    decreases es, 0
  {
    if es != [] {
      var n := |es| - 1;
      InjectMeaningFind(env, c, p, a, es[..n], inner, row, columns);
      InjectMeaning(env, c, p + [n + 1], es[n], inner, row, columns);
      FindPush(env, c, p, a, InjectAll(es[..n], row, columns), Inject(es[n], row, columns), inner);
    }
  }

  // ----- what the rewriting gets wrong, and when not

  /** An outer value is passed on unchanged exactly when it has a literal type: NULL has not. */
  lemma WrittenKeeps(r: Raw)
    ensures ToRaw(Written(r)) == r <==> r.Int? || r.Float? || r.Text? || r.Bool?
    ensures r.Null? ==> ToRaw(Written(r)) == Text("<nil>")
  {
  }

  /** No name is both an outer and an inner column, and outer values have literal types. */
  ghost predicate Unambiguous(e: Expr, inner: Scope, row: Row, columns: seq<string>) {
    forall c :: c in ColumnsOf(e) && Outer(columns, row, c.1).Some? ==>
      inner(c.0, c.1).Err? && ToRaw(Written(Outer(columns, row, c.1).value)) == Outer(columns, row, c.1).value
  }

  /** Under the usual scope rule the rewritten condition keeps its meaning when no name is
      ambiguous. */
  lemma InjectMeaningUsual(env: Env, c: Clock, p: Path, e: Expr, inner: Scope, row: Row, columns: seq<string>)
    requires Plain(e) && !Hidden(e, row, columns) && Unambiguous(e, inner, row, columns)
    ensures Eval(env, c, p, Inject(e, row, columns), inner) == Eval(env, c, p, e, InnerFirst(inner, row, columns))
  {
    InjectMeaning(env, c, p, e, inner, row, columns);
    ScopesAgree(env, c, p, e, OuterFirst(inner, row, columns), InnerFirst(inner, row, columns));
  }

  // ----- the same by names

  /** A subquery's own table: its columns, and no OLD or NEW row around. */
  datatype Inner = Inner(index: map<string, nat>, columns: seq<string>) {
    function On(row: Row): Scope {
      RowScope(Context(index, None, None), row, Some(columns))
    }

    predicate Knows(name: string) {
      (Lower(name) in index && index[Lower(name)] < |columns|) || exists i :: 0 <= i < |columns| && Reaches(columns[i], name)
    }

    /** Whether the table has the column. */
    predicate Has(table: string, name: string) {
      (table != "" && Knows(table + "." + name)) || Knows(name)
    }
  }

  predicate Claimed(columns: seq<string>, name: string) {
    exists i :: 0 <= i < |columns| && Claims(columns[i], name)
  }

  predicate Literal(r: Raw) {
    r.Int? || r.Float? || r.Text? || r.Bool?
  }

  predicate AllLiteral(row: Row) {
    forall i :: 0 <= i < |row| ==> Literal(row[i])
  }

  /** No column of the condition is a name of both rows. */
  ghost predicate NamesApart(e: Expr, inner: Inner, columns: seq<string>) {
    forall c :: c in ColumnsOf(e) ==> !Claimed(columns, c.1) || !inner.Has(c.0, c.1)
  }

  /** On the columns of `e`, what the rewriting finds in the two rows is what the usual rule finds. */
  ghost predicate ScopesMatch(e: Expr, inner: Inner, own: Row, columns: seq<string>, row: Row) {
    Agree(ColumnsOf(e), OuterFirst(inner.On(own), row, columns), InnerFirst(inner.On(own), row, columns))
  }

  lemma {:induction false} OuterByName(columns: seq<string>, row: Row, name: string, i: nat)
    requires |row| == |columns| && i <= |columns|
    ensures Outer(columns, row, name, i).Some? <==> exists k :: i <= k < |columns| && Claims(columns[k], name)
    ensures Outer(columns, row, name, i).Some? ==> Outer(columns, row, name, i).value in row
    decreases |columns| - i
  {
    if i < |columns| {
      OuterByName(columns, row, name, i + 1);
      assert row[i] in row;
    }
  }

  lemma {:induction false} ScanByName(columns: seq<string>, row: Row, name: string, i: nat)
    requires |row| == |columns| && i <= |columns|
    ensures Scan(columns, row, name, i).Ok? <==> exists k :: i <= k < |columns| && Reaches(columns[k], name)
    ensures Scan(columns, row, name, i).Ok? ==> Scan(columns, row, name, i).value in row
    decreases |columns| - i
  {
    if i < |columns| {
      ScanByName(columns, row, name, i + 1);
      assert row[i] in row;
    }
  }

  lemma InnerByName(inner: Inner, row: Row, table: string, name: string)
    requires |row| == |inner.columns|
    ensures inner.On(row)(table, name).Ok? <==> inner.Has(table, name)
    ensures inner.On(row)(table, name).Ok? ==> inner.On(row)(table, name).value in row
  {
    ScanByName(inner.columns, row, name, 0);
    ScanByName(inner.columns, row, table + "." + name, 0);
  }

  lemma ScopesMatchApart(e: Expr, inner: Inner, own: Row, columns: seq<string>, row: Row)
    requires NamesApart(e, inner, columns) && |own| == |inner.columns| && |row| == |columns| && AllLiteral(row)
    ensures ScopesMatch(e, inner, own, columns, row) && Unambiguous(e, inner.On(own), row, columns)
  {
    forall c | c in ColumnsOf(e) && Outer(columns, row, c.1).Some?
      ensures inner.On(own)(c.0, c.1).Err? && ToRaw(Written(Outer(columns, row, c.1).value)) == Outer(columns, row, c.1).value
    {
      OuterByName(columns, row, c.1, 0);
      InnerByName(inner, own, c.0, c.1);
    }
  }

  /** A name of both rows is found in the wrong one as soon as the two rows differ. */
  lemma ScopesDiffer(e: Expr, inner: Inner, columns: seq<string>, c: (string, string))
    requires c in ColumnsOf(e) && Claimed(columns, c.1) && inner.Has(c.0, c.1)
    ensures var own, row := seq(|inner.columns|, i => Int(1)), seq(|columns|, i => Int(2));
      AllLiteral(row) && !ScopesMatch(e, inner, own, columns, row)
  {
    var own: Row, row: Row := seq(|inner.columns|, i => Int(1)), seq(|columns|, i => Int(2));
    OuterByName(columns, row, c.1, 0);
    InnerByName(inner, own, c.0, c.1);
    assert OuterFirst(inner.On(own), row, columns)(c.0, c.1) == Ok(Int(2));
    assert InnerFirst(inner.On(own), row, columns)(c.0, c.1) == Ok(Int(1));
  }

  /** Looking at the outer row first finds what the usual rule finds, for all rows with literal
      types in the outer one, exactly when no name is a name of both rows. */
  lemma ScopesMatchIff(e: Expr, inner: Inner, columns: seq<string>)
    ensures (forall own: Row, row: Row :: |own| == |inner.columns| && |row| == |columns| && AllLiteral(row) ==>
               ScopesMatch(e, inner, own, columns, row)) <==> NamesApart(e, inner, columns)
  {
    if NamesApart(e, inner, columns) {
      forall own: Row, row: Row | |own| == |inner.columns| && |row| == |columns| && AllLiteral(row)
        ensures ScopesMatch(e, inner, own, columns, row)
      {
        ScopesMatchApart(e, inner, own, columns, row);
      }
    } else {
      var c :| c in ColumnsOf(e) && Claimed(columns, c.1) && inner.Has(c.0, c.1);
      ScopesDiffer(e, inner, columns, c);
    }
  }

  /** A column keeps its usual meaning under the rewriting, for all rows with literal types in the
      outer one, exactly when no outer column has the name or the subquery's table has not; and for
      all rows whatever, exactly when no outer column has it. */
  lemma ColumnKeptIff(env: Env, c: Clock, p: Path, table: string, name: string, inner: Inner, columns: seq<string>)
    ensures (forall own: Row, row: Row :: |own| == |inner.columns| && |row| == |columns| && AllLiteral(row) ==>
               ColumnKept(env, c, p, table, name, inner, own, columns, row)) <==> !Claimed(columns, name) || !inner.Has(table, name)
    ensures (forall own: Row, row: Row :: |own| == |inner.columns| && |row| == |columns| ==>
               ColumnKept(env, c, p, table, name, inner, own, columns, row)) <==> !Claimed(columns, name)
  {
    var e := Col(table, name);
    forall own: Row, row: Row | |own| == |inner.columns| && |row| == |columns|
      ensures ColumnKept(env, c, p, table, name, inner, own, columns, row) <==> ScopesMatch(e, inner, own, columns, row)
      ensures !Claimed(columns, name) ==> ScopesMatch(e, inner, own, columns, row)
    {
      ColumnByScopes(env, c, p, table, name, inner, own, columns, row);
      OuterByName(columns, row, name, 0);
    }
    ScopesMatchIff(e, inner, columns);
    assert NamesApart(e, inner, columns) <==> !Claimed(columns, name) || !inner.Has(table, name) by {
      assert (table, name) in ColumnsOf(e);
    }
    if Claimed(columns, name) {
      NullNotKept(table, name, inner, columns);
    }
  }

  ghost predicate ColumnKept(env: Env, c: Clock, p: Path, table: string, name: string, inner: Inner, own: Row, columns: seq<string>, row: Row) {
    Eval(env, c, p, Inject(Col(table, name), row, columns), inner.On(own))
      == Eval(env, c, p, Col(table, name), InnerFirst(inner.On(own), row, columns))
  }

  lemma ColumnByScopes(env: Env, c: Clock, p: Path, table: string, name: string, inner: Inner, own: Row, columns: seq<string>, row: Row)
    ensures ColumnKept(env, c, p, table, name, inner, own, columns, row) <==> ScopesMatch(Col(table, name), inner, own, columns, row)
  {
    InjectMeaning(env, c, p, Col(table, name), inner.On(own), row, columns);
    assert (table, name) in ColumnsOf(Col(table, name));
  }

  /** With NULL in both rows, an outer name always comes out wrong: as the text "<nil>". */
  lemma NullNotKept(table: string, name: string, inner: Inner, columns: seq<string>)
    requires Claimed(columns, name)
    ensures var own: Row, row: Row := seq(|inner.columns|, i => Null), seq(|columns|, i => Null);
      !ScopesMatch(Col(table, name), inner, own, columns, row)
  {
    var own: Row, row: Row := seq(|inner.columns|, i => Null), seq(|columns|, i => Null);
    OuterByName(columns, row, name, 0);
    InnerByName(inner, own, table, name);
    assert (table, name) in ColumnsOf(Col(table, name));
    assert OuterFirst(inner.On(own), row, columns)(table, name) == Ok(Text("<nil>"));
    assert InnerFirst(inner.On(own), row, columns)(table, name) == Ok(Null);
  }

  /** Under the usual scope rule a whole condition keeps its meaning, for all such rows, when no name
      is a name of both and none is hidden. */
  lemma InjectMeaningByNames(env: Env, c: Clock, p: Path, e: Expr, inner: Inner, own: Row, columns: seq<string>, row: Row)
    requires Plain(e) && !Hidden(e, row, columns) && NamesApart(e, inner, columns)
    requires |own| == |inner.columns| && |row| == |columns| && AllLiteral(row)
    ensures Eval(env, c, p, Inject(e, row, columns), inner.On(own)) == Eval(env, c, p, e, InnerFirst(inner.On(own), row, columns))
  {
    ScopesMatchApart(e, inner, own, columns, row);
    InjectMeaningUsual(env, c, p, e, inner.On(own), row, columns);
  }

  // ----- two conditions that go wrong

  /** `inner.id = outer.id`: qualifiers are ignored, so the outer value is compared with itself and
      the subquery's own row is not looked at. */
  lemma QualifiersIgnored(env: Env, c: Clock, p: Path, own: Raw, outer: Raw, inner: Scope, byQualifier: Scope)
    requires Literal(outer) && byQualifier("inner", "id") == Ok(own) && byQualifier("outer", "id") == Ok(outer)
    ensures var e := Binary(Col("inner", "id"), Infix("="), Col("outer", "id"));
      && Eval(env, c, p, Inject(e, [outer], ["id"]), inner) == AsBool(env.compare(outer, outer, "="))
      && Eval(env, c, p, e, byQualifier) == AsBool(env.compare(own, outer, "="))
  {
    var l, r := Col("inner", "id"), Col("outer", "id");
    assert Outer(["id"], [outer], "id") == Some(outer);
    assert Inject(l, [outer], ["id"]) == Val(Written(outer)) == Inject(r, [outer], ["id"]);
    WrittenKeeps(outer);
    assert Eval(env, c, p + [0], l, byQualifier) == Ok(own) && Eval(env, c, p + [1], r, byQualifier) == Ok(outer);
  }

  /** `x BETWEEN 0 AND hi` with `hi` from the outer row: the rewriting leaves it, and the subquery
      fails on a column it does not have. */
  lemma BetweenNotRewritten(env: Env, c: Clock, p: Path, x: Raw, hi: Raw)
    ensures var e := Between(Col("", "x"), Val(IntVal(0)), Col("", "hi"), false);
      var scope := Inner(map[], ["x"]).On([x]);
      && Eval(env, c, p, Inject(e, [hi], ["hi"]), scope).Err?
      && Eval(env, c, p, e, InnerFirst(scope, [hi], ["hi"])) == WithinBounds(env, x, Int(0), hi, false)
  {
    var scope := Inner(map[], ["x"]).On([x]);
    var usual := InnerFirst(scope, [hi], ["hi"]);
    NamesDiffer();
    assert scope("", "x") == Ok(x) && scope("", "hi").Err?;
    assert Outer(["hi"], [hi], "hi") == Some(hi);
    assert Eval(env, c, p + [0], Col("", "x"), usual) == Ok(x);
    assert Eval(env, c, p + [1], Val(IntVal(0)), usual) == Ok(Int(0));
    assert Eval(env, c, p + [2], Col("", "hi"), usual) == Ok(hi);
    assert Eval(env, c, p + [2], Col("", "hi"), scope).Err?;
  }

  lemma NamesDiffer()
    ensures !SameFold("x", "hi") && !DotIn("x") && SameFold("x", "x") && Lower("x") == "x"
  {
    assert |Lower("x")| == 1 && |Lower("hi")| == 2;
  }
}
