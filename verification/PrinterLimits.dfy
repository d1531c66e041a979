/** Where printing loses the structure of an expression. */
module PrintingLimits {
  import opened Ast
  import opened Parsing
  import opened Printing
  import opened PrintingExact

  lemma ColumnRanks(name: string)
    requires PlainName(name)
    ensures var x := Col("", name); Rank0(x) && Rank1(x) && Rank2(x) && Print(x) == [Ident(name)] && Depth(x) == 0
  {
    var x := Col("", name);
    assert Rank0(x);
    assert Rank1(x);
  }

  /** A product of a sum comes back as a sum with a product. */
  lemma SumTimesRegrouped(a: string, b: string, c: string)
    requires PlainName(a) && PlainName(b) && PlainName(c)
    ensures var x, y, z := Col("", a), Col("", b), Col("", c);
      Reread(Binary(Binary(x, Sum, y), Times, z)) == Done(Binary(x, Sum, Binary(y, Times, z)), 5)
  {
    hide ParseOr, PlainName;
    var x, y, z := Col("", a), Col("", b), Col("", c);
    ColumnRanks(a);
    ColumnRanks(b);
    ColumnRanks(c);
    var s, t := Binary(x, Sum, y), Binary(y, Times, z);
    var e, f := Binary(s, Times, z), Binary(x, Sum, t);
    assert Print(s) == [Ident(a), Plus, Ident(b)] && Print(t) == [Ident(b), Star, Ident(c)];
    assert Print(e) == [Ident(a), Plus, Ident(b), Star, Ident(c)] == Print(f);
    assert Rank1(t) && Depth(t) == 0;
    assert Rank2(f) && Depth(f) == 0;
    SumIsNegation(f);
    PrintReadsBack(f);
  }

  /** A negation compared with something comes back as the negation of the comparison. */
  lemma NegationRegrouped(a: string, b: string, symbol: string)
    requires PlainName(a) && PlainName(b)
    ensures var x, y := Col("", a), Col("", b);
      Reread(Binary(Not(x), Infix(symbol), y)) == Done(Not(Binary(x, Infix(symbol), y)), 4)
  {
    hide ParseOr, PlainName;
    var x, y := Col("", a), Col("", b);
    ColumnRanks(a);
    ColumnRanks(b);
    var g := Binary(x, Infix(symbol), y);
    var e, f := Binary(Not(x), Infix(symbol), y), Not(g);
    assert Print(g) == [Ident(a), Cmp(symbol), Ident(b)] && Print(Not(x)) == [Not_, Ident(a)];
    assert Print(e) == [Not_, Ident(a), Cmp(symbol), Ident(b)] == Print(f);
    assert Rank3(g) && Depth(g) == 0;
    assert Rank4(g) && Depth(f) == 0;
    assert Rank4(f);
    PrintReadsBack(f);
  }

  /** The literal a token is read as, for tokens that are literals. */
  function LiteralOf(t: Token): Value {
    match t
    case IntLit(i) => IntVal(i)
    case FloatLit(f) => FloatVal(f)
    case TextLit(text) => TextVal(text)
    case True_ => BoolVal(true)
    case False_ => BoolVal(false)
    case _ => NULL_VAL
  }

  lemma PrintedLiteral(v: Value)
    requires PrintValue(v) != Other_
    ensures PlainValue(LiteralOf(PrintValue(v))) && PrintValue(LiteralOf(PrintValue(v))) == PrintValue(v)
    ensures PlainValue(v) ==> LiteralOf(PrintValue(v)) == v
  {
    if PlainValue(v) {
      LiteralBack(v);
    }
  }

  lemma LiteralReads(w: Value)
    requires PlainValue(w)
    ensures Reread(Val(w)) == Done(Val(w), 1)
  {
    hide ParseOr, PlainValue, PrintValue;
    var f := Val(w);
    assert Rank0(f);
    assert Rank1(f);
    SumIsNegation(f);
    PrintReadsBack(f);
  }

  lemma NoLiteralFails(v: Value)
    requires PrintValue(v) == Other_
    ensures Reread(Val(v)).Fail?
  {
    hide PrintValue;
    var ts := [Other_, Eof];
    assert Print(Val(v)) + [Eof] == ts;
    assert ParsePrimary(ts, 0, 0) == Fail;
    assert ParseMul(ts, 0, 0) == Fail;
    assert ParseAdd(ts, 0, 0) == Fail;
    assert ParseComparison(ts, 0, 0) == Fail;
    assert ParseNot(ts, 0, 0) == Fail;
    assert ParseAnd(ts, 0, 0) == Fail;
  }

  /** A literal is read back as it was exactly when it is plain: a float has a fraction, the tag is
      one of the five, and the fields of the other types are empty. */
  lemma LiteralReadsBackIff(v: Value)
    ensures Reread(Val(v)) == Done(Val(v), 1) <==> PlainValue(v)
  {
    hide ParseOr, PlainValue, PrintValue;
    if PrintValue(v) == Other_ {
      NoLiteralFails(v);
      NotPlain(v);
    } else {
      var w := LiteralOf(PrintValue(v));
      PrintedLiteral(v);
      LiteralReads(w);
      assert Print(Val(v)) == [PrintValue(v)] == Print(Val(w));
    }
  }

  lemma NotPlain(v: Value)
    requires PrintValue(v) == Other_
    ensures !PlainValue(v)
  {
    if PlainValue(v) {
      LiteralBack(v);
    }
  }

  /** A whole float comes back as an integer. */
  lemma WholeFloatChangesType(n: int)
    ensures Reread(Val(FloatVal(n as real))) == Done(Val(IntVal(n)), 1)
  {
    hide ParseOr;
    var e, f := Val(FloatVal(n as real)), Val(IntVal(n));
    assert PrintValue(f.value) == IntLit(n) == PrintValue(e.value);
    assert Print(e) == [IntLit(n)] == Print(f);
    LiteralReads(f.value);
  }
}
