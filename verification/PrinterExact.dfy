/** When printing and parsing an expression gives it back. */
module PrintingExact {
  import opened Ast
  import opened Parsing
  import opened Printing
  import opened Text
  import opened TokenSegments

  /** The forms looked into, with plain names; literals are arbitrary. */
  predicate Named(e: Expr)
    decreases e, 0
  {
    match e
    case Val(_) => true
    case Col(table, name) => (table == "" || PlainName(table)) && PlainName(name)
    case Param(_) => true
    case Binary(l, _, r) => Named(l) && Named(r)
    case And(l, r) => Named(l) && Named(r)
    case Or(l, r) => Named(l) && Named(r)
    case Not(x) => Named(x)
    case In(l, list, _) => Named(l) && AllNamed(list)
    case Between(x, lower, upper, _) => Named(x) && Named(lower) && Named(upper)
    case Call(name, args) => PlainName(name) && AllNamed(args)
    case _ => false
  }

  predicate AllNamed(es: seq<Expr>)
    decreases es, 0
  {
    es == [] || (Named(es[0]) && AllNamed(es[1..]))
  }

  predicate PlainToken(t: Token) {
    (t.Ident? ==> PlainName(t.name)) && (t.FloatLit? ==> t.f != t.f.Floor as real) && !t.Form?
  }

  ghost predicate PlainTokens(ts: seq<Token>) {
    Terminated(ts) && forall i :: 0 <= i < |ts| ==> PlainToken(ts[i])
  }

  ghost predicate GroupedTokens(ts: seq<Token>) {
    PlainTokens(ts) && forall i: nat :: i < |ts| ==> WellGrouped(ts, i)
  }

  // ----- what the parser consumes

  /** The outcome covers a balanced segment without connectives of its own. */
  ghost predicate Covers(ts: seq<Token>, pos: nat, r: Parsed) {
    r.Done? ==> Seg(ts, pos, r.pos, 0)
  }

  lemma {:induction false} PrimaryCovers(ts: seq<Token>, pos: nat, d: nat)
    requires PlainTokens(ts) && pos < |ts|
    ensures Covers(ts, pos, ParsePrimary(ts, pos, d))
    decreases |ts| - pos, 0
  {
    hide ParseOr, ParseName, PlainToken, Balanced, Excess;
    if ts[pos] == LParen {
      if d + 1 <= MAX_DEPTH {
        OrCovers(ts, pos + 1, d + 1);
        var inner := ParseOr(ts, pos + 1, d + 1);
        if inner.Done? && ts[inner.pos] == RParen {
          SegWrap(ts, pos, inner.pos);
        }
      }
    } else if ts[pos].Ident? {
      NameCovers(ts, ts[pos].name, pos + 1, d);
      SegToken(ts, pos);
      var r := ParseName(ts, ts[pos].name, pos + 1, d);
      if r.Done? {
        SegJoin(ts, pos, pos + 1, r.pos, 0, 0);
      }
    } else if ParsePrimary(ts, pos, d).Done? {
      SegToken(ts, pos);
    }
  }

  lemma {:induction false} NameCovers(ts: seq<Token>, name: string, pos: nat, d: nat)
    requires PlainTokens(ts) && 0 < pos < |ts| && ts[pos - 1] == Ident(name)
    ensures Covers(ts, pos, ParseName(ts, name, pos, d))
    decreases |ts| - pos, 15
  {
    hide ParseCall, Upper, Balanced, Excess, BeforeDot, AfterDot;
    assert PlainToken(ts[pos - 1]);
    SegNone(ts, pos);
    if ts[pos] == Dot && Peek(ts, pos).Ident? {
      SegToken(ts, pos);
      SegToken(ts, pos + 1);
      SegJoin(ts, pos, pos + 1, pos + 2, 0, 0);
    } else if ts[pos] == LParen {
      CallCovers(ts, name, pos + 1, d);
    }
  }

  lemma {:induction false} CallCovers(ts: seq<Token>, name: string, pos: nat, d: nat)
    requires PlainTokens(ts) && 0 < pos < |ts| && ts[pos - 1] == LParen
    ensures Covers(ts, pos - 1, ParseCall(ts, name, pos, d))
    ensures ParseCall(ts, name, pos, d).Done? ==> Closes(ts, pos - 1, ParseCall(ts, name, pos, d).pos - 1)
    decreases |ts| - pos, 14
  {
    hide ParseList, Upper, Balanced, Excess, PlainToken;
    if ts[pos] == RParen {
      SegNone(ts, pos);
      SegWrap(ts, pos - 1, pos);
    } else {
      ListCovers(ts, pos, d + 1);
      var args := ParseList(ts, pos, d + 1);
      if args.DoneList? {
        SegWrap(ts, pos - 1, args.pos);
      }
    }
  }

  /** A list covers its items; without connectives of their own, they are read by `ParseNot`. */
  lemma {:induction false} ListCovers(ts: seq<Token>, pos: nat, d: nat)
    requires PlainTokens(ts) && pos < |ts|
    ensures var r, first := ParseList(ts, pos, d), ParseOr(ts, pos, d);
      r.DoneList? ==>
        && Balanced(ts, pos, r.pos) && Excess(ts, pos, r.pos) >= 0 && first.Done?
        && (Excess(ts, pos, r.pos) == 0 ==>
            first == ParseNot(ts, pos, d) && (ts[first.pos] == Comma ==> Excess(ts, first.pos + 1, r.pos) == 0))
    decreases |ts| - pos, 13
  {
    hide ParseOr, ParseNot, Balanced, Excess, PlainToken;
    OrCovers(ts, pos, d);
    var first, r := ParseOr(ts, pos, d), ParseList(ts, pos, d);
    if r.DoneList? && ts[first.pos] == Comma {
      ListCovers(ts, first.pos + 1, d);
      SegToken(ts, first.pos);
      var a, b := Excess(ts, pos, first.pos), Excess(ts, first.pos + 1, r.pos);
      SegJoin(ts, pos, first.pos, first.pos + 1, a, 0);
      SegJoin(ts, pos, first.pos + 1, r.pos, a, b);
    }
  }

  lemma {:induction false} MulTailCovers(ts: seq<Token>, left: Expr, pos: nat, d: nat)
    requires PlainTokens(ts) && pos < |ts|
    ensures Covers(ts, pos, MulTail(ts, left, pos, d))
    decreases |ts| - pos, 1
  {
    hide ParsePrimary, Balanced, Excess, PlainToken;
    SegNone(ts, pos);
    var r := MulTail(ts, left, pos, d);
    if r.Done? && (ts[pos] == Star || ts[pos] == Slash) {
      var right := ParsePrimary(ts, pos + 1, d);
      SegToken(ts, pos);
      PrimaryCovers(ts, pos + 1, d);
      MulTailCovers(ts, Binary(left, MulOp(ts[pos]), right.e), right.pos, d);
      SegJoin(ts, pos, pos + 1, right.pos, 0, 0);
      SegJoin(ts, pos, right.pos, r.pos, 0, 0);
    }
  }

  lemma {:induction false} MulCovers(ts: seq<Token>, pos: nat, d: nat)
    requires PlainTokens(ts) && pos < |ts|
    ensures Covers(ts, pos, ParseMul(ts, pos, d))
    decreases |ts| - pos, 2
  {
    hide ParsePrimary, MulTail, Balanced, Excess, PlainToken;
    PrimaryCovers(ts, pos, d);
    var left, r := ParsePrimary(ts, pos, d), ParseMul(ts, pos, d);
    if r.Done? {
      MulTailCovers(ts, left.e, left.pos, d);
      SegJoin(ts, pos, left.pos, r.pos, 0, 0);
    }
  }

  lemma {:induction false} AddTailCovers(ts: seq<Token>, left: Expr, pos: nat, d: nat)
    requires PlainTokens(ts) && pos < |ts|
    ensures Covers(ts, pos, AddTail(ts, left, pos, d))
    decreases |ts| - pos, 3
  {
    hide ParseMul, Balanced, Excess, PlainToken;
    SegNone(ts, pos);
    var r := AddTail(ts, left, pos, d);
    if r.Done? && (ts[pos] == Plus || ts[pos] == Minus) {
      var right := ParseMul(ts, pos + 1, d);
      SegToken(ts, pos);
      MulCovers(ts, pos + 1, d);
      AddTailCovers(ts, Binary(left, AddOp(ts[pos]), right.e), right.pos, d);
      SegJoin(ts, pos, pos + 1, right.pos, 0, 0);
      SegJoin(ts, pos, right.pos, r.pos, 0, 0);
    }
  }

  lemma {:induction false} AddCovers(ts: seq<Token>, pos: nat, d: nat)
    requires PlainTokens(ts) && pos < |ts|
    ensures Covers(ts, pos, ParseAdd(ts, pos, d))
    decreases |ts| - pos, 4
  {
    hide ParseMul, AddTail, Balanced, Excess, PlainToken;
    MulCovers(ts, pos, d);
    var left, r := ParseMul(ts, pos, d), ParseAdd(ts, pos, d);
    if r.Done? {
      AddTailCovers(ts, left.e, left.pos, d);
      SegJoin(ts, pos, left.pos, r.pos, 0, 0);
    }
  }

  lemma {:induction false} OperandCovers(ts: seq<Token>, left: Expr, op: Op, pos: nat, d: nat)
    requires PlainTokens(ts) && pos < |ts|
    ensures Covers(ts, pos, Operand(ts, left, op, pos, d))
    decreases |ts| - pos, 5
  {
    hide ParseAdd, Balanced, Excess, PlainToken;
    AddCovers(ts, pos, d);
  }

  lemma {:induction false} InCovers(ts: seq<Token>, left: Expr, pos: nat, d: nat, negated: bool)
    requires PlainTokens(ts) && pos < |ts|
    ensures Covers(ts, pos, InTail(ts, left, pos, d, negated))
    ensures InTail(ts, left, pos, d, negated).Done? ==> Closes(ts, pos, InTail(ts, left, pos, d, negated).pos - 1)
    decreases |ts| - pos, 14
  {
    hide ParseList, Balanced, Excess, PlainToken;
    if ts[pos] == LParen {
      ListCovers(ts, pos + 1, d);
      var list := ParseList(ts, pos + 1, d);
      if list.DoneList? {
        SegWrap(ts, pos, list.pos);
      }
    }
  }

  lemma {:induction false} BetweenCovers(ts: seq<Token>, left: Expr, pos: nat, d: nat, negated: bool)
    requires PlainTokens(ts) && pos < |ts|
    ensures var r := BetweenTail(ts, left, pos, d, negated); r.Done? ==> Seg(ts, pos, r.pos, 1)
    decreases |ts| - pos, 5
  {
    hide ParseAdd, Balanced, Excess, PlainToken;
    AddCovers(ts, pos, d);
    var lower := ParseAdd(ts, pos, d);
    if lower.Done? && ts[lower.pos] == And_ {
      AddCovers(ts, lower.pos + 1, d);
      var upper := ParseAdd(ts, lower.pos + 1, d);
      SegToken(ts, lower.pos);
      SegJoin(ts, pos, lower.pos, lower.pos + 1, 0, 1);
      if upper.Done? {
        SegJoin(ts, pos, lower.pos + 1, upper.pos, 1, 0);
      }
    }
  }

  lemma CoversAfter(ts: seq<Token>, pos: nat, r: Parsed, n: int)
    requires pos < |ts| && Nest(ts[pos]) == 0 && Weight(ts[pos]) + n == 0 && (r.Done? ==> Seg(ts, pos + 1, r.pos, n))
    ensures Covers(ts, pos, r)
  {
    hide Seg;
    if r.Done? {
      AfterToken(ts, pos, r.pos, n);
    }
  }

  lemma {:induction false} WordCovers(ts: seq<Token>, left: Expr, pos: nat, d: nat, negated: bool)
    requires PlainTokens(ts) && pos + 1 < |ts|
    ensures ts[pos] == Like ==> Covers(ts, pos, Operand(ts, left, LikeOp, pos + 1, d))
    ensures ts[pos] == ILike ==> Covers(ts, pos, Operand(ts, left, ILikeOp, pos + 1, d))
    ensures ts[pos].Cmp? ==> Covers(ts, pos, Operand(ts, left, Infix(ts[pos].symbol), pos + 1, d))
    ensures ts[pos] == In_ ==> Covers(ts, pos, InTail(ts, left, pos + 1, d, negated))
    ensures ts[pos] == Between_ ==> Covers(ts, pos, BetweenTail(ts, left, pos + 1, d, negated))
    decreases |ts| - pos, 6
  {
    hide Operand, InTail, BetweenTail, Seg, PlainToken;
    match ts[pos]
    case Cmp(symbol) =>
      OperandCovers(ts, left, Infix(symbol), pos + 1, d);
      CoversAfter(ts, pos, Operand(ts, left, Infix(symbol), pos + 1, d), 0);
    case Like =>
      OperandCovers(ts, left, LikeOp, pos + 1, d);
      CoversAfter(ts, pos, Operand(ts, left, LikeOp, pos + 1, d), 0);
    case ILike =>
      OperandCovers(ts, left, ILikeOp, pos + 1, d);
      CoversAfter(ts, pos, Operand(ts, left, ILikeOp, pos + 1, d), 0);
    case In_ =>
      InCovers(ts, left, pos + 1, d, negated);
      CoversAfter(ts, pos, InTail(ts, left, pos + 1, d, negated), 0);
    case Between_ =>
      BetweenCovers(ts, left, pos + 1, d, negated);
      CoversAfter(ts, pos, BetweenTail(ts, left, pos + 1, d, negated), 1);
    case _ =>
  }

  lemma WordsCover(ts: seq<Token>, pos: nat, n: nat)
    requires n <= 3 && pos + n <= |ts| && forall i :: pos <= i < pos + n ==> Nest(ts[i]) == 0 && Weight(ts[i]) == 0
    ensures Seg(ts, pos, pos + n, 0)
  {
    hide Seg;
    SegNone(ts, pos + n);
    if n > 2 {
      AfterToken(ts, pos + 2, pos + 3, 0);
    }
    if n == 1 {
      AfterToken(ts, pos, pos + 1, 0);
    } else if n == 2 {
      AfterToken(ts, pos + 1, pos + 2, 0);
      AfterToken(ts, pos, pos + 2, 0);
    } else if n == 3 {
      AfterToken(ts, pos + 1, pos + 3, 0);
      AfterToken(ts, pos, pos + 3, 0);
    }
  }

  lemma {:induction false} ComparisonTailCovers(ts: seq<Token>, left: Expr, pos: nat, d: nat)
    requires PlainTokens(ts) && pos < |ts|
    ensures Covers(ts, pos, ComparisonTail(ts, left, pos, d))
    decreases |ts| - pos, 7
  {
    hide Operand, InTail, BetweenTail, Seg, PlainToken;
    var r := ComparisonTail(ts, left, pos, d);
    SegNone(ts, pos);
    if pos + 1 < |ts| {
      if ts[pos] == Not_ {
        NegatedTailCovers(ts, left, pos, d);
      } else if ts[pos] == Is {
        IsCovers(ts, left, pos, d);
      } else {
        WordCovers(ts, left, pos, d, false);
      }
    }
  }

  lemma {:induction false} NegatedTailCovers(ts: seq<Token>, left: Expr, pos: nat, d: nat)
    requires PlainTokens(ts) && pos + 1 < |ts| && ts[pos] == Not_
    ensures Covers(ts, pos, ComparisonTail(ts, left, pos, d))
    decreases |ts| - pos, 6
  {
    hide Operand, InTail, BetweenTail, Seg, PlainToken;
    var r, t := ComparisonTail(ts, left, pos, d), ts[pos + 1];
    SegNone(ts, pos);
    if pos + 2 < |ts| && (t.Between_? || t.In_? || t.Like? || t.ILike?) {
      WordCovers(ts, left, pos + 1, d, true);
      CoversAfter(ts, pos, r, 0);
    }
  }

  lemma IsCovers(ts: seq<Token>, left: Expr, pos: nat, d: nat)
    requires PlainTokens(ts) && pos + 1 < |ts| && ts[pos] == Is
    ensures Covers(ts, pos, ComparisonTail(ts, left, pos, d))
  {
    hide Seg;
    var r := ComparisonTail(ts, left, pos, d);
    WordsCover(ts, pos, r.pos - pos);
  }

  lemma {:induction false} NotCovers(ts: seq<Token>, pos: nat, d: nat)
    requires PlainTokens(ts) && pos < |ts|
    ensures Covers(ts, pos, ParseNot(ts, pos, d))
    decreases |ts| - pos, 8
  {
    hide ParseAdd, ComparisonTail, Seg, PlainToken;
    var r := ParseNot(ts, pos, d);
    if ts[pos] == Not_ {
      NotCovers(ts, pos + 1, d);
      CoversAfter(ts, pos, r, 0);
    } else {
      AddCovers(ts, pos, d);
      var left := ParseAdd(ts, pos, d);
      assert r == ParseComparison(ts, pos, d);
      if r.Done? {
        ComparisonTailCovers(ts, left.e, left.pos, d);
        SegJoin(ts, pos, left.pos, r.pos, 0, 0);
      }
    }
  }

  // ----- chains of AND and OR

  /** What a chain behind `left` covers: no connective and it is `left`; one and it is a pair. */
  ghost predicate AndChain(ts: seq<Token>, left: Expr, pos: nat, d: nat, r: Parsed)
    requires Terminated(ts) && pos < |ts|
  {
    r.Done? ==>
      && Balanced(ts, pos, r.pos) && Excess(ts, pos, r.pos) >= 0
      && (Excess(ts, pos, r.pos) == 0 ==> r == Done(left, pos))
      && (Excess(ts, pos, r.pos) == 1 ==>
          ts[pos] == And_ && ParseNot(ts, pos + 1, d).Done? && r.e == And(left, ParseNot(ts, pos + 1, d).e))
  }

  lemma {:induction false} AndTailCovers(ts: seq<Token>, left: Expr, pos: nat, d: nat)
    requires PlainTokens(ts) && pos < |ts|
    ensures AndChain(ts, left, pos, d, AndTail(ts, left, pos, d))
    decreases |ts| - pos, 9
  {
    hide ParseNot, Balanced, Excess, PlainToken;
    var r := AndTail(ts, left, pos, d);
    SegNone(ts, pos);
    if ts[pos] == And_ && r.Done? {
      var right := ParseNot(ts, pos + 1, d);
      NotCovers(ts, pos + 1, d);
      AfterToken(ts, pos, right.pos, 0);
      AndTailCovers(ts, And(left, right.e), right.pos, d);
      SegJoin(ts, pos, right.pos, r.pos, 1, Excess(ts, right.pos, r.pos));
    }
  }

  /** What is read where AND chains are: a single operand, a pair, or more. */
  ghost predicate AndRead(ts: seq<Token>, pos: nat, d: nat, r: Parsed)
    requires Terminated(ts) && pos < |ts|
  {
    r.Done? ==>
      && Balanced(ts, pos, r.pos) && Excess(ts, pos, r.pos) >= 0
      && (Excess(ts, pos, r.pos) == 0 ==> r == ParseNot(ts, pos, d))
      && (Excess(ts, pos, r.pos) == 1 ==> Paired(ts, pos, d, r.e))
  }

  /** Two operands with a connective between. */
  ghost predicate Paired(ts: seq<Token>, pos: nat, d: nat, e: Expr)
    requires Terminated(ts) && pos < |ts|
  {
    var a := ParseNot(ts, pos, d);
    a.Done? && (ts[a.pos] == And_ || ts[a.pos] == Or_) &&
    var b := ParseNot(ts, a.pos + 1, d);
    b.Done? && (e == And(a.e, b.e) || e == Or(a.e, b.e))
  }

  lemma {:induction false} AndCovers(ts: seq<Token>, pos: nat, d: nat)
    requires PlainTokens(ts) && pos < |ts|
    ensures AndRead(ts, pos, d, ParseAnd(ts, pos, d))
    decreases |ts| - pos, 10
  {
    hide ParseNot, AndTail, Balanced, Excess, PlainToken;
    var left, r := ParseNot(ts, pos, d), ParseAnd(ts, pos, d);
    NotCovers(ts, pos, d);
    if r.Done? {
      AndTailCovers(ts, left.e, left.pos, d);
      SegJoin(ts, pos, left.pos, r.pos, 0, Excess(ts, left.pos, r.pos));
    }
  }

  ghost predicate OrChain(ts: seq<Token>, left: Expr, pos: nat, d: nat, r: Parsed)
    requires Terminated(ts) && pos < |ts|
  {
    r.Done? ==>
      && Balanced(ts, pos, r.pos) && Excess(ts, pos, r.pos) >= 0
      && (Excess(ts, pos, r.pos) == 0 ==> r == Done(left, pos))
      && (Excess(ts, pos, r.pos) == 1 ==>
          ts[pos] == Or_ && ParseNot(ts, pos + 1, d).Done? && r.e == Or(left, ParseNot(ts, pos + 1, d).e))
  }

  lemma {:induction false} OrTailCovers(ts: seq<Token>, left: Expr, pos: nat, d: nat)
    requires PlainTokens(ts) && pos < |ts|
    ensures OrChain(ts, left, pos, d, OrTail(ts, left, pos, d))
    decreases |ts| - pos, 11
  {
    hide ParseAnd, ParseNot, Balanced, Excess, PlainToken, Paired;
    var r := OrTail(ts, left, pos, d);
    SegNone(ts, pos);
    if ts[pos] == Or_ && r.Done? {
      var right := ParseAnd(ts, pos + 1, d);
      AndCovers(ts, pos + 1, d);
      var n := Excess(ts, pos + 1, right.pos);
      AfterToken(ts, pos, right.pos, n);
      OrTailCovers(ts, Or(left, right.e), right.pos, d);
      SegJoin(ts, pos, right.pos, r.pos, 1 + n, Excess(ts, right.pos, r.pos));
    }
  }

  lemma {:induction false} OrCovers(ts: seq<Token>, pos: nat, d: nat)
    requires PlainTokens(ts) && pos < |ts|
    ensures AndRead(ts, pos, d, ParseOr(ts, pos, d))
    decreases |ts| - pos, 12
  {
    hide ParseAnd, ParseNot, OrTail, Balanced, Excess, PlainToken;
    var left, r := ParseAnd(ts, pos, d), ParseOr(ts, pos, d);
    AndCovers(ts, pos, d);
    if r.Done? {
      OrTailCovers(ts, left.e, left.pos, d);
      SegJoin(ts, pos, left.pos, r.pos, Excess(ts, pos, left.pos), Excess(ts, left.pos, r.pos));
    }
  }

  // ----- from such tokens the parser builds the grammar's ranks only

  /** An expression may start at `pos`: no list or call opens there. */
  ghost predicate Starts(ts: seq<Token>, pos: nat) {
    GroupedTokens(ts) && pos < |ts| && !ListOpens(ts, pos)
  }

  lemma {:induction false} RankPrimary(ts: seq<Token>, pos: nat, d: nat)
    requires Starts(ts, pos) && ParsePrimary(ts, pos, d).Done?
    ensures Rank0(ParsePrimary(ts, pos, d).e)
    decreases |ts| - pos, 1
  {
    hide PlainName, Upper, Rank4, ParseName, ParseOr, ParseNot, Excess, Closes;
    var t := ts[pos];
    assert PlainToken(t);
    if t.Ident? {
      RankName(ts, t.name, pos + 1, d);
    } else if t.LParen? {
      RankGroup(ts, pos, d);
    }
  }

  /** A group has one connective of its own, so it is read as a pair. */
  lemma {:induction false} RankGroup(ts: seq<Token>, pos: nat, d: nat)
    requires Starts(ts, pos) && ts[pos] == LParen && ParsePrimary(ts, pos, d).Done?
    ensures Rank0(ParsePrimary(ts, pos, d).e)
    decreases |ts| - pos, 0
  {
    hide PlainToken, Rank4, ParseOr, ParseNot, Excess, Balanced;
    var inner := ParseOr(ts, pos + 1, d + 1);
    OrCovers(ts, pos + 1, d + 1);
    assert Closes(ts, pos, inner.pos);
    assert WellGrouped(ts, pos);
    var j :| Closes(ts, pos, j) && Excess(ts, pos + 1, j) == 1;
    ClosedOnce(ts, pos, inner.pos, j);
    var a := ParseNot(ts, pos + 1, d + 1);
    RankNot(ts, pos + 1, d + 1);
    RankNot(ts, a.pos + 1, d + 1);
  }

  lemma UpperPlain(name: string)
    requires PlainName(name)
    ensures PlainName(Upper(name)) && Upper(Upper(name)) == Upper(name)
  {
    var up := Upper(name);
    assert Upper(up) == up;
    assert up != "old" && up != "new" by {
      assert forall i :: 0 <= i < |up| ==> !('a' <= up[i] <= 'z');
      assert "old"[0] == 'o' && "new"[0] == 'n';
    }
    assert forall i :: 0 <= i < |up| ==> (up[i] == '.' <==> name[i] == '.');
  }

  lemma {:induction false} RankName(ts: seq<Token>, name: string, pos: nat, d: nat)
    requires GroupedTokens(ts) && 0 < pos < |ts| && ts[pos - 1] == Ident(name) && ParseName(ts, name, pos, d).Done?
    ensures Rank0(ParseName(ts, name, pos, d).e)
    decreases |ts| - pos, 16
  {
    hide ParseCall, Upper, WellGrouped, BeforeDot, AfterDot, AllRank4, DotIn;
    assert PlainToken(ts[pos - 1]);
    if ts[pos] == Dot {
      SplitJoined(name, Peek(ts, pos).name);
    } else if ts[pos] == LParen {
      assert ParseName(ts, name, pos, d) == ParseCall(ts, name, pos + 1, d);
      RankCall(ts, name, pos + 1, d);
    }
  }

  lemma {:induction false} RankCall(ts: seq<Token>, name: string, pos: nat, d: nat)
    requires GroupedTokens(ts) && 1 < pos < |ts| && ts[pos - 1] == LParen && ts[pos - 2] == Ident(name) && PlainName(name)
    requires ParseCall(ts, name, pos, d).Done?
    ensures Rank0(ParseCall(ts, name, pos, d).e)
    decreases |ts| - pos, 15
  {
    hide ParseList, Upper, PlainName, Excess, Balanced, PlainToken, Rank4;
    UpperPlain(name);
    CallCovers(ts, name, pos, d);
    if ts[pos] != RParen {
      var args := ParseList(ts, pos, d + 1);
      assert WellGrouped(ts, pos - 1);
      var j :| Closes(ts, pos - 1, j) && Excess(ts, pos, j) == 0;
      ClosedOnce(ts, pos - 1, args.pos, j);
      RankList(ts, pos, d + 1);
    }
  }

  lemma {:induction false} RankList(ts: seq<Token>, pos: nat, d: nat)
    requires Starts(ts, pos) && ParseList(ts, pos, d).DoneList? && Excess(ts, pos, ParseList(ts, pos, d).pos) == 0
    ensures AllRank4(ParseList(ts, pos, d).es) && ParseList(ts, pos, d).es != []
    decreases |ts| - pos, 14
  {
    hide ParseOr, ParseNot, Rank4, Excess, WellGrouped, PlainToken, Balanced;
    ListCovers(ts, pos, d);
    var first, all := ParseOr(ts, pos, d), ParseList(ts, pos, d).es;
    RankNot(ts, pos, d);
    if ts[first.pos] == Comma {
      RankList(ts, first.pos + 1, d);
      assert all[1..] == ParseList(ts, first.pos + 1, d).es;
    } else {
      assert all[1..] == [];
    }
    assert all[0] == first.e;
  }

  lemma {:induction false} RankMulTail(ts: seq<Token>, left: Expr, pos: nat, d: nat)
    requires GroupedTokens(ts) && pos < |ts| && Rank1(left) && MulTail(ts, left, pos, d).Done?
    ensures Rank1(MulTail(ts, left, pos, d).e)
    decreases |ts| - pos, 1
  {
    hide ParsePrimary, Rank0, WellGrouped, PlainToken;
    if ts[pos] == Star || ts[pos] == Slash {
      var right := ParsePrimary(ts, pos + 1, d);
      RankPrimary(ts, pos + 1, d);
      RankMulTail(ts, Binary(left, MulOp(ts[pos]), right.e), right.pos, d);
    }
  }

  lemma {:induction false} RankMul(ts: seq<Token>, pos: nat, d: nat)
    requires Starts(ts, pos) && ParseMul(ts, pos, d).Done?
    ensures Rank1(ParseMul(ts, pos, d).e)
    decreases |ts| - pos, 2
  {
    hide ParsePrimary, MulTail, WellGrouped, PlainToken;
    var left := ParsePrimary(ts, pos, d);
    RankPrimary(ts, pos, d);
    PrimaryIsProduct(left.e);
    RankMulTail(ts, left.e, left.pos, d);
  }

  lemma PrimaryIsProduct(e: Expr)
    requires Rank0(e)
    ensures Rank1(e) && !e.Binary?
  {
  }

  lemma ProductIsSum(e: Expr)
    requires Rank1(e)
    ensures Rank2(e)
  {
    assert Rank0(e) ==> !e.Binary?;
  }

  lemma {:induction false} RankAddTail(ts: seq<Token>, left: Expr, pos: nat, d: nat)
    requires GroupedTokens(ts) && pos < |ts| && Rank2(left) && AddTail(ts, left, pos, d).Done?
    ensures Rank2(AddTail(ts, left, pos, d).e)
    decreases |ts| - pos, 3
  {
    hide ParseMul, Rank1, WellGrouped, PlainToken;
    if ts[pos] == Plus || ts[pos] == Minus {
      var right := ParseMul(ts, pos + 1, d);
      RankMul(ts, pos + 1, d);
      RankAddTail(ts, Binary(left, AddOp(ts[pos]), right.e), right.pos, d);
    }
  }

  lemma {:induction false} RankAdd(ts: seq<Token>, pos: nat, d: nat)
    requires Starts(ts, pos) && ParseAdd(ts, pos, d).Done?
    ensures Rank2(ParseAdd(ts, pos, d).e)
    decreases |ts| - pos, 4
  {
    hide ParseMul, AddTail, WellGrouped, PlainToken;
    var left := ParseMul(ts, pos, d);
    RankMul(ts, pos, d);
    ProductIsSum(left.e);
    RankAddTail(ts, left.e, left.pos, d);
  }

  lemma SumShape(e: Expr)
    requires Rank2(e)
    ensures (e.Binary? ==> MulRank(e.op) || AddRank(e.op)) && !e.In? && !e.Between? && !e.Not?
  {
    assert Rank0(e) ==> !e.Binary? && !e.In? && !e.Between? && !e.Not?;
    assert Rank1(e) ==> (e.Binary? ==> MulRank(e.op)) && !e.In? && !e.Between? && !e.Not?;
  }

  lemma SumIsNegation(e: Expr)
    requires Rank2(e)
    ensures Rank3(e) && Rank4(e)
  {
    SumShape(e);
    assert Rank3(e);
  }

  lemma {:induction false} RankOperand(ts: seq<Token>, left: Expr, op: Op, pos: nat, d: nat)
    requires Starts(ts, pos) && Rank2(left) && Operand(ts, left, op, pos, d).Done?
    requires !MulRank(op) && !AddRank(op) && !IsRank(op)
    ensures var r := Operand(ts, left, op, pos, d).e; Rank3(r) && Rank4(r)
    decreases |ts| - pos, 5
  {
    hide ParseAdd, Rank2, WellGrouped, PlainToken;
    RankAdd(ts, pos, d);
  }

  lemma {:induction false} RankIn(ts: seq<Token>, left: Expr, pos: nat, d: nat, negated: bool)
    requires GroupedTokens(ts) && ListOpens(ts, pos) && pos < |ts| && Rank2(left) && InTail(ts, left, pos, d, negated).Done?
    ensures Rank4(InTail(ts, left, pos, d, negated).e)
    decreases |ts| - pos, 15
  {
    hide ParseList, Rank2, Excess, Balanced, PlainToken, AllRank4;
    InCovers(ts, left, pos, d, negated);
    var list := ParseList(ts, pos + 1, d);
    assert WellGrouped(ts, pos);
    var j :| Closes(ts, pos, j) && Excess(ts, pos + 1, j) == 0;
    ClosedOnce(ts, pos, list.pos, j);
    RankList(ts, pos + 1, d);
  }

  lemma {:induction false} RankBetween(ts: seq<Token>, left: Expr, pos: nat, d: nat, negated: bool)
    requires Starts(ts, pos) && Rank2(left) && BetweenTail(ts, left, pos, d, negated).Done?
    ensures Rank4(BetweenTail(ts, left, pos, d, negated).e)
    decreases |ts| - pos, 5
  {
    hide ParseAdd, Rank2, WellGrouped, PlainToken;
    var lower := ParseAdd(ts, pos, d);
    RankAdd(ts, pos, d);
    RankAdd(ts, lower.pos + 1, d);
  }

  lemma {:induction false} RankComparisonTail(ts: seq<Token>, left: Expr, pos: nat, d: nat)
    requires GroupedTokens(ts) && pos < |ts| && Rank2(left) && ComparisonTail(ts, left, pos, d).Done?
    ensures Rank4(ComparisonTail(ts, left, pos, d).e)
    decreases |ts| - pos, 6
  {
    hide Operand, InTail, BetweenTail, Rank2, WellGrouped, PlainToken;
    SumIsNegation(left);
    match ts[pos]
    case Cmp(symbol) => RankOperand(ts, left, Infix(symbol), pos + 1, d);
    case Like => RankOperand(ts, left, LikeOp, pos + 1, d);
    case ILike => RankOperand(ts, left, ILikeOp, pos + 1, d);
    case In_ => RankIn(ts, left, pos + 1, d, false);
    case Between_ => RankBetween(ts, left, pos + 1, d, false);
    case Not_ => RankNegated(ts, left, pos, d);
    case _ =>
  }

  lemma {:induction false} RankNegated(ts: seq<Token>, left: Expr, pos: nat, d: nat)
    requires GroupedTokens(ts) && pos < |ts| && ts[pos] == Not_ && Rank2(left) && Rank4(left) && ComparisonTail(ts, left, pos, d).Done?
    ensures Rank4(ComparisonTail(ts, left, pos, d).e)
    decreases |ts| - pos, 5
  {
    hide Operand, InTail, BetweenTail, Rank2, Rank3, WellGrouped, PlainToken;
    match Peek(ts, pos)
    case Like => RankOperand(ts, left, LikeOp, pos + 2, d);
    case ILike => RankOperand(ts, left, ILikeOp, pos + 2, d);
    case In_ => RankIn(ts, left, pos + 2, d, true);
    case Between_ => RankBetween(ts, left, pos + 2, d, true);
    case _ =>
  }

  lemma {:induction false} RankNot(ts: seq<Token>, pos: nat, d: nat)
    requires Starts(ts, pos) && ParseNot(ts, pos, d).Done?
    ensures Rank4(ParseNot(ts, pos, d).e)
    decreases |ts| - pos, 7
  {
    hide ParseAdd, ComparisonTail, Rank3, Rank2, WellGrouped, PlainToken;
    if ts[pos] == Not_ {
      RankNot(ts, pos + 1, d);
    } else {
      RankAdd(ts, pos, d);
      var left := ParseAdd(ts, pos, d);
      assert ParseNot(ts, pos, d) == ParseComparison(ts, pos, d) == ComparisonTail(ts, left.e, left.pos, d);
      RankComparisonTail(ts, left.e, left.pos, d);
    }
  }

  // ----- what is printed is made of such tokens

  /** A segment of plain tokens that is grouped as printing groups. */
  ghost predicate Piece(ts: seq<Token>, i: nat, j: nat, n: int) {
    Seg(ts, i, j, n) && forall k: nat :: i <= k < j ==> PieceAt(ts, k)
  }

  ghost predicate PieceAt(ts: seq<Token>, k: nat) {
    k < |ts| && PlainToken(ts[k]) && WellGrouped(ts, k)
  }

  lemma PieceJoin(ts: seq<Token>, i: nat, m: nat, j: nat, a: int, b: int)
    requires Piece(ts, i, m, a) && Piece(ts, m, j, b)
    ensures Piece(ts, i, j, a + b)
  {
    hide Seg, PieceAt;
    SegJoin(ts, i, m, j, a, b);
  }

  lemma PieceNone(ts: seq<Token>, i: nat)
    requires i <= |ts|
    ensures Piece(ts, i, i, 0)
  {
    hide Seg;
    SegNone(ts, i);
  }

  /** One token that is no parenthesis, behind a piece. */
  lemma PieceToken(ts: seq<Token>, i: nat, m: nat, n: int)
    requires Piece(ts, i, m, n) && m < |ts| && Nest(ts[m]) == 0 && PlainToken(ts[m])
    ensures Piece(ts, i, m + 1, n + Weight(ts[m]))
  {
    hide Seg, PlainToken;
    SegToken(ts, m);
    SegJoin(ts, i, m, m + 1, n, Weight(ts[m]));
    assert PieceAt(ts, m);
  }

  /** A list or a group behind a piece. */
  lemma PieceParens(ts: seq<Token>, i: nat, m: nat, j: nat, n: int)
    requires Piece(ts, i, m, n) && m < j < |ts| && ts[m] == LParen && ts[j] == RParen
    requires Piece(ts, m + 1, j, if ListOpens(ts, m) then 0 else 1)
    ensures Piece(ts, i, j + 1, n)
  {
    hide Balanced, Excess;
    SegWrap(ts, m, j);
    SegJoin(ts, i, m, j + 1, n, 0);
    assert Closes(ts, m, j);
    assert PieceAt(ts, m) && PieceAt(ts, j);
  }

  lemma {:induction false} PrintedPiece(ts: seq<Token>, pos: nat, e: Expr)
    requires Laid(ts, pos, e) && Named(e) && !ListOpens(ts, pos)
    ensures Piece(ts, pos, pos + Width(e), 0)
    decreases e, 2
  {
    hide *;
    match e
    case Binary(_, _, _) => PrintedInfix(ts, pos, e);
    case And(_, _) => PrintedGroup(ts, pos, e);
    case Or(_, _) => PrintedGroup(ts, pos, e);
    case Not(_) => PrintedNot(ts, pos, e);
    case In(_, _, _) => PrintedIn(ts, pos, e);
    case Between(_, _, _, _) => PrintedBetween(ts, pos, e);
    case Call(_, _) => PrintedCall(ts, pos, e);
    case _ => PrintedLeaf(ts, pos, e);
  }

  lemma PrintedLeaf(ts: seq<Token>, pos: nat, e: Expr)
    requires Laid(ts, pos, e) && Named(e) && !e.Binary? && !e.And? && !e.Or? && !e.Not? && !e.In? && !e.Between? && !e.Call?
    ensures Piece(ts, pos, pos + Width(e), 0)
  {
    hide Piece;
    PieceNone(ts, pos);
    PieceToken(ts, pos, pos, 0);
    if e.Col? && e.table != "" {
      PieceToken(ts, pos, pos + 1, 0);
      PieceToken(ts, pos, pos + 2, 0);
    }
  }

  /** A token that is neither a parenthesis nor a connective, and in front of which an expression
      can end and behind which one can start. */
  predicate Separates(ts: seq<Token>, i: nat) {
    i < |ts| && Nest(ts[i]) == 0 && PlainToken(ts[i]) && !ts[i].In_? && !ts[i].Ident?
  }

  lemma NamedParts(e: Expr)
    requires Named(e)
    ensures e.Binary? || e.And? || e.Or? ==> Named(e.left) && Named(e.right)
    ensures e.Not? ==> Named(e.inner)
    ensures e.In? ==> Named(e.left) && AllNamed(e.list)
    ensures e.Between? ==> Named(e.inner) && Named(e.lower) && Named(e.upper)
    ensures e.Call? ==> PlainName(e.name) && AllNamed(e.args)
  {
    hide PlainName, AllNamed;
  }

  lemma BinaryLaid(ts: seq<Token>, pos: nat, e: Expr)
    requires e.Binary? && Laid(ts, pos, e)
    ensures Width(e) == Width(e.left) + OpWidth(e.op) + Width(e.right) && pos + Width(e) < |ts|
    ensures Laid(ts, pos, e.left) && OpAt(ts, pos + Width(e.left), e.op) && Laid(ts, pos + Width(e.left) + OpWidth(e.op), e.right)
  {
    BinaryWidth(e);
  }

  lemma OpSeparates(ts: seq<Token>, m: nat, op: Op)
    requires m + OpWidth(op) < |ts| && OpAt(ts, m, op)
    ensures Separates(ts, m) && Weight(ts[m]) == 0
    ensures op.IsNotOp? ==> Separates(ts, m + 1) && Weight(ts[m + 1]) == 0
  {
    hide PlainName;
  }

  lemma {:induction false} PrintedInfix(ts: seq<Token>, pos: nat, e: Expr)
    requires e.Binary? && Laid(ts, pos, e) && Named(e) && !ListOpens(ts, pos)
    ensures Piece(ts, pos, pos + Width(e), 0)
    decreases e, 0
  {
    hide Piece, PlainToken, Laid, Named, Width;
    BinaryLaid(ts, pos, e);
    NamedParts(e);
    OpSeparates(ts, pos + Width(e.left), e.op);
    var m := pos + Width(e.left);
    PrintedPiece(ts, pos, e.left);
    PieceToken(ts, pos, m, 0);
    if e.op.IsNotOp? {
      PieceToken(ts, pos, m + 1, 0);
    }
    PrintedPiece(ts, m + OpWidth(e.op), e.right);
    PieceJoin(ts, pos, m + OpWidth(e.op), pos + Width(e), 0, 0);
  }

  lemma GroupParts(ts: seq<Token>, pos: nat, e: Expr)
    requires (e.And? || e.Or?) && Laid(ts, pos, e) && Named(e)
    ensures var m := pos + 1 + Width(e.left);
      && Width(e) == Width(e.left) + Width(e.right) + 3 && pos + Width(e) < |ts|
      && Laid(ts, pos + 1, e.left) && Laid(ts, m + 1, e.right) && Named(e.left) && Named(e.right)
      && ts[pos] == LParen && Separates(ts, m) && Weight(ts[m]) == 1 && ts[m + 1 + Width(e.right)] == RParen
  {
    hide Laid, Width, PlainName, Named;
    GroupLaid(ts, pos, e);
    NamedParts(e);
  }

  /** The inside of a group: one connective. */
  lemma {:induction false} PrintedInside(ts: seq<Token>, pos: nat, e: Expr)
    requires (e.And? || e.Or?) && Laid(ts, pos, e) && Named(e)
    ensures pos + Width(e) < |ts| && 3 <= Width(e) && ts[pos] == LParen && ts[pos + Width(e) - 1] == RParen
    ensures Piece(ts, pos + 1, pos + Width(e) - 1, 1)
    decreases e, 0
  {
    hide Piece, PlainToken, Laid, Named, Width;
    GroupParts(ts, pos, e);
    var m := pos + 1 + Width(e.left);
    PrintedPiece(ts, pos + 1, e.left);
    PieceToken(ts, pos + 1, m, 0);
    PrintedPiece(ts, m + 1, e.right);
    PieceJoin(ts, pos + 1, m + 1, m + 1 + Width(e.right), 1, 0);
  }

  lemma {:induction false} PrintedGroup(ts: seq<Token>, pos: nat, e: Expr)
    requires (e.And? || e.Or?) && Laid(ts, pos, e) && Named(e) && !ListOpens(ts, pos)
    ensures Piece(ts, pos, pos + Width(e), 0)
    decreases e, 1
  {
    hide Piece, Laid, Named, Width;
    PrintedInside(ts, pos, e);
    PieceNone(ts, pos);
    PieceParens(ts, pos, pos, pos + Width(e) - 1, 0);
  }

  lemma NotLaid(ts: seq<Token>, pos: nat, e: Expr)
    requires e.Not? && Laid(ts, pos, e)
    ensures Width(e) == 1 + Width(e.inner) && pos + Width(e) < |ts| && ts[pos] == Not_ && Laid(ts, pos + 1, e.inner)
  {
  }

  lemma {:induction false} PrintedNot(ts: seq<Token>, pos: nat, e: Expr)
    requires e.Not? && Laid(ts, pos, e) && Named(e) && !ListOpens(ts, pos)
    ensures Piece(ts, pos, pos + Width(e), 0)
    decreases e, 0
  {
    hide Piece, PlainName, Laid, Named, Width;
    NotLaid(ts, pos, e);
    NamedParts(e);
    PieceNone(ts, pos);
    PieceToken(ts, pos, pos, 0);
    PrintedPiece(ts, pos + 1, e.inner);
    PieceJoin(ts, pos, pos + 1, pos + Width(e), 0, 0);
  }

  /** IN or BETWEEN behind its operand. */
  lemma PrintedWord(ts: seq<Token>, pos: nat, m: nat, word: Token, negated: bool)
    requires Piece(ts, pos, m, 0) && m + (if negated then 2 else 1) < |ts| && WordAt(ts, m, word, negated) && (word.In_? || word.Between_?)
    ensures Piece(ts, pos, m + (if negated then 2 else 1), Weight(word))
  {
    hide Piece;
    PieceToken(ts, pos, m, 0);
    if negated {
      PieceToken(ts, pos, m + 1, 0);
    }
  }

  lemma {:induction false} PrintedIn(ts: seq<Token>, pos: nat, e: Expr)
    requires e.In? && Laid(ts, pos, e) && Named(e) && !ListOpens(ts, pos)
    ensures Piece(ts, pos, pos + Width(e), 0)
    decreases e, 0
  {
    hide Piece, PlainName, Laid, LaidAll, Named, Width, WidthAll;
    InLaid(ts, pos, e);
    NamedParts(e);
    var m := pos + Width(e.left);
    var q := m + if e.negated then 2 else 1;
    PrintedPiece(ts, pos, e.left);
    PrintedWord(ts, pos, m, In_, e.negated);
    PrintedList(ts, q + 1, e.list);
    PieceParens(ts, pos, q, q + 1 + WidthAll(e.list), 0);
  }

  lemma {:induction false} PrintedBetween(ts: seq<Token>, pos: nat, e: Expr)
    requires e.Between? && Laid(ts, pos, e) && Named(e) && !ListOpens(ts, pos)
    ensures Piece(ts, pos, pos + Width(e), 0)
    decreases e, 0
  {
    hide Piece, PlainName, Laid, Named, Width;
    BetweenLaid(ts, pos, e);
    NamedParts(e);
    var m := pos + Width(e.inner);
    var q := m + if e.negated then 2 else 1;
    var a := q + Width(e.lower);
    PrintedPiece(ts, pos, e.inner);
    PrintedWord(ts, pos, m, Between_, e.negated);
    PrintedPiece(ts, q, e.lower);
    PieceJoin(ts, pos, q, a, -1, 0);
    PieceToken(ts, pos, a, -1);
    PrintedPiece(ts, a + 1, e.upper);
    PieceJoin(ts, pos, a + 1, a + 1 + Width(e.upper), 0, 0);
  }

  lemma CallLaid(ts: seq<Token>, pos: nat, e: Expr)
    requires e.Call? && Laid(ts, pos, e)
    ensures Width(e) == 3 + WidthAll(e.args) && pos + Width(e) < |ts| && ts[pos] == Ident(e.name) && ts[pos + 1] == LParen
    ensures LaidAll(ts, pos + 2, e.args) && ts[pos + 2 + WidthAll(e.args)] == RParen
  {
  }

  lemma {:induction false} PrintedCall(ts: seq<Token>, pos: nat, e: Expr)
    requires e.Call? && Laid(ts, pos, e) && Named(e) && !ListOpens(ts, pos)
    ensures Piece(ts, pos, pos + Width(e), 0)
    decreases e, 0
  {
    hide Piece, PlainName, Laid, LaidAll, Named, Width, WidthAll;
    CallLaid(ts, pos, e);
    NamedParts(e);
    PieceNone(ts, pos);
    PieceToken(ts, pos, pos, 0);
    PrintedList(ts, pos + 2, e.args);
    PieceParens(ts, pos, pos + 1, pos + 2 + WidthAll(e.args), 0);
  }

  lemma {:induction false} PrintedList(ts: seq<Token>, pos: nat, es: seq<Expr>)
    requires LaidAll(ts, pos, es) && AllNamed(es) && pos + WidthAll(es) < |ts| && !ListOpens(ts, pos)
    ensures Piece(ts, pos, pos + WidthAll(es), 0)
    decreases es, 0
  {
    hide Piece, PlainName, Laid, Named, Width;
    if es == [] {
      PieceNone(ts, pos);
    } else {
      PrintedPiece(ts, pos, es[0]);
      if |es| > 1 {
        var m := pos + Width(es[0]);
        PieceToken(ts, pos, m, 0);
        PrintedList(ts, m + 1, es[1..]);
        PieceJoin(ts, pos, m + 1, pos + WidthAll(es), 0, 0);
      }
    }
  }

  // ----- the round trip

  /** What AND and OR chains return is an AND or OR, or the first operand. */
  lemma {:induction false} ChainShape(ts: seq<Token>, left: Expr, pos: nat, d: nat)
    requires Terminated(ts) && pos < |ts|
    ensures var r := AndTail(ts, left, pos, d); r.Done? ==> r.e.And? || r == Done(left, pos)
    ensures var r := OrTail(ts, left, pos, d); r.Done? ==> r.e.Or? || r == Done(left, pos)
    decreases |ts| - pos
  {
    hide ParseNot, ParseAnd;
    if ts[pos] == And_ && ParseNot(ts, pos + 1, d).Done? {
      var right := ParseNot(ts, pos + 1, d);
      ChainShape(ts, And(left, right.e), right.pos, d);
    }
    if ts[pos] == Or_ && ParseAnd(ts, pos + 1, d).Done? {
      var right := ParseAnd(ts, pos + 1, d);
      ChainShape(ts, Or(left, right.e), right.pos, d);
    }
  }

  /** Outside of groups, only an AND or OR is not read by `ParseNot`. */
  lemma WholeByNot(ts: seq<Token>, pos: nat, d: nat)
    requires Terminated(ts) && pos < |ts| && ParseOr(ts, pos, d).Done?
    ensures var r := ParseOr(ts, pos, d); r.e.And? || r.e.Or? || r == ParseNot(ts, pos, d)
  {
    hide ParseNot, AndTail, OrTail;
    var and, not := ParseAnd(ts, pos, d), ParseNot(ts, pos, d);
    ChainShape(ts, and.e, and.pos, d);
    ChainShape(ts, not.e, not.pos, d);
  }

  /** A group that ends with the text is all that is read. */
  lemma WholeByGroup(ts: seq<Token>, d: nat)
    requires Terminated(ts) && ts[0] == LParen && Closes(ts, 0, |ts| - 2) && PlainTokens(ts) && ParseOr(ts, 0, d).Done?
    ensures ParsePrimary(ts, 0, d).Done? && ParseOr(ts, 0, d).e == ParsePrimary(ts, 0, d).e
  {
    hide Balanced, Excess, PlainToken, ParsePrimary;
    assert ParseAnd(ts, 0, d).Done?;
    assert ParseNot(ts, 0, d).Done? && ParseNot(ts, 0, d) == ParseComparison(ts, 0, d);
    assert ParseAdd(ts, 0, d).Done?;
    assert ParseMul(ts, 0, d).Done?;
    assert ParsePrimary(ts, 0, d).Done?;
    GroupSpan(ts, d);
    var x := ParsePrimary(ts, 0, d);
    assert MulTail(ts, x.e, x.pos, d) == x && AddTail(ts, x.e, x.pos, d) == x && ComparisonTail(ts, x.e, x.pos, d) == x;
    assert AndTail(ts, x.e, x.pos, d) == x && OrTail(ts, x.e, x.pos, d) == x;
  }

  lemma GroupSpan(ts: seq<Token>, d: nat)
    requires PlainTokens(ts) && ts[0] == LParen && Closes(ts, 0, |ts| - 2) && ParsePrimary(ts, 0, d).Done?
    ensures ParsePrimary(ts, 0, d).pos == |ts| - 1
  {
    hide Balanced, Excess, PlainToken, ParseOr, Paired;
    var inner := ParseOr(ts, 1, d + 1);
    OrCovers(ts, 1, d + 1);
    ClosedOnce(ts, 0, inner.pos, |ts| - 2);
  }

  lemma PrintedTokens(e: Expr)
    requires Named(e)
    ensures var ts := Print(e) + [Eof];
      GroupedTokens(ts) && Laid(ts, 0, e) && |ts| == Width(e) + 1 && Piece(ts, 0, Width(e), 0)
  {
    hide Laid, Named, Width, Print, Seg, WellGrouped, PlainToken;
    var ts := Print(e) + [Eof];
    PrintWidth(e);
    assert ts[0..|Print(e)|] == Print(e);
    LayOut(ts, 0, e);
    PrintedPiece(ts, 0, e);
    EndPlain(ts);
    forall i: nat | i < |ts| ensures PlainToken(ts[i]) && WellGrouped(ts, i) {
      assert i < Width(e) ==> PieceAt(ts, i);
    }
  }

  lemma EndPlain(ts: seq<Token>)
    requires Terminated(ts)
    ensures PlainToken(ts[|ts| - 1]) && WellGrouped(ts, |ts| - 1)
  {
  }

  lemma GroupCloses(ts: seq<Token>, e: Expr)
    requires (e.And? || e.Or?) && Laid(ts, 0, e) && Named(e) && |ts| == Width(e) + 1
    ensures ts[0] == LParen && Closes(ts, 0, |ts| - 2)
  {
    hide Laid, Named, Width, Balanced, Excess;
    PrintedInside(ts, 0, e);
  }

  /** Printing and parsing gives an expression back exactly when its operators are ranked as the
      grammar ranks them, its literals are plain, its IN lists are not empty, its calls are in upper
      case and no aggregates, and its groups and calls are not nested too deep. */
  lemma ReadsBackIff(e: Expr)
    requires Named(e)
    ensures Reread(e).Done? && Reread(e).e == e <==> Rank4(e) && Depth(e) <= MAX_DEPTH
  {
    hide Rank4, Rank0, ParseOr, ParseNot, ParsePrimary, Named, GroupedTokens, PlainTokens, Laid, Closes;
    if Rank4(e) {
      PrintReadsBack(e);
    }
    if Reread(e).Done? && Reread(e).e == e {
      var ts := Print(e) + [Eof];
      PrintedTokens(e);
      GroupedFacts(ts);
      if e.And? || e.Or? {
        GroupCloses(ts, e);
        WholeByGroup(ts, 0);
        RankPrimary(ts, 0, 0);
        PrimaryIsNegation(e);
      } else {
        WholeByNot(ts, 0, 0);
        RankNot(ts, 0, 0);
      }
      PrintReadsBack(e);
    }
  }

  lemma GroupedFacts(ts: seq<Token>)
    requires GroupedTokens(ts)
    ensures PlainTokens(ts) && Terminated(ts)
  {
  }

  lemma PrimaryIsNegation(e: Expr)
    requires Rank0(e)
    ensures Rank4(e)
  {
    PrimaryIsProduct(e);
    ProductIsSum(e);
    SumIsNegation(e);
  }
}
