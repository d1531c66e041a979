/** The parser as the code runs it: one object with a position and a nesting depth. */
module ParserMachines {
  import opened Ast
  import opened Parsing
  import opened Results
  import opened Text

  /** What a method returned and left behind is what the grammar says of the place it started at. */
  ghost predicate Agrees(want: Parsed, got: Option<Expr>, pos: nat) {
    if want.Done? then got == Some(want.e) && pos == want.pos else got.None?
  }

  ghost predicate AgreesList(want: ParsedList, got: Option<seq<Expr>>, pos: nat) {
    if want.DoneList? then got == Some(want.es) && pos == want.pos else got.None?
  }

  class Parser {
    const tokens: seq<Token>
    var pos: nat
    var depth: nat

    ghost predicate Valid()
      reads this
    {
      Terminated(tokens) && pos < |tokens|
    }

    constructor (tokens: seq<Token>)
      requires Terminated(tokens)
      ensures Valid() && this.tokens == tokens && pos == 0 && depth == 0
    {
      this.tokens := tokens;
      pos, depth := 0, 0;
    }

    function Current(): Token
      requires Valid()
      reads this
    {
      tokens[pos]
    }

    /** The end marker is never passed. */
    method Advance()
      requires Valid()
      modifies `pos
      ensures Valid() && pos == old(pos) + if old(Current()) == Eof && old(pos) == |tokens| - 1 then 0 else 1
    {
      if pos < |tokens| - 1 {
        pos := pos + 1;
      }
    }

    method Consume(t: Token) returns (ok: bool)
      requires Valid() && t != Eof
      modifies `pos
      ensures Valid() && ok == (old(Current()) == t) && pos == old(pos) + if ok then 1 else 0
    {
      ok := tokens[pos] == t;
      if ok {
        Advance();
      }
    }

    /** `checkDepth`: the depth counts up even when the limit is passed. */
    method CheckDepth() returns (ok: bool)
      requires depth <= MAX_DEPTH
      modifies `depth
      ensures depth == old(depth) + 1 && ok == (depth <= MAX_DEPTH)
    {
      depth := depth + 1;
      ok := depth <= MAX_DEPTH;
    }

    method ExitDepth()
      modifies `depth
      ensures depth == if old(depth) > 0 then old(depth) - 1 else 0
    {
      if depth > 0 {
        depth := depth - 1;
      }
    }

    method Disjunction() returns (r: Option<Expr>)
      requires Valid() && depth <= MAX_DEPTH
      modifies `pos, `depth
      ensures Valid() && depth <= MAX_DEPTH + 1 && Agrees(ParseOr(tokens, old(pos), old(depth)), r, pos) && (r.Some? ==> depth == old(depth))
      decreases |tokens| - pos, 6
    {
      hide ParseAnd;
      r := Conjunction();
      if r.None? {
        return;
      }
      while Current() == Or_
        invariant Valid() && r.Some? && depth == old(depth) && old(pos) < pos
        invariant ParseOr(tokens, old(pos), depth) == OrTail(tokens, r.value, pos, depth)
        decreases |tokens| - pos
      {
        Advance();
        var right := Conjunction();
        if right.None? {
          return None;
        }
        r := Some(Or(r.value, right.value));
      }
    }

    method Conjunction() returns (r: Option<Expr>)
      requires Valid() && depth <= MAX_DEPTH
      modifies `pos, `depth
      ensures Valid() && depth <= MAX_DEPTH + 1 && Agrees(ParseAnd(tokens, old(pos), old(depth)), r, pos) && (r.Some? ==> depth == old(depth))
      decreases |tokens| - pos, 5
    {
      hide ParseNot;
      r := Negation();
      if r.None? {
        return;
      }
      while Current() == And_
        invariant Valid() && r.Some? && depth == old(depth) && old(pos) < pos
        invariant ParseAnd(tokens, old(pos), depth) == AndTail(tokens, r.value, pos, depth)
        decreases |tokens| - pos
      {
        Advance();
        var right := Negation();
        if right.None? {
          return None;
        }
        r := Some(And(r.value, right.value));
      }
    }

    method Negation() returns (r: Option<Expr>)
      requires Valid() && depth <= MAX_DEPTH
      modifies `pos, `depth
      ensures Valid() && depth <= MAX_DEPTH + 1 && Agrees(ParseNot(tokens, old(pos), old(depth)), r, pos) && (r.Some? ==> depth == old(depth))
      decreases |tokens| - pos, 4
    {
      hide ParseComparison;
      if Current() == Not_ {
        Advance();
        r := Negation();
        if r.Some? {
          r := Some(Not(r.value));
        }
      } else {
        r := Comparison();
      }
    }

    method Comparison() returns (r: Option<Expr>)
      requires Valid() && depth <= MAX_DEPTH
      modifies `pos, `depth
      ensures Valid() && depth <= MAX_DEPTH + 1 && Agrees(ParseComparison(tokens, old(pos), old(depth)), r, pos) && (r.Some? ==> depth == old(depth))
      decreases |tokens| - pos, 3
    {
      hide ParseAdd, ComparisonTail;
      r := Addition();
      if r.Some? {
        r := AfterOperand(r.value);
      }
    }

    /** The switch behind the first operand. */
    method AfterOperand(left: Expr) returns (r: Option<Expr>)
      requires Valid() && depth <= MAX_DEPTH
      modifies `pos, `depth
      ensures Valid() && depth <= MAX_DEPTH + 1 && Agrees(ComparisonTail(tokens, left, old(pos), old(depth)), r, pos) && (r.Some? ==> depth == old(depth))
      decreases |tokens| - pos, 7
    {
      hide Operand, InTail, BetweenTail;
      var next := Peek(tokens, pos);
      match Current()
      case Cmp(symbol) =>
        Advance();
        r := RightOperand(left, Infix(symbol));
      case Like =>
        Advance();
        r := RightOperand(left, LikeOp);
      case ILike =>
        Advance();
        r := RightOperand(left, ILikeOp);
      case In_ =>
        Advance();
        r := Membership(left, false);
      case Between_ =>
        Advance();
        r := Range(left, false);
      case Not_ => r := AfterNot(left, next);
      case Is => r := NullTest(left);
      case Form => r := None;
      case _ => r := Some(left);
    }

    /** Behind an operand, NOT belongs to the word that follows it. */
    method AfterNot(left: Expr, next: Token) returns (r: Option<Expr>)
      requires Valid() && depth <= MAX_DEPTH && Current() == Not_ && next == Peek(tokens, pos)
      modifies `pos, `depth
      ensures Valid() && depth <= MAX_DEPTH + 1 && Agrees(ComparisonTail(tokens, left, old(pos), old(depth)), r, pos) && (r.Some? ==> depth == old(depth))
      decreases |tokens| - pos, 6
    {
      hide Operand, InTail, BetweenTail;
      if next == Between_ || next == In_ || next == Like || next == ILike {
        Advance();
        Advance();
        r := NegatedWord(left, next);
      } else {
        r := if next == Form then None else Some(left);
      }
    }

    method NegatedWord(left: Expr, word: Token) returns (r: Option<Expr>)
      requires Valid() && depth <= MAX_DEPTH && (word == Between_ || word == In_ || word == Like || word == ILike)
      modifies `pos, `depth
      ensures Valid() && depth <= MAX_DEPTH + 1 && (r.Some? ==> depth == old(depth))
      ensures Agrees(
        if word == Between_ then BetweenTail(tokens, left, old(pos), old(depth), true)
        else if word == In_ then InTail(tokens, left, old(pos), old(depth), true)
        else Negated(Operand(tokens, left, if word == Like then LikeOp else ILikeOp, old(pos), old(depth))), r, pos)
      decreases |tokens| - pos, 9
    {
      hide Operand, InTail, BetweenTail;
      if word == Between_ {
        r := Range(left, true);
      } else if word == In_ {
        r := Membership(left, true);
      } else {
        r := RightOperand(left, if word == Like then LikeOp else ILikeOp);
        r := if r.Some? then Some(Not(r.value)) else None;
      }
    }

    method NullTest(left: Expr) returns (r: Option<Expr>)
      requires Valid() && depth <= MAX_DEPTH && Current() == Is
      modifies `pos
      ensures Valid() && depth <= MAX_DEPTH + 1 && Agrees(ComparisonTail(tokens, left, old(pos), depth), r, pos)
    {
      Advance();
      if Current() == Null_ {
        Advance();
        r := Some(Binary(left, IsOp, Val(NULL_VAL)));
      } else if Current() == Not_ && Peek(tokens, pos) == Null_ {
        Advance();
        Advance();
        r := Some(Binary(left, IsNotOp, Val(NULL_VAL)));
      } else {
        r := Some(left);
      }
    }

    method RightOperand(left: Expr, op: Op) returns (r: Option<Expr>)
      requires Valid() && depth <= MAX_DEPTH
      modifies `pos, `depth
      ensures Valid() && depth <= MAX_DEPTH + 1 && Agrees(Operand(tokens, left, op, old(pos), old(depth)), r, pos) && (r.Some? ==> depth == old(depth))
      decreases |tokens| - pos, 7
    {
      hide ParseAdd;
      r := Addition();
      if r.Some? {
        r := Some(Binary(left, op, r.value));
      }
    }

    method Membership(left: Expr, negated: bool) returns (r: Option<Expr>)
      requires Valid() && depth <= MAX_DEPTH
      modifies `pos, `depth
      ensures Valid() && depth <= MAX_DEPTH + 1 && Agrees(InTail(tokens, left, old(pos), old(depth), negated), r, pos) && (r.Some? ==> depth == old(depth))
      decreases |tokens| - pos, 8
    {
      hide ParseList;
      var ok := Consume(LParen);
      if !ok {
        return None;
      }
      var list := ValueList();
      if list.None? {
        return None;
      }
      ok := Consume(RParen);
      return if ok then Some(In(left, list.value, negated)) else None;
    }

    method Range(left: Expr, negated: bool) returns (r: Option<Expr>)
      requires Valid() && depth <= MAX_DEPTH
      modifies `pos, `depth
      ensures Valid() && depth <= MAX_DEPTH + 1 && Agrees(BetweenTail(tokens, left, old(pos), old(depth), negated), r, pos) && (r.Some? ==> depth == old(depth))
      decreases |tokens| - pos, 7
    {
      hide ParseAdd;
      var lower := Addition();
      if lower.None? {
        return None;
      }
      var ok := Consume(And_);
      if !ok {
        return None;
      }
      var upper := Addition();
      return if upper.Some? then Some(Between(left, lower.value, upper.value, negated)) else None;
    }

    /** `parseValueListUntilRParen`. */
    method ValueList() returns (r: Option<seq<Expr>>)
      requires Valid() && depth <= MAX_DEPTH
      modifies `pos, `depth
      ensures Valid() && depth <= MAX_DEPTH + 1 && AgreesList(ParseList(tokens, old(pos), old(depth)), r, pos) && (r.Some? ==> depth == old(depth))
      decreases |tokens| - pos, 7
    {
      hide ParseOr;
      var items := [];
      while true
        invariant Valid() && depth == old(depth) && old(pos) <= pos
        invariant ParseList(tokens, old(pos), depth) == Onto(items, ParseList(tokens, pos, depth))
        decreases |tokens| - pos
      {
        ghost var start := pos;
        var value := Disjunction();
        if value.None? {
          return None;
        }
        ghost var before := items;
        items := items + [value.value];
        if Current() == Comma {
          Advance();
          OntoMore(before, value.value, ParseList(tokens, pos, depth));
        } else if Current() == RParen {
          return Some(items);
        } else {
          return None;
        }
      }
    }

    method Addition() returns (r: Option<Expr>)
      requires Valid() && depth <= MAX_DEPTH
      modifies `pos, `depth
      ensures Valid() && depth <= MAX_DEPTH + 1 && Agrees(ParseAdd(tokens, old(pos), old(depth)), r, pos) && (r.Some? ==> depth == old(depth))
      decreases |tokens| - pos, 2
    {
      hide ParseMul;
      r := Multiplication();
      if r.None? {
        return;
      }
      while Current() == Plus || Current() == Minus
        invariant Valid() && r.Some? && depth == old(depth) && old(pos) < pos
        invariant ParseAdd(tokens, old(pos), depth) == AddTail(tokens, r.value, pos, depth)
        decreases |tokens| - pos
      {
        var op := AddOp(Current());
        Advance();
        var right := Multiplication();
        if right.None? {
          return None;
        }
        r := Some(Binary(r.value, op, right.value));
      }
    }

    method Multiplication() returns (r: Option<Expr>)
      requires Valid() && depth <= MAX_DEPTH
      modifies `pos, `depth
      ensures Valid() && depth <= MAX_DEPTH + 1 && Agrees(ParseMul(tokens, old(pos), old(depth)), r, pos) && (r.Some? ==> depth == old(depth))
      decreases |tokens| - pos, 1
    {
      hide ParsePrimary;
      r := Primary();
      if r.None? {
        return;
      }
      while Current() == Star || Current() == Slash
        invariant Valid() && r.Some? && depth == old(depth) && old(pos) < pos
        invariant ParseMul(tokens, old(pos), depth) == MulTail(tokens, r.value, pos, depth)
        decreases |tokens| - pos
      {
        var op := MulOp(Current());
        Advance();
        var right := Primary();
        if right.None? {
          return None;
        }
        r := Some(Binary(r.value, op, right.value));
      }
    }

    method Primary() returns (r: Option<Expr>)
      requires Valid() && depth <= MAX_DEPTH
      modifies `pos, `depth
      ensures Valid() && depth <= MAX_DEPTH + 1 && Agrees(ParsePrimary(tokens, old(pos), old(depth)), r, pos) && (r.Some? ==> depth == old(depth))
      decreases |tokens| - pos, 0
    {
      hide ParseOr, ParseName;
      match Current()
      case LParen =>
        var ok := CheckDepth();
        if !ok {
          return None;
        }
        Advance();
        r := Disjunction();
        if r.None? {
          ExitDepth();
          return;
        }
        ok := Consume(RParen);
        ExitDepth();
        if !ok {
          r := None;
        }
      case Ident(name) =>
        Advance();
        r := Name(name);
      case IntLit(i) => Advance(); r := Some(Val(IntVal(i)));
      case FloatLit(f) => Advance(); r := Some(Val(FloatVal(f)));
      case TextLit(s) => Advance(); r := Some(Val(TextVal(s)));
      case True_ => Advance(); r := Some(Val(BoolVal(true)));
      case False_ => Advance(); r := Some(Val(BoolVal(false)));
      case Null_ => Advance(); r := Some(Val(NULL_VAL));
      case ParamTok(index) => Advance(); r := Some(Param(index));
      case _ => r := None;
    }

    /** The name case of `parsePrimary`, behind the name. */
    method Name(name: string) returns (r: Option<Expr>)
      requires Valid() && depth <= MAX_DEPTH
      modifies `pos, `depth
      ensures Valid() && depth <= MAX_DEPTH + 1 && Agrees(ParseName(tokens, name, old(pos), old(depth)), r, pos) && (r.Some? ==> depth == old(depth))
      decreases |tokens| - pos, 7
    {
      hide ParseCall, Upper, Split;
      if Upper(name) in CLOCK_WORDS {
        return Some(Call(Upper(name), []));
      }
      if Current() == Dot {
        Advance();
        if !Current().Ident? {
          return None;
        }
        var full := name + "." + Current().name;
        assert full[|name|] == '.';
        Advance();
        return if Current() == Form then None else Some(Split(full));
      }
      pos := SkipBeforeDot(tokens, name, pos);
      if DotIn(name) {
        return if Current() == Form then None else Some(Split(name));
      }
      if Current() == LParen {
        Advance();
        r := Arguments(name);
        return;
      }
      pos := SkipBeforeDot(tokens, name, pos);
      return if Current() == Form then None else Some(Col("", name));
    }

    method Arguments(name: string) returns (r: Option<Expr>)
      requires Valid() && depth <= MAX_DEPTH
      modifies `pos, `depth
      ensures Valid() && depth <= MAX_DEPTH + 1 && Agrees(ParseCall(tokens, name, old(pos), old(depth)), r, pos) && (r.Some? ==> depth == old(depth))
      decreases |tokens| - pos, 8
    {
      hide ParseList, Upper;
      var ok := CheckDepth();
      if !ok || Upper(name) in AGGREGATES {
        return None;
      }
      var args := [];
      if Current() != RParen {
        if Current() == Star || (Current().Ident? && Upper(Current().name) == "DISTINCT") {
          return None;
        }
        var list := ValueList();
        if list.None? {
          ExitDepth();
          return None;
        }
        args := list.value;
      }
      ok := Consume(RParen);
      ExitDepth();
      return if !ok || Current() == Form then None else Some(Call(Upper(name), args));
    }
  }

  ghost function Onto(items: seq<Expr>, r: ParsedList): ParsedList {
    if r.FailList? then FailList else DoneList(items + r.es, r.pos)
  }

  lemma OntoMore(items: seq<Expr>, e: Expr, r: ParsedList)
    ensures Onto(items + [e], r) == Onto(items, if r.FailList? then FailList else DoneList([e] + r.es, r.pos))
  {
    if r.DoneList? {
      assert items + [e] + r.es == items + ([e] + r.es);
    }
  }
}
