/** The expression grammar, on tokens: what the recursive-descent parser accepts and returns. */
module Parsing {
  import opened Ast
  import opened Text

  /** `Cmp` carries every infix operator of comparison rank except the two JSON ones the parser
      also takes behind a name.  `Form` is a token that opens a form not modelled here (SELECT,
      EXISTS, CASE, CAST, OVER, ALL, the JSON arrows and the like); `Other` is any other token. */
  datatype Token =
    | Or_ | And_ | Not_ | Cmp(symbol: string) | Like | ILike | In_ | Is | Between_
    | Plus | Minus | Star | Slash | LParen | RParen | Comma | Dot
    | Ident(name: string) | IntLit(i: int) | FloatLit(f: real) | TextLit(s: string) | True_ | False_ | Null_
    | ParamTok(index: int) | Form | Other_ | Eof

  const MAX_DEPTH := 32

  /** Names that are calls without parentheses. */
  const CLOCK_WORDS: set<string> := {"CURRENT_DATE", "CURRENT_TIME", "CURRENT_TIMESTAMP"}

  const AGGREGATES: set<string> :=
    {"COUNT", "SUM", "AVG", "MIN", "MAX", "STRING_AGG", "BOOL_AND", "BOOL_OR", "STDDEV", "VARIANCE", "JSON_OBJECT_AGG"}

  /** The tokens end with the end marker, as the lexer loop leaves them. */
  predicate Terminated(ts: seq<Token>) {
    ts != [] && ts[|ts| - 1] == Eof
  }

  datatype Parsed = Done(e: Expr, pos: nat) | Fail

  datatype ParsedList = DoneList(es: seq<Expr>, pos: nat) | FailList

  /** The token after the one at `pos`. */
  function Peek(ts: seq<Token>, pos: nat): Token {
    if pos + 1 < |ts| then ts[pos + 1] else Eof
  }

  // ----- OR, AND, NOT

  function ParseOr(ts: seq<Token>, pos: nat, d: nat): (r: Parsed)
    requires Terminated(ts) && pos < |ts|
    ensures r.Done? ==> pos < r.pos < |ts|
    decreases |ts| - pos, 6
  {
    var left := ParseAnd(ts, pos, d);
    if left.Fail? then Fail else OrTail(ts, left.e, left.pos, d)
  }

  function OrTail(ts: seq<Token>, left: Expr, pos: nat, d: nat): (r: Parsed)
    requires Terminated(ts) && pos < |ts|
    ensures r.Done? ==> pos <= r.pos < |ts|
    decreases |ts| - pos, 7
  {
    if ts[pos] != Or_ then Done(left, pos) else
    var right := ParseAnd(ts, pos + 1, d);
    if right.Fail? then Fail else OrTail(ts, Or(left, right.e), right.pos, d)
  }

  function ParseAnd(ts: seq<Token>, pos: nat, d: nat): (r: Parsed)
    requires Terminated(ts) && pos < |ts|
    ensures r.Done? ==> pos < r.pos < |ts|
    decreases |ts| - pos, 5
  {
    var left := ParseNot(ts, pos, d);
    if left.Fail? then Fail else AndTail(ts, left.e, left.pos, d)
  }

  function AndTail(ts: seq<Token>, left: Expr, pos: nat, d: nat): (r: Parsed)
    requires Terminated(ts) && pos < |ts|
    ensures r.Done? ==> pos <= r.pos < |ts|
    decreases |ts| - pos, 7
  {
    if ts[pos] != And_ then Done(left, pos) else
    var right := ParseNot(ts, pos + 1, d);
    if right.Fail? then Fail else AndTail(ts, And(left, right.e), right.pos, d)
  }

  function ParseNot(ts: seq<Token>, pos: nat, d: nat): (r: Parsed)
    requires Terminated(ts) && pos < |ts|
    ensures r.Done? ==> pos < r.pos < |ts|
    decreases |ts| - pos, 4
  {
    if ts[pos] != Not_ then ParseComparison(ts, pos, d) else
    var inner := ParseNot(ts, pos + 1, d);
    if inner.Fail? then Fail else Done(Not(inner.e), inner.pos)
  }

  // ----- comparisons

  function ParseComparison(ts: seq<Token>, pos: nat, d: nat): (r: Parsed)
    requires Terminated(ts) && pos < |ts|
    ensures r.Done? ==> pos < r.pos < |ts|
    decreases |ts| - pos, 3
  {
    var left := ParseAdd(ts, pos, d);
    if left.Fail? then Fail else ComparisonTail(ts, left.e, left.pos, d)
  }

  function ComparisonTail(ts: seq<Token>, left: Expr, pos: nat, d: nat): (r: Parsed)
    requires Terminated(ts) && pos < |ts|
    ensures r.Done? ==> pos <= r.pos < |ts|
    decreases |ts| - pos, 7
  {
    match ts[pos]
    case Cmp(symbol) => Operand(ts, left, Infix(symbol), pos + 1, d)
    case Like => Operand(ts, left, LikeOp, pos + 1, d)
    case ILike => Operand(ts, left, ILikeOp, pos + 1, d)
    case In_ => InTail(ts, left, pos + 1, d, false)
    case Between_ => BetweenTail(ts, left, pos + 1, d, false)
    case Not_ =>
      (match Peek(ts, pos)
       case Between_ => BetweenTail(ts, left, pos + 2, d, true)
       case In_ => InTail(ts, left, pos + 2, d, true)
       case Like => Negated(Operand(ts, left, LikeOp, pos + 2, d))
       case ILike => Negated(Operand(ts, left, ILikeOp, pos + 2, d))
       case Form => Fail
       case _ => Done(left, pos))
    case Is =>
      if Peek(ts, pos) == Null_ then Done(Binary(left, IsOp, Val(NULL_VAL)), pos + 2)
      else if Peek(ts, pos) == Not_ && Peek(ts, pos + 1) == Null_ then Done(Binary(left, IsNotOp, Val(NULL_VAL)), pos + 3)
      else Done(left, pos + 1)
    case Form => Fail
    case _ => Done(left, pos)
  }

  function Negated(r: Parsed): Parsed {
    if r.Fail? then Fail else Done(Not(r.e), r.pos)
  }

  function Operand(ts: seq<Token>, left: Expr, op: Op, pos: nat, d: nat): (r: Parsed)
    requires Terminated(ts) && pos < |ts|
    ensures r.Done? ==> pos < r.pos < |ts|
    decreases |ts| - pos, 7
  {
    var right := ParseAdd(ts, pos, d);
    if right.Fail? then Fail else Done(Binary(left, op, right.e), right.pos)
  }

  function InTail(ts: seq<Token>, left: Expr, pos: nat, d: nat, negated: bool): (r: Parsed)
    requires Terminated(ts) && pos < |ts|
    ensures r.Done? ==> pos < r.pos < |ts|
    decreases |ts| - pos, 8
  {
    if ts[pos] != LParen then Fail else
    var list := ParseList(ts, pos + 1, d);
    if list.FailList? then Fail else Done(In(left, list.es, negated), list.pos + 1)
  }

  function BetweenTail(ts: seq<Token>, left: Expr, pos: nat, d: nat, negated: bool): (r: Parsed)
    requires Terminated(ts) && pos < |ts|
    ensures r.Done? ==> pos < r.pos < |ts|
    decreases |ts| - pos, 7
  {
    var lower := ParseAdd(ts, pos, d);
    if lower.Fail? || ts[lower.pos] != And_ then Fail else
    var upper := ParseAdd(ts, lower.pos + 1, d);
    if upper.Fail? then Fail else Done(Between(left, lower.e, upper.e, negated), upper.pos)
  }

  /** One or more expressions; stops in front of the closing parenthesis. */
  function ParseList(ts: seq<Token>, pos: nat, d: nat): (r: ParsedList)
    requires Terminated(ts) && pos < |ts|
    ensures r.DoneList? ==> pos < r.pos < |ts| && ts[r.pos] == RParen
    decreases |ts| - pos, 7
  {
    var first := ParseOr(ts, pos, d);
    if first.Fail? then FailList
    else if ts[first.pos] == RParen then DoneList([first.e], first.pos)
    else if ts[first.pos] != Comma then FailList
    else
      var rest := ParseList(ts, first.pos + 1, d);
      if rest.FailList? then FailList else DoneList([first.e] + rest.es, rest.pos)
  }

  // ----- arithmetic

  function AddOp(t: Token): Op {
    if t == Plus then Sum else Difference
  }

  function MulOp(t: Token): Op {
    if t == Star then Times else Divide
  }

  function ParseAdd(ts: seq<Token>, pos: nat, d: nat): (r: Parsed)
    requires Terminated(ts) && pos < |ts|
    ensures r.Done? ==> pos < r.pos < |ts|
    decreases |ts| - pos, 2
  {
    var left := ParseMul(ts, pos, d);
    if left.Fail? then Fail else AddTail(ts, left.e, left.pos, d)
  }

  function AddTail(ts: seq<Token>, left: Expr, pos: nat, d: nat): (r: Parsed)
    requires Terminated(ts) && pos < |ts|
    ensures r.Done? ==> pos <= r.pos < |ts|
    decreases |ts| - pos, 7
  {
    if ts[pos] != Plus && ts[pos] != Minus then Done(left, pos) else
    var right := ParseMul(ts, pos + 1, d);
    if right.Fail? then Fail
    else AddTail(ts, Binary(left, AddOp(ts[pos]), right.e), right.pos, d)
  }

  function ParseMul(ts: seq<Token>, pos: nat, d: nat): (r: Parsed)
    requires Terminated(ts) && pos < |ts|
    ensures r.Done? ==> pos < r.pos < |ts|
    decreases |ts| - pos, 1
  {
    var left := ParsePrimary(ts, pos, d);
    if left.Fail? then Fail else MulTail(ts, left.e, left.pos, d)
  }

  function MulTail(ts: seq<Token>, left: Expr, pos: nat, d: nat): (r: Parsed)
    requires Terminated(ts) && pos < |ts|
    ensures r.Done? ==> pos <= r.pos < |ts|
    decreases |ts| - pos, 7
  {
    if ts[pos] != Star && ts[pos] != Slash then Done(left, pos) else
    var right := ParsePrimary(ts, pos + 1, d);
    if right.Fail? then Fail
    else MulTail(ts, Binary(left, MulOp(ts[pos]), right.e), right.pos, d)
  }

  // ----- primaries

  function ParsePrimary(ts: seq<Token>, pos: nat, d: nat): (r: Parsed)
    requires Terminated(ts) && pos < |ts|
    ensures r.Done? ==> pos < r.pos < |ts|
    decreases |ts| - pos, 0
  {
    match ts[pos]
    case LParen =>
      if d + 1 > MAX_DEPTH then Fail else
      var inner := ParseOr(ts, pos + 1, d + 1);
      if inner.Fail? || ts[inner.pos] != RParen then Fail else Done(inner.e, inner.pos + 1)
    case Ident(name) => ParseName(ts, name, pos + 1, d)
    case IntLit(i) => Done(Val(IntVal(i)), pos + 1)
    case FloatLit(f) => Done(Val(FloatVal(f)), pos + 1)
    case TextLit(s) => Done(Val(TextVal(s)), pos + 1)
    case True_ => Done(Val(BoolVal(true)), pos + 1)
    case False_ => Done(Val(BoolVal(false)), pos + 1)
    case Null_ => Done(Val(NULL_VAL), pos + 1)
    case ParamTok(index) => Done(Param(index), pos + 1)
    case _ => Fail
  }

  /** The part in front of the first dot. */
  function BeforeDot(s: string): string
    requires DotIn(s)
  {
    if s[0] == '.' then "" else [s[0]] + BeforeDot(s[1..])
  }

  function Split(full: string): Expr
    requires DotIn(full)
  {
    Col(BeforeDot(full), AfterDot(full))
  }

  /** Behind a name or a call the parser looks for JSON operators. */
  function Post(ts: seq<Token>, e: Expr, pos: nat): Parsed
    requires pos < |ts|
  {
    if ts[pos] == Form then Fail else Done(e, pos)
  }

  /** The parser's test for `old.` and `new.` looks one token too far: a bare name passes over the
      next token when a dot follows that one. */
  function SkipBeforeDot(ts: seq<Token>, name: string, pos: nat): (p: nat)
    requires Terminated(ts) && pos < |ts|
    ensures pos <= p < |ts|
  {
    if (name == "old" || name == "new") && Peek(ts, pos) == Dot then pos + 1 else pos
  }

  function ParseName(ts: seq<Token>, name: string, pos: nat, d: nat): (r: Parsed)
    requires Terminated(ts) && pos < |ts|
    ensures r.Done? ==> pos <= r.pos < |ts|
    decreases |ts| - pos, 7
  {
    if Upper(name) in CLOCK_WORDS then Done(Call(Upper(name), []), pos)
    else if ts[pos] == Dot then
      if !Peek(ts, pos).Ident? then Fail else
      assert (name + "." + Peek(ts, pos).name)[|name|] == '.';
      Post(ts, Split(name + "." + Peek(ts, pos).name), pos + 2)
    else
      var p := SkipBeforeDot(ts, name, pos);
      if DotIn(name) then Post(ts, Split(name), p)
      else if ts[p] == LParen then ParseCall(ts, name, p + 1, d)
      else Post(ts, Col("", name), SkipBeforeDot(ts, name, p))
  }

  /** The call's arguments, behind the opening parenthesis. */
  function ParseCall(ts: seq<Token>, name: string, pos: nat, d: nat): (r: Parsed)
    requires Terminated(ts) && pos < |ts|
    ensures r.Done? ==> pos < r.pos < |ts|
    decreases |ts| - pos, 8
  {
    if d + 1 > MAX_DEPTH || Upper(name) in AGGREGATES then Fail
    else if ts[pos] == RParen then Post(ts, Call(Upper(name), []), pos + 1)
    else if ts[pos] == Star || (ts[pos].Ident? && Upper(ts[pos].name) == "DISTINCT") then Fail
    else
      var args := ParseList(ts, pos, d + 1);
      if args.FailList? then Fail else Post(ts, Call(Upper(name), args.es), args.pos + 1)
  }
}
