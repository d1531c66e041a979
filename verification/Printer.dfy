/** Printing expressions, as the tokens the printed text is read back as, and the round trip with
    the parser. */
module Printing {
  import opened Ast
  import opened Parsing
  import opened Text

  function PrintOp(op: Op): seq<Token> {
    match op
    case Sum => [Plus]
    case Difference => [Minus]
    case Times => [Star]
    case Divide => [Slash]
    case LikeOp => [Like]
    case ILikeOp => [ILike]
    case IsOp => [Is]
    case IsNotOp => [Is, Not_]
    case Infix(symbol) => [Cmp(symbol)]
  }

  /** `formatValueSQL`.  A float without a fraction is printed without a point. */
  function PrintValue(v: Value): Token {
    if v.tag == "string" then TextLit(v.text)
    else if v.tag == "int" then IntLit(v.int_)
    else if v.tag == "float" then
      if v.float_ == v.float_.Floor as real then IntLit(v.float_.Floor) else FloatLit(v.float_)
    else if v.tag == "bool" then if v.bool_ then True_ else False_
    else if v.tag == "null" then Null_
    else Other_
  }

  /** `FormatExpression`. */
  function Print(e: Expr): seq<Token>
    decreases e, 0
  {
    match e
    case Nil => []
    case Val(v) => [PrintValue(v)]
    case Col(table, name) => if table == "" then [Ident(name)] else [Ident(table), Dot, Ident(name)]
    case Binary(l, op, r) => Print(l) + PrintOp(op) + Print(r)
    case And(l, r) => [LParen] + Print(l) + [And_] + Print(r) + [RParen]
    case Or(l, r) => [LParen] + Print(l) + [Or_] + Print(r) + [RParen]
    case Not(x) => [Not_] + Print(x)
    case In(l, list, negated) => Print(l) + (if negated then [Not_, In_] else [In_]) + [LParen] + PrintAll(list) + [RParen]
    case Between(x, lower, upper, negated) =>
      Print(x) + (if negated then [Not_, Between_] else [Between_]) + Print(lower) + [And_] + Print(upper)
    case Call(name, args) => [Ident(name), LParen] + PrintAll(args) + [RParen]
    case Param(index) => [ParamTok(index)]
    case Cast(_, _) => [Form]
    case Opaque(_, _) => [Form]
  }

  /** The list, with commas between. */
  function PrintAll(es: seq<Expr>): seq<Token>
    decreases es, 0
  {
    if es == [] then []
    else if |es| == 1 then Print(es[0])
    else Print(es[0]) + [Comma] + PrintAll(es[1..])
  }

  // ----- which expressions are printed so that they can be read back

  predicate PlainName(name: string) {
    !DotIn(name) && Upper(name) !in CLOCK_WORDS && Upper(name) != "DISTINCT" && name != "old" && name != "new"
  }

  /** A literal that its text gives back: a float must have a fraction. */
  predicate PlainValue(v: Value) {
    || v == IntVal(v.int_)
    || (v == FloatVal(v.float_) && v.float_ != v.float_.Floor as real)
    || v == TextVal(v.text)
    || v == BoolVal(v.bool_)
    || v == NULL_VAL
  }

  predicate MulRank(op: Op) {
    op.Times? || op.Divide?
  }

  predicate AddRank(op: Op) {
    op.Sum? || op.Difference?
  }

  predicate IsRank(op: Op) {
    op.IsOp? || op.IsNotOp?
  }

  /** The ranks of the grammar: primary, product, sum, comparison, negation. */
  predicate Rank0(e: Expr)
    decreases e, 0
  {
    match e
    case Val(v) => PlainValue(v)
    case Col(table, name) => if table == "" then PlainName(name) else !DotIn(table) && Upper(table) !in CLOCK_WORDS && Upper(table) != "DISTINCT"
    case Param(_) => true
    case And(l, r) => Rank4(l) && Rank4(r)
    case Or(l, r) => Rank4(l) && Rank4(r)
    case Call(name, args) => PlainName(name) && Upper(name) == name && name !in AGGREGATES && AllRank4(args)
    case _ => false
  }

  predicate Rank1(e: Expr)
    decreases e, 1
  {
    if e.Binary? && MulRank(e.op) then Rank1(e.left) && Rank0(e.right) else Rank0(e)
  }

  predicate Rank2(e: Expr)
    decreases e, 2
  {
    if e.Binary? && AddRank(e.op) then Rank2(e.left) && Rank1(e.right) else Rank1(e)
  }

  predicate Rank3(e: Expr)
    decreases e, 3
  {
    match e
    case Binary(l, op, r) =>
      if MulRank(op) || AddRank(op) then Rank2(e)
      else if IsRank(op) then Rank2(l) && r == Val(NULL_VAL)
      else Rank2(l) && Rank2(r)
    case In(l, list, _) => Rank2(l) && list != [] && AllRank4(list)
    case Between(x, lower, upper, _) => Rank2(x) && Rank2(lower) && Rank2(upper)
    case _ => Rank2(e)
  }

  predicate Rank4(e: Expr)
    decreases e, 4
  {
    if e.Not? then Rank4(e.inner) else Rank3(e)
  }

  predicate AllRank4(es: seq<Expr>)
    decreases es, 0
  {
    es == [] || (Rank4(es[0]) && AllRank4(es[1..]))
  }

  function Max(a: nat, b: nat): nat {
    if a < b then b else a
  }

  /** How deep groups and calls are nested; lists of IN and chains of NOT do not add to it. */
  function Depth(e: Expr): nat
    decreases e, 0
  {
    match e
    case Binary(l, _, r) => Max(Depth(l), Depth(r))
    case And(l, r) => 1 + Max(Depth(l), Depth(r))
    case Or(l, r) => 1 + Max(Depth(l), Depth(r))
    case Not(x) => Depth(x)
    case In(l, list, _) => Max(Depth(l), DepthAll(list))
    case Between(x, lower, upper, _) => Max(Depth(x), Max(Depth(lower), Depth(upper)))
    case Call(_, args) => 1 + DepthAll(args)
    case _ => 0
  }

  function DepthAll(es: seq<Expr>): nat
    decreases es, 0
  {
    if es == [] then 0 else Max(Depth(es[0]), DepthAll(es[1..]))
  }

  // ----- where the printed tokens stand

  /** The number of tokens printed. */
  function Width(e: Expr): nat
    decreases e, 0
  {
    match e
    case Nil => 0
    case Col(table, _) => if table == "" then 1 else 3
    case Binary(l, op, r) => Width(l) + OpWidth(op) + Width(r)
    case And(l, r) => Width(l) + Width(r) + 3
    case Or(l, r) => Width(l) + Width(r) + 3
    case Not(x) => 1 + Width(x)
    case In(l, list, negated) => Width(l) + (if negated then 2 else 1) + WidthAll(list) + 2
    case Between(x, lower, upper, negated) => Width(x) + (if negated then 2 else 1) + Width(lower) + 1 + Width(upper)
    case Call(_, args) => 3 + WidthAll(args)
    case _ => 1
  }

  function OpWidth(op: Op): nat {
    if op.IsNotOp? then 2 else 1
  }

  function WidthAll(es: seq<Expr>): nat
    decreases es, 0
  {
    if es == [] then 0 else if |es| == 1 then Width(es[0]) else Width(es[0]) + 1 + WidthAll(es[1..])
  }

  predicate OpAt(ts: seq<Token>, p: nat, op: Op)
    requires p + OpWidth(op) < |ts|
  {
    match op
    case Sum => ts[p] == Plus
    case Difference => ts[p] == Minus
    case Times => ts[p] == Star
    case Divide => ts[p] == Slash
    case LikeOp => ts[p] == Like
    case ILikeOp => ts[p] == ILike
    case IsOp => ts[p] == Is
    case IsNotOp => ts[p] == Is && ts[p + 1] == Not_
    case Infix(symbol) => ts[p] == Cmp(symbol)
  }

  /** The word at `p`, with NOT in front if negated. */
  predicate WordAt(ts: seq<Token>, p: nat, word: Token, negated: bool)
    requires p + (if negated then 2 else 1) < |ts|
  {
    if negated then ts[p] == Not_ && ts[p + 1] == word else ts[p] == word
  }

  /** The tokens around and between two pieces of a group. */
  predicate GroupAt(ts: seq<Token>, pos: nat, left: nat, word: Token, right: nat)
    requires pos + left + right + 3 < |ts|
  {
    ts[pos] == LParen && ts[pos + left + 1] == word && ts[pos + left + right + 2] == RParen
  }

  /** The tokens of `e` stand at `pos`, and the list goes on behind them. */
  ghost predicate Laid(ts: seq<Token>, pos: nat, e: Expr)
    decreases e, 0
  {
    pos + Width(e) < |ts| &&
    match e
    case Nil => true
    case Val(v) => ts[pos] == PrintValue(v)
    case Col(table, name) =>
      if table == "" then ts[pos] == Ident(name)
      else ts[pos] == Ident(table) && ts[pos + 1] == Dot && ts[pos + 2] == Ident(name)
    case Binary(l, op, r) =>
      Laid(ts, pos, l) && OpAt(ts, pos + Width(l), op) && Laid(ts, pos + Width(l) + OpWidth(op), r)
    case And(l, r) => GroupAt(ts, pos, Width(l), And_, Width(r)) && Laid(ts, pos + 1, l) && Laid(ts, pos + Width(l) + 2, r)
    case Or(l, r) => GroupAt(ts, pos, Width(l), Or_, Width(r)) && Laid(ts, pos + 1, l) && Laid(ts, pos + Width(l) + 2, r)
    case Not(x) => ts[pos] == Not_ && Laid(ts, pos + 1, x)
    case In(l, list, negated) =>
      var p := pos + Width(l);
      var q := p + if negated then 2 else 1;
      Laid(ts, pos, l) && WordAt(ts, p, In_, negated) && ts[q] == LParen && LaidAll(ts, q + 1, list) && ts[q + 1 + WidthAll(list)] == RParen
    case Between(x, lower, upper, negated) =>
      var p := pos + Width(x);
      var q := p + if negated then 2 else 1;
      && Laid(ts, pos, x) && WordAt(ts, p, Between_, negated)
      && Laid(ts, q, lower) && ts[q + Width(lower)] == And_ && Laid(ts, q + Width(lower) + 1, upper)
    case Call(name, args) =>
      ts[pos] == Ident(name) && ts[pos + 1] == LParen && LaidAll(ts, pos + 2, args) && ts[pos + 2 + WidthAll(args)] == RParen
    case Param(index) => ts[pos] == ParamTok(index)
    case _ => ts[pos] == Form
  }

  ghost predicate LaidAll(ts: seq<Token>, pos: nat, es: seq<Expr>)
    decreases es, 0
  {
    if es == [] then true
    else if |es| == 1 then Laid(ts, pos, es[0])
    else Laid(ts, pos, es[0]) && ts[pos + Width(es[0])] == Comma && LaidAll(ts, pos + Width(es[0]) + 1, es[1..])
  }

  // ----- what the parser does at each token

  predicate Fits(e: Expr, d: nat) {
    d + Depth(e) <= MAX_DEPTH
  }

  /** The outcome of parsing the printed `e` at depth `d`: the expression, unless it is nested too
      deep. */
  function Expected(e: Expr, pos: nat, d: nat): Parsed {
    if Fits(e, d) then Done(e, pos) else Fail
  }

  predicate Ends(t: Token) {
    t.And_? || t.Or_? || t.RParen? || t.Comma? || t.Eof?
  }

  predicate EndsSum(t: Token) {
    Ends(t) || t.Cmp? || t.Like? || t.ILike? || t.In_? || t.Is? || t.Between_? || t.Not_?
  }

  predicate EndsProduct(t: Token) {
    EndsSum(t) || t.Plus? || t.Minus?
  }

  predicate EndsPrimary(t: Token) {
    EndsProduct(t) || t.Star? || t.Slash?
  }

  // ----- the claims, rank by rank

  ghost predicate Stands(ts: seq<Token>, pos: nat, e: Expr) {
    Terminated(ts) && Laid(ts, pos, e) && pos + Width(e) < |ts|
  }

  ghost predicate PrimaryAt(ts: seq<Token>, pos: nat, e: Expr) {
    Stands(ts, pos, e) && Rank0(e) && EndsPrimary(ts[pos + Width(e)])
  }

  ghost predicate ProductAt(ts: seq<Token>, pos: nat, e: Expr) {
    Stands(ts, pos, e) && Rank1(e) && EndsPrimary(ts[pos + Width(e)])
  }

  ghost predicate SumAt(ts: seq<Token>, pos: nat, e: Expr) {
    Stands(ts, pos, e) && Rank2(e) && EndsProduct(ts[pos + Width(e)])
  }

  ghost predicate OperandAt(ts: seq<Token>, pos: nat, e: Expr) {
    Stands(ts, pos, e) && Rank2(e) && EndsSum(ts[pos + Width(e)])
  }

  ghost predicate ComparisonAt(ts: seq<Token>, pos: nat, e: Expr) {
    Stands(ts, pos, e) && Rank3(e) && Ends(ts[pos + Width(e)])
  }

  ghost predicate NotAt(ts: seq<Token>, pos: nat, e: Expr) {
    Stands(ts, pos, e) && Rank4(e) && Ends(ts[pos + Width(e)])
  }

  predicate InRange(ts: seq<Token>, pos: nat, e: Expr) {
    Terminated(ts) && pos + Width(e) < |ts| && 0 < Width(e)
  }

  ghost predicate PrimaryRead(ts: seq<Token>, pos: nat, d: nat, e: Expr) {
    InRange(ts, pos, e) && ParsePrimary(ts, pos, d) == Expected(e, pos + Width(e), d)
  }

  ghost predicate ProductRead(ts: seq<Token>, pos: nat, d: nat, e: Expr) {
    InRange(ts, pos, e) && ParseMul(ts, pos, d) == if Fits(e, d) then MulTail(ts, e, pos + Width(e), d) else Fail
  }

  ghost predicate SumRead(ts: seq<Token>, pos: nat, d: nat, e: Expr) {
    InRange(ts, pos, e) && ParseAdd(ts, pos, d) == if Fits(e, d) then AddTail(ts, e, pos + Width(e), d) else Fail
  }

  ghost predicate OperandRead(ts: seq<Token>, pos: nat, d: nat, e: Expr) {
    InRange(ts, pos, e) && ParseAdd(ts, pos, d) == Expected(e, pos + Width(e), d)
  }

  ghost predicate ComparisonRead(ts: seq<Token>, pos: nat, d: nat, e: Expr) {
    InRange(ts, pos, e) && ParseComparison(ts, pos, d) == Expected(e, pos + Width(e), d)
  }

  ghost predicate NotRead(ts: seq<Token>, pos: nat, d: nat, e: Expr) {
    InRange(ts, pos, e) && ParseNot(ts, pos, d) == Expected(e, pos + Width(e), d)
  }

  // ----- products and sums

  lemma BinaryStands(ts: seq<Token>, pos: nat, e: Expr)
    requires Stands(ts, pos, e) && e.Binary?
    ensures Width(e) == Width(e.left) + OpWidth(e.op) + Width(e.right)
    ensures Stands(ts, pos, e.left) && OpAt(ts, pos + Width(e.left), e.op)
    ensures Stands(ts, pos + Width(e.left) + OpWidth(e.op), e.right)
  {
  }

  lemma ProductRanks(e: Expr)
    requires Rank1(e) && e.Binary?
    ensures MulRank(e.op) && Rank1(e.left) && Rank0(e.right)
  {
    assert Rank0(e) ==> !e.Binary?;
  }

  lemma ProductParts(ts: seq<Token>, pos: nat, e: Expr)
    requires ProductAt(ts, pos, e) && e.Binary?
    ensures MulRank(e.op) && ProductAt(ts, pos, e.left) && PrimaryAt(ts, pos + Width(e.left) + 1, e.right)
    ensures InRange(ts, pos, e) && OpAt(ts, pos + Width(e.left), e.op)
  {
    hide Laid, Rank0, Rank1, Width;
    BinaryStands(ts, pos, e);
    ProductRanks(e);
  }

  lemma ProductIsPrimary(ts: seq<Token>, pos: nat, e: Expr)
    requires ProductAt(ts, pos, e) && !e.Binary?
    ensures PrimaryAt(ts, pos, e)
  {
  }

  lemma MoreProduct(ts: seq<Token>, pos: nat, d: nat, e: Expr, p: nat, q: nat)
    requires e.Binary? && MulRank(e.op) && Terminated(ts) && pos <= p && p + 1 < |ts| && q < |ts| && OpAt(ts, p, e.op)
    requires ParseMul(ts, pos, d) == if Fits(e.left, d) then MulTail(ts, e.left, p, d) else Fail
    requires ParsePrimary(ts, p + 1, d) == Expected(e.right, q, d)
    ensures ParseMul(ts, pos, d) == if Fits(e, d) then MulTail(ts, e, q, d) else Fail
  {
  }

  lemma BinaryWidth(e: Expr)
    requires e.Binary?
    ensures Width(e) == Width(e.left) + OpWidth(e.op) + Width(e.right)
  {
  }

  lemma NextProduct(ts: seq<Token>, pos: nat, d: nat, e: Expr)
    requires InRange(ts, pos, e) && e.Binary? && MulRank(e.op) && OpAt(ts, pos + Width(e.left), e.op)
    requires ProductRead(ts, pos, d, e.left) && PrimaryRead(ts, pos + Width(e.left) + 1, d, e.right)
    ensures ProductRead(ts, pos, d, e)
  {
    hide Width, Depth, OpAt, ParseMul, MulTail, ParsePrimary;
    BinaryWidth(e);
    MoreProduct(ts, pos, d, e, pos + Width(e.left), pos + Width(e));
  }

  lemma OnlyPrimary(ts: seq<Token>, pos: nat, d: nat, e: Expr)
    requires PrimaryRead(ts, pos, d, e)
    ensures ProductRead(ts, pos, d, e)
  {
  }

  lemma {:induction false} ReadProduct(ts: seq<Token>, pos: nat, d: nat, e: Expr)
    requires d <= MAX_DEPTH && ProductAt(ts, pos, e)
    ensures ProductRead(ts, pos, d, e)
    decreases e, 1
  {
    hide *;
    if e.Binary? {
      ProductParts(ts, pos, e);
      ReadProduct(ts, pos, d, e.left);
      ReadPrimary(ts, pos + Width(e.left) + 1, d, e.right);
      NextProduct(ts, pos, d, e);
    } else {
      ProductIsPrimary(ts, pos, e);
      ReadPrimary(ts, pos, d, e);
      OnlyPrimary(ts, pos, d, e);
    }
  }

  lemma SumParts(ts: seq<Token>, pos: nat, e: Expr)
    requires SumAt(ts, pos, e)
    ensures if e.Binary? && AddRank(e.op) then SumAt(ts, pos, e.left) && ProductAt(ts, pos + Width(e.left) + 1, e.right)
            else ProductAt(ts, pos, e) && EndsProduct(ts[pos + Width(e)])
    ensures e.Binary? && AddRank(e.op) ==>
      var p := pos + Width(e.left) + 1;
      EndsProduct(ts[p + Width(e.right)]) && InRange(ts, pos, e) && OpAt(ts, pos + Width(e.left), e.op)
  {
    hide Laid, Width, Rank0;
    if e.Binary? {
      BinaryStands(ts, pos, e);
    }
  }

  lemma MoreSum(ts: seq<Token>, pos: nat, d: nat, e: Expr, p: nat, q: nat)
    requires e.Binary? && AddRank(e.op) && Terminated(ts) && pos <= p && p + 1 < |ts| && q < |ts| && OpAt(ts, p, e.op)
    requires ParseAdd(ts, pos, d) == if Fits(e.left, d) then AddTail(ts, e.left, p, d) else Fail
    requires ParseMul(ts, p + 1, d) == Expected(e.right, q, d)
    ensures ParseAdd(ts, pos, d) == if Fits(e, d) then AddTail(ts, e, q, d) else Fail
  {
  }

  lemma NextSum(ts: seq<Token>, pos: nat, d: nat, e: Expr)
    requires InRange(ts, pos, e) && e.Binary? && AddRank(e.op) && OpAt(ts, pos + Width(e.left), e.op)
    requires SumRead(ts, pos, d, e.left) && ProductDone(ts, pos + Width(e.left) + 1, d, e.right)
    ensures SumRead(ts, pos, d, e)
  {
    hide Width, Depth, OpAt, ParseMul, ParseAdd, AddTail;
    BinaryWidth(e);
    MoreSum(ts, pos, d, e, pos + Width(e.left), pos + Width(e));
  }

  /** A product in front of something that does not continue it. */
  ghost predicate ProductDone(ts: seq<Token>, pos: nat, d: nat, e: Expr) {
    InRange(ts, pos, e) && ParseMul(ts, pos, d) == Expected(e, pos + Width(e), d)
  }

  lemma OnlyProduct(ts: seq<Token>, pos: nat, d: nat, e: Expr)
    requires ProductRead(ts, pos, d, e) && EndsProduct(ts[pos + Width(e)])
    ensures ProductDone(ts, pos, d, e) && SumRead(ts, pos, d, e)
  {
    hide Width, Depth;
  }

  lemma {:induction false} ReadSum(ts: seq<Token>, pos: nat, d: nat, e: Expr)
    requires d <= MAX_DEPTH && SumAt(ts, pos, e)
    ensures SumRead(ts, pos, d, e)
    decreases e, 2
  {
    hide *;
    SumParts(ts, pos, e);
    if e.Binary? && AddRank(e.op) {
      ReadSum(ts, pos, d, e.left);
      ReadProduct(ts, pos + Width(e.left) + 1, d, e.right);
      OnlyProduct(ts, pos + Width(e.left) + 1, d, e.right);
      NextSum(ts, pos, d, e);
    } else {
      ReadProduct(ts, pos, d, e);
      OnlyProduct(ts, pos, d, e);
    }
  }

  lemma OnlySum(ts: seq<Token>, pos: nat, d: nat, e: Expr)
    requires SumRead(ts, pos, d, e) && EndsSum(ts[pos + Width(e)])
    ensures OperandRead(ts, pos, d, e)
  {
  }

  lemma OperandIsSum(ts: seq<Token>, pos: nat, e: Expr)
    requires OperandAt(ts, pos, e)
    ensures SumAt(ts, pos, e) && EndsSum(ts[pos + Width(e)])
  {
    hide Laid, Width, Rank2;
  }

  /** A sum in front of something that does not continue it. */
  lemma {:induction false} ReadOperand(ts: seq<Token>, pos: nat, d: nat, e: Expr)
    requires d <= MAX_DEPTH && OperandAt(ts, pos, e)
    ensures OperandRead(ts, pos, d, e)
    decreases e, 3
  {
    hide *;
    OperandIsSum(ts, pos, e);
    ReadSum(ts, pos, d, e);
    OnlySum(ts, pos, d, e);
  }

  // ----- comparisons

  predicate CmpRank(op: Op) {
    !MulRank(op) && !AddRank(op) && !IsRank(op)
  }

  lemma ComparisonRanks(e: Expr)
    requires Rank3(e)
    ensures match e
      case Binary(l, op, r) =>
        if CmpRank(op) then Rank2(l) && Rank2(r) else if IsRank(op) then Rank2(l) && r == Val(NULL_VAL) else Rank2(e)
      case In(l, list, _) => Rank2(l) && list != [] && AllRank4(list)
      case Between(x, lower, upper, _) => Rank2(x) && Rank2(lower) && Rank2(upper)
      case _ => Rank2(e)
  {
  }

  lemma BinaryOperands(ts: seq<Token>, pos: nat, e: Expr)
    requires ComparisonAt(ts, pos, e) && e.Binary? && CmpRank(e.op)
    ensures OperandAt(ts, pos, e.left) && OperandAt(ts, pos + Width(e.left) + 1, e.right)
    ensures InRange(ts, pos, e) && OpAt(ts, pos + Width(e.left), e.op)
  {
    hide Laid, Rank2, Rank3, Width;
    BinaryStands(ts, pos, e);
    ComparisonRanks(e);
  }

  lemma OperandRightRead(ts: seq<Token>, e: Expr, p: nat, q: nat, d: nat)
    requires e.Binary? && CmpRank(e.op) && Terminated(ts) && p + 1 < |ts| && q < |ts| && OpAt(ts, p, e.op)
    requires ParseAdd(ts, p + 1, d) == Expected(e.right, q, d)
    ensures ComparisonTail(ts, e.left, p, d) == if Fits(e.right, d) then Done(e, q) else Fail
  {
    hide ParseAdd, Depth, BetweenTail, InTail;
    assert ComparisonTail(ts, e.left, p, d) == Operand(ts, e.left, e.op, p + 1, d);
  }

  lemma CompareOperands(ts: seq<Token>, pos: nat, d: nat, e: Expr, p: nat, q: nat)
    requires e.Binary? && CmpRank(e.op) && Terminated(ts) && pos <= p && p + 1 < |ts| && q < |ts| && OpAt(ts, p, e.op)
    requires ParseAdd(ts, pos, d) == Expected(e.left, p, d) && ParseAdd(ts, p + 1, d) == Expected(e.right, q, d)
    ensures ParseComparison(ts, pos, d) == Expected(e, q, d)
  {
    hide ParseAdd, ParseComparison, ComparisonTail, Operand;
    ComparisonStarts(ts, pos, d, e.left, p);
    OperandRightRead(ts, e, p, q, d);
  }

  lemma NextComparison(ts: seq<Token>, pos: nat, d: nat, e: Expr)
    requires InRange(ts, pos, e) && e.Binary? && CmpRank(e.op) && OpAt(ts, pos + Width(e.left), e.op)
    requires OperandRead(ts, pos, d, e.left) && OperandRead(ts, pos + Width(e.left) + 1, d, e.right)
    ensures ComparisonRead(ts, pos, d, e)
  {
    hide Width, Depth, OpAt, ParseAdd, ParseComparison;
    BinaryWidth(e);
    CompareOperands(ts, pos, d, e, pos + Width(e.left), pos + Width(e));
  }

  lemma NullOperand(ts: seq<Token>, pos: nat, e: Expr)
    requires ComparisonAt(ts, pos, e) && e.Binary? && IsRank(e.op)
    ensures OperandAt(ts, pos, e.left) && InRange(ts, pos, e) && Width(e) == Width(e.left) + OpWidth(e.op) + 1
    ensures OpAt(ts, pos + Width(e.left), e.op) && ts[pos + Width(e.left) + OpWidth(e.op)] == Null_ && e.right == Val(NULL_VAL)
  {
    hide Rank2, Rank3, Laid, Width;
    BinaryStands(ts, pos, e);
    ComparisonRanks(e);
    NullStands(ts, pos + Width(e.left) + OpWidth(e.op), e.right);
  }

  lemma NullStands(ts: seq<Token>, pos: nat, e: Expr)
    requires Stands(ts, pos, e) && e == Val(NULL_VAL)
    ensures Width(e) == 1 && ts[pos] == Null_
  {
  }

  lemma TestForNull(ts: seq<Token>, pos: nat, d: nat, e: Expr, p: nat)
    requires e.Binary? && IsRank(e.op) && e.right == Val(NULL_VAL) && Terminated(ts) && pos <= p && p + OpWidth(e.op) + 1 < |ts|
    requires OpAt(ts, p, e.op) && ts[p + OpWidth(e.op)] == Null_ && ParseAdd(ts, pos, d) == Expected(e.left, p, d)
    ensures ParseComparison(ts, pos, d) == Expected(e, p + OpWidth(e.op) + 1, d)
  {
    hide ParseAdd, ParseComparison, ComparisonTail, Depth;
    ComparisonStarts(ts, pos, d, e.left, p);
    NullTestRead(ts, e, p, d);
    NullTestDepth(e);
  }

  lemma NullTestDepth(e: Expr)
    requires e.Binary? && e.right == Val(NULL_VAL)
    ensures Depth(e) == Depth(e.left)
  {
    assert Depth(e.right) == 0;
  }

  lemma NullTestRead(ts: seq<Token>, e: Expr, p: nat, d: nat)
    requires e.Binary? && IsRank(e.op) && e.right == Val(NULL_VAL) && Terminated(ts) && p + OpWidth(e.op) + 1 < |ts|
    requires OpAt(ts, p, e.op) && ts[p + OpWidth(e.op)] == Null_
    ensures ComparisonTail(ts, e.left, p, d) == Done(e, p + OpWidth(e.op) + 1)
  {
    hide Operand, InTail, BetweenTail;
  }

  lemma NextNullTest(ts: seq<Token>, pos: nat, d: nat, e: Expr)
    requires InRange(ts, pos, e) && e.Binary? && IsRank(e.op) && Width(e) == Width(e.left) + OpWidth(e.op) + 1 && e.right == Val(NULL_VAL)
    requires OpAt(ts, pos + Width(e.left), e.op) && ts[pos + Width(e.left) + OpWidth(e.op)] == Null_
    requires OperandRead(ts, pos, d, e.left)
    ensures ComparisonRead(ts, pos, d, e)
  {
    hide Width;
    TestForNull(ts, pos, d, e, pos + Width(e.left));
  }

  function WordWidth(negated: bool): nat {
    if negated then 2 else 1
  }

  lemma LaidInRange(ts: seq<Token>, pos: nat, e: Expr)
    requires Laid(ts, pos, e)
    ensures pos + Width(e) < |ts|
  {
  }

  lemma BetweenLaid(ts: seq<Token>, pos: nat, e: Expr)
    requires Laid(ts, pos, e) && e.Between?
    ensures var p := pos + Width(e.inner);
      var q := p + WordWidth(e.negated);
      var m := q + Width(e.lower);
      && m + 1 + Width(e.upper) == pos + Width(e) && pos + Width(e) < |ts|
      && Laid(ts, pos, e.inner) && WordAt(ts, p, Between_, e.negated) && Laid(ts, q, e.lower)
      && ts[m] == And_ && Laid(ts, m + 1, e.upper)
  {
    hide Width, LaidAll, OpAt, GroupAt;
    BetweenWidth(e);
  }

  lemma BetweenWidth(e: Expr)
    requires e.Between?
    ensures Width(e) == Width(e.inner) + WordWidth(e.negated) + Width(e.lower) + 1 + Width(e.upper)
  {
  }

  lemma BetweenStands(ts: seq<Token>, pos: nat, e: Expr)
    requires Stands(ts, pos, e) && e.Between?
    ensures var p := pos + Width(e.inner);
      var q := p + WordWidth(e.negated);
      var m := q + Width(e.lower);
      && InRange(ts, pos, e) && m + 1 + Width(e.upper) == pos + Width(e)
      && Stands(ts, pos, e.inner) && WordAt(ts, p, Between_, e.negated) && Stands(ts, q, e.lower)
      && ts[m] == And_ && Stands(ts, m + 1, e.upper)
  {
    hide Laid, Width;
    BetweenLaid(ts, pos, e);
  }

  lemma BetweenOperands(ts: seq<Token>, pos: nat, e: Expr)
    requires ComparisonAt(ts, pos, e) && e.Between?
    ensures var p := pos + Width(e.inner);
      var q := p + WordWidth(e.negated);
      var m := q + Width(e.lower);
      && InRange(ts, pos, e) && m + 1 + Width(e.upper) == pos + Width(e)
      && OperandAt(ts, pos, e.inner) && WordAt(ts, p, Between_, e.negated) && OperandAt(ts, q, e.lower)
      && ts[m] == And_ && OperandAt(ts, m + 1, e.upper)
  {
    hide Rank2, Rank3, Laid, Width;
    BetweenStands(ts, pos, e);
    ComparisonRanks(e);
  }

  lemma ComparisonStarts(ts: seq<Token>, pos: nat, d: nat, e: Expr, p: nat)
    requires Terminated(ts) && pos < |ts| && p < |ts| && ParseAdd(ts, pos, d) == Expected(e, p, d)
    ensures ParseComparison(ts, pos, d) == if Fits(e, d) then ComparisonTail(ts, e, p, d) else Fail
  {
    hide ParseAdd, ComparisonTail, Depth;
  }

  lemma BetweenWord(ts: seq<Token>, e: Expr, p: nat, d: nat, negated: bool)
    requires Terminated(ts) && p + WordWidth(negated) < |ts| && WordAt(ts, p, Between_, negated)
    ensures ComparisonTail(ts, e, p, d) == BetweenTail(ts, e, p + WordWidth(negated), d, negated)
  {
    hide BetweenTail, InTail, Operand;
  }

  lemma BoundsRead(ts: seq<Token>, e: Expr, q: nat, m: nat, z: nat, d: nat)
    requires e.Between? && Terminated(ts) && q < m && m + 1 < |ts| && z < |ts| && ts[m] == And_
    requires ParseAdd(ts, q, d) == Expected(e.lower, m, d) && ParseAdd(ts, m + 1, d) == Expected(e.upper, z, d)
    ensures BetweenTail(ts, e.inner, q, d, e.negated) == if Fits(e.lower, d) && Fits(e.upper, d) then Done(e, z) else Fail
  {
    hide ParseAdd, Depth;
  }

  lemma CompareBounds(ts: seq<Token>, pos: nat, d: nat, e: Expr, p: nat, m: nat, z: nat)
    requires e.Between? && Terminated(ts) && pos <= p && p + WordWidth(e.negated) < m && m + 1 < |ts| && z < |ts|
    requires WordAt(ts, p, Between_, e.negated) && ts[m] == And_
    requires ParseAdd(ts, pos, d) == Expected(e.inner, p, d)
    requires ParseAdd(ts, p + WordWidth(e.negated), d) == Expected(e.lower, m, d)
    requires ParseAdd(ts, m + 1, d) == Expected(e.upper, z, d)
    ensures ParseComparison(ts, pos, d) == Expected(e, z, d)
  {
    hide ParseAdd, ParseComparison, ComparisonTail, BetweenTail;
    ComparisonStarts(ts, pos, d, e.inner, p);
    BetweenWord(ts, e.inner, p, d, e.negated);
    BoundsRead(ts, e, p + WordWidth(e.negated), m, z, d);
  }

  lemma NextBetween(ts: seq<Token>, pos: nat, d: nat, e: Expr, p: nat, q: nat, m: nat)
    requires InRange(ts, pos, e) && e.Between? && p == pos + Width(e.inner) && q == p + WordWidth(e.negated) && m == q + Width(e.lower)
    requires m + 1 + Width(e.upper) == pos + Width(e) && WordAt(ts, p, Between_, e.negated) && ts[m] == And_
    requires OperandRead(ts, pos, d, e.inner) && OperandRead(ts, q, d, e.lower) && OperandRead(ts, m + 1, d, e.upper)
    ensures ComparisonRead(ts, pos, d, e)
  {
    hide Width;
    CompareBounds(ts, pos, d, e, p, m, m + 1 + Width(e.upper));
  }

  ghost predicate ListAt(ts: seq<Token>, pos: nat, es: seq<Expr>) {
    Terminated(ts) && LaidAll(ts, pos, es) && AllRank4(es) && es != [] && pos + WidthAll(es) < |ts| && ts[pos + WidthAll(es)] == RParen
  }

  ghost predicate ListRead(ts: seq<Token>, pos: nat, d: nat, es: seq<Expr>) {
    && Terminated(ts) && pos + WidthAll(es) < |ts| && 0 < WidthAll(es)
    && ParseList(ts, pos, d) == if d + DepthAll(es) <= MAX_DEPTH then DoneList(es, pos + WidthAll(es)) else FailList
  }

  lemma InOperands(ts: seq<Token>, pos: nat, e: Expr)
    requires ComparisonAt(ts, pos, e) && e.In?
    ensures var p := pos + Width(e.left);
      var q := p + WordWidth(e.negated);
      && InRange(ts, pos, e) && q + WidthAll(e.list) + 2 == pos + Width(e)
      && OperandAt(ts, pos, e.left) && WordAt(ts, p, In_, e.negated) && ts[q] == LParen && ListAt(ts, q + 1, e.list)
      && ts[q + 1 + WidthAll(e.list)] == RParen
  {
    hide Rank2, Rank3, Laid, LaidAll, Width, WidthAll, AllRank4;
    ComparisonRanks(e);
    InLaid(ts, pos, e);
    LaidInRange(ts, pos, e.left);
  }

  lemma InLaid(ts: seq<Token>, pos: nat, e: Expr)
    requires Laid(ts, pos, e) && e.In?
    ensures var p := pos + Width(e.left);
      var q := p + WordWidth(e.negated);
      && q + WidthAll(e.list) + 2 == pos + Width(e) && pos + Width(e) < |ts|
      && Laid(ts, pos, e.left) && WordAt(ts, p, In_, e.negated) && ts[q] == LParen
      && LaidAll(ts, q + 1, e.list) && ts[q + 1 + WidthAll(e.list)] == RParen
  {
    hide Width, WidthAll, LaidAll, OpAt, GroupAt;
    InWidth(e);
  }

  lemma InWidth(e: Expr)
    requires e.In?
    ensures Width(e) == Width(e.left) + WordWidth(e.negated) + WidthAll(e.list) + 2
  {
  }

  lemma InWord(ts: seq<Token>, e: Expr, p: nat, d: nat, negated: bool)
    requires Terminated(ts) && p + WordWidth(negated) < |ts| && WordAt(ts, p, In_, negated)
    ensures ComparisonTail(ts, e, p, d) == InTail(ts, e, p + WordWidth(negated), d, negated)
  {
    hide BetweenTail, InTail, Operand;
  }

  lemma ItemsRead(ts: seq<Token>, e: Expr, q: nat, z: nat, d: nat)
    requires e.In? && Terminated(ts) && q + 1 < z < |ts| - 1 && ts[q] == LParen && ts[z] == RParen
    requires ParseList(ts, q + 1, d) == if d + DepthAll(e.list) <= MAX_DEPTH then DoneList(e.list, z) else FailList
    ensures InTail(ts, e.left, q, d, e.negated) == if d + DepthAll(e.list) <= MAX_DEPTH then Done(e, z + 1) else Fail
  {
    hide ParseList, DepthAll;
  }

  lemma CompareList(ts: seq<Token>, pos: nat, d: nat, e: Expr, p: nat, q: nat, z: nat)
    requires e.In? && Terminated(ts) && pos <= p && q == p + WordWidth(e.negated) && q + 1 < z < |ts| - 1
    requires WordAt(ts, p, In_, e.negated) && ts[q] == LParen && ts[z] == RParen
    requires ParseAdd(ts, pos, d) == Expected(e.left, p, d)
    requires ParseList(ts, q + 1, d) == if d + DepthAll(e.list) <= MAX_DEPTH then DoneList(e.list, z) else FailList
    ensures ParseComparison(ts, pos, d) == Expected(e, z + 1, d)
  {
    hide ParseAdd, ParseComparison, ComparisonTail, InTail, ParseList;
    ComparisonStarts(ts, pos, d, e.left, p);
    InWord(ts, e.left, p, d, e.negated);
    ItemsRead(ts, e, q, z, d);
  }

  lemma NextIn(ts: seq<Token>, pos: nat, d: nat, e: Expr, p: nat, q: nat)
    requires InRange(ts, pos, e) && e.In? && p == pos + Width(e.left) && q == p + WordWidth(e.negated)
    requires q + WidthAll(e.list) + 2 == pos + Width(e) && WordAt(ts, p, In_, e.negated) && ts[q] == LParen
    requires ts[q + 1 + WidthAll(e.list)] == RParen && OperandRead(ts, pos, d, e.left) && ListRead(ts, q + 1, d, e.list)
    ensures ComparisonRead(ts, pos, d, e)
  {
    hide Width, WidthAll;
    CompareList(ts, pos, d, e, p, q, q + 1 + WidthAll(e.list));
  }

  lemma PlainOperand(ts: seq<Token>, pos: nat, e: Expr)
    requires ComparisonAt(ts, pos, e) && !e.In? && !e.Between? && (e.Binary? ==> MulRank(e.op) || AddRank(e.op))
    ensures OperandAt(ts, pos, e)
  {
    hide Laid, Width, Rank2, Rank3;
    ComparisonRanks(e);
  }

  lemma OnlyOperand(ts: seq<Token>, pos: nat, d: nat, e: Expr)
    requires OperandRead(ts, pos, d, e) && Ends(ts[pos + Width(e)])
    ensures ComparisonRead(ts, pos, d, e)
  {
    hide Width, Depth;
    assert ComparisonTail(ts, e, pos + Width(e), d) == Done(e, pos + Width(e));
  }

  lemma {:induction false} ReadComparison(ts: seq<Token>, pos: nat, d: nat, e: Expr)
    requires d <= MAX_DEPTH && ComparisonAt(ts, pos, e)
    ensures ComparisonRead(ts, pos, d, e)
    decreases e, 4
  {
    hide Laid, Width, Rank2, Rank3, OperandAt, OperandRead, ComparisonRead, OpAt, WordAt, ListAt, ListRead, InRange, Ends;
    if e.Binary? && CmpRank(e.op) {
      BinaryOperands(ts, pos, e);
      ReadOperand(ts, pos, d, e.left);
      ReadOperand(ts, pos + Width(e.left) + 1, d, e.right);
      NextComparison(ts, pos, d, e);
    } else if e.Binary? && IsRank(e.op) {
      NullOperand(ts, pos, e);
      ReadOperand(ts, pos, d, e.left);
      NextNullTest(ts, pos, d, e);
    } else if e.Between? {
      var p := pos + Width(e.inner);
      var q := p + WordWidth(e.negated);
      var m := q + Width(e.lower);
      BetweenOperands(ts, pos, e);
      ReadOperand(ts, pos, d, e.inner);
      ReadOperand(ts, q, d, e.lower);
      ReadOperand(ts, m + 1, d, e.upper);
      NextBetween(ts, pos, d, e, p, q, m);
    } else if e.In? {
      var p := pos + Width(e.left);
      var q := p + WordWidth(e.negated);
      InOperands(ts, pos, e);
      ReadOperand(ts, pos, d, e.left);
      ReadList(ts, q + 1, d, e.list);
      NextIn(ts, pos, d, e, p, q);
    } else {
      PlainOperand(ts, pos, e);
      ReadOperand(ts, pos, d, e);
      OnlyOperand(ts, pos, d, e);
    }
  }

  // ----- negations, whole expressions and lists

  lemma NotParts(ts: seq<Token>, pos: nat, e: Expr)
    requires NotAt(ts, pos, e)
    ensures if e.Not? then InRange(ts, pos, e) && ts[pos] == Not_ && NotAt(ts, pos + 1, e.inner) && Width(e) == 1 + Width(e.inner)
            else ComparisonAt(ts, pos, e)
  {
    hide Rank3;
  }

  /** Tokens an operand can begin with. */
  predicate Starts(t: Token) {
    || t.LParen? || t.True_? || t.False_? || t.Null_? || t.IntLit? || t.FloatLit? || t.TextLit? || t.ParamTok?
    || (t.Ident? && Upper(t.name) != "DISTINCT")
  }

  lemma StartOfPrimary(ts: seq<Token>, pos: nat, e: Expr)
    requires Stands(ts, pos, e) && Rank0(e)
    ensures Starts(ts[pos]) && 0 < Width(e)
  {
  }

  lemma {:induction false} StartOfOperand(ts: seq<Token>, pos: nat, e: Expr)
    requires Stands(ts, pos, e) && Rank2(e)
    ensures Starts(ts[pos]) && 0 < Width(e)
  {
    hide Starts, Laid;
    if e.Binary? {
      BinaryStands(ts, pos, e);
      OperandRanks(e);
      StartOfOperand(ts, pos, e.left);
    } else {
      assert Rank1(e);
      StartOfPrimary(ts, pos, e);
    }
  }

  lemma OperandRanks(e: Expr)
    requires Rank2(e) && e.Binary?
    ensures Rank2(e.left)
  {
    if !AddRank(e.op) {
      ProductRanks(e);
      assert Rank1(e.left) && e.left.Binary? ==> !AddRank(e.left.op) by {
        if Rank1(e.left) && e.left.Binary? {
          ProductRanks(e.left);
        }
      }
    }
  }

  lemma StartOfComparison(ts: seq<Token>, pos: nat, e: Expr)
    requires ComparisonAt(ts, pos, e)
    ensures Starts(ts[pos]) && InRange(ts, pos, e)
  {
    hide Starts, Rank2, Rank3, Laid;
    ComparisonRanks(e);
    if e.Binary? && (CmpRank(e.op) || IsRank(e.op)) {
      BinaryStands(ts, pos, e);
      StartOfOperand(ts, pos, e.left);
    } else if e.In? {
      InOperands(ts, pos, e);
      StartOfOperand(ts, pos, e.left);
    } else if e.Between? {
      BetweenStands(ts, pos, e);
      StartOfOperand(ts, pos, e.inner);
    } else {
      StartOfOperand(ts, pos, e);
    }
  }

  lemma NextNot(ts: seq<Token>, pos: nat, d: nat, e: Expr)
    requires InRange(ts, pos, e) && e.Not? && ts[pos] == Not_ && Width(e) == 1 + Width(e.inner) && NotRead(ts, pos + 1, d, e.inner)
    ensures NotRead(ts, pos, d, e)
  {
    hide Width, ParseComparison;
  }

  lemma OnlyComparison(ts: seq<Token>, pos: nat, d: nat, e: Expr)
    requires ComparisonRead(ts, pos, d, e) && Starts(ts[pos])
    ensures NotRead(ts, pos, d, e)
  {
    hide Width, Depth, ParseComparison;
  }

  lemma {:induction false} ReadNot(ts: seq<Token>, pos: nat, d: nat, e: Expr)
    requires d <= MAX_DEPTH && NotAt(ts, pos, e)
    ensures NotRead(ts, pos, d, e)
    decreases e, 5
  {
    hide *;
    NotParts(ts, pos, e);
    if e.Not? {
      ReadNot(ts, pos + 1, d, e.inner);
      NextNot(ts, pos, d, e);
    } else {
      StartOfComparison(ts, pos, e);
      ReadComparison(ts, pos, d, e);
      OnlyComparison(ts, pos, d, e);
    }
  }

  ghost predicate WholeRead(ts: seq<Token>, pos: nat, d: nat, e: Expr) {
    InRange(ts, pos, e) && ParseOr(ts, pos, d) == Expected(e, pos + Width(e), d)
  }

  predicate EndsWhole(t: Token) {
    t.RParen? || t.Comma? || t.Eof?
  }

  lemma OnlyNot(ts: seq<Token>, pos: nat, d: nat, e: Expr)
    requires NotRead(ts, pos, d, e) && EndsWhole(ts[pos + Width(e)])
    ensures WholeRead(ts, pos, d, e)
  {
    hide Width, Depth, ParseNot;
    assert AndTail(ts, e, pos + Width(e), d) == Done(e, pos + Width(e));
    assert OrTail(ts, e, pos + Width(e), d) == Done(e, pos + Width(e));
    assert ParseAnd(ts, pos, d) == Expected(e, pos + Width(e), d);
  }

  lemma ListLaid(ts: seq<Token>, pos: nat, es: seq<Expr>)
    requires LaidAll(ts, pos, es) && AllRank4(es) && es != []
    ensures Laid(ts, pos, es[0]) && Rank4(es[0])
    ensures if |es| == 1 then WidthAll(es) == Width(es[0])
      else && pos + Width(es[0]) < |ts| && ts[pos + Width(es[0])] == Comma && LaidAll(ts, pos + Width(es[0]) + 1, es[1..])
           && AllRank4(es[1..]) && WidthAll(es) == Width(es[0]) + 1 + WidthAll(es[1..])
  {
    hide Rank4, Width;
    LaidAllFirst(ts, pos, es);
  }

  lemma LaidAllFirst(ts: seq<Token>, pos: nat, es: seq<Expr>)
    requires LaidAll(ts, pos, es) && es != []
    ensures Laid(ts, pos, es[0]) && pos + Width(es[0]) < |ts|
  {
    LaidInRange(ts, pos, es[0]);
  }

  lemma ListParts(ts: seq<Token>, pos: nat, es: seq<Expr>)
    requires ListAt(ts, pos, es)
    ensures es != [] && NotAt(ts, pos, es[0]) && EndsWhole(ts[pos + Width(es[0])])
    ensures if |es| == 1 then ts[pos + Width(es[0])] == RParen && WidthAll(es) == Width(es[0])
            else ts[pos + Width(es[0])] == Comma && ListAt(ts, pos + Width(es[0]) + 1, es[1..])
                 && WidthAll(es) == Width(es[0]) + 1 + WidthAll(es[1..])
  {
    hide Rank4, Laid, Width, LaidAll, WidthAll, AllRank4;
    ListLaid(ts, pos, es);
    LaidInRange(ts, pos, es[0]);
  }

  lemma LastItem(ts: seq<Token>, pos: nat, d: nat, es: seq<Expr>)
    requires |es| == 1 && WholeRead(ts, pos, d, es[0]) && ts[pos + Width(es[0])] == RParen && WidthAll(es) == Width(es[0])
    ensures ListRead(ts, pos, d, es)
  {
    hide Width, WidthAll, Depth, ParseOr;
    assert es == [es[0]];
    assert DepthAll(es[1..]) == 0;
  }

  lemma NextItem(ts: seq<Token>, pos: nat, d: nat, es: seq<Expr>)
    requires |es| > 1 && WholeRead(ts, pos, d, es[0]) && ts[pos + Width(es[0])] == Comma
    requires WidthAll(es) == Width(es[0]) + 1 + WidthAll(es[1..]) && ListRead(ts, pos + Width(es[0]) + 1, d, es[1..])
    ensures ListRead(ts, pos, d, es)
  {
    hide Width, WidthAll, Depth, ParseOr;
    assert es == [es[0]] + es[1..];
  }

  lemma {:induction false} ReadList(ts: seq<Token>, pos: nat, d: nat, es: seq<Expr>)
    requires d <= MAX_DEPTH && ListAt(ts, pos, es)
    ensures ListRead(ts, pos, d, es)
    decreases es, 0
  {
    hide *;
    ListParts(ts, pos, es);
    ReadNot(ts, pos, d, es[0]);
    OnlyNot(ts, pos, d, es[0]);
    if |es| == 1 {
      LastItem(ts, pos, d, es);
    } else {
      ReadList(ts, pos + Width(es[0]) + 1, d, es[1..]);
      NextItem(ts, pos, d, es);
    }
  }

  // ----- primaries

  lemma {:induction false} SplitJoined(table: string, name: string)
    requires !DotIn(table)
    ensures DotIn(table + "." + name) && Split(table + "." + name) == Col(table, name)
  {
    var full := table + "." + name;
    assert full[|table|] == '.';
    if table != "" {
      SplitJoined(table[1..], name);
      assert full[1..] == table[1..] + "." + name;
    }
  }

  lemma ColumnParts(ts: seq<Token>, pos: nat, e: Expr)
    requires PrimaryAt(ts, pos, e) && e.Col?
    ensures InRange(ts, pos, e) && EndsPrimary(ts[pos + Width(e)])
    ensures if e.table == "" then Width(e) == 1 && ts[pos] == Ident(e.name) && PlainName(e.name)
      else && Width(e) == 3 && ts[pos] == Ident(e.table) && ts[pos + 1] == Dot && ts[pos + 2] == Ident(e.name)
           && !DotIn(e.table) && Upper(e.table) !in CLOCK_WORDS
  {
    hide Upper, PlainName;
  }

  lemma ReadBareName(ts: seq<Token>, pos: nat, d: nat, name: string)
    requires Terminated(ts) && pos + 1 < |ts| && ts[pos] == Ident(name) && PlainName(name) && EndsPrimary(ts[pos + 1])
    ensures ParsePrimary(ts, pos, d) == Done(Col("", name), pos + 1)
  {
    hide ParseCall, ParseOr, Upper;
    assert ParseName(ts, name, pos + 1, d) == Done(Col("", name), pos + 1);
  }

  lemma ReadQualifiedName(ts: seq<Token>, pos: nat, d: nat, table: string, name: string)
    requires Terminated(ts) && pos + 3 < |ts| && ts[pos] == Ident(table) && ts[pos + 1] == Dot && ts[pos + 2] == Ident(name)
    requires !DotIn(table) && Upper(table) !in CLOCK_WORDS && EndsPrimary(ts[pos + 3])
    ensures ParsePrimary(ts, pos, d) == Done(Col(table, name), pos + 3)
  {
    hide ParseCall, ParseOr, Upper, Split, DotIn;
    SplitJoined(table, name);
    assert Peek(ts, pos + 1) == Ident(name);
    assert ParseName(ts, table, pos + 1, d) == Done(Col(table, name), pos + 3);
  }

  lemma ReadColumn(ts: seq<Token>, pos: nat, d: nat, e: Expr)
    requires d <= MAX_DEPTH && PrimaryAt(ts, pos, e) && e.Col?
    ensures PrimaryRead(ts, pos, d, e)
  {
    hide ParsePrimary, Laid, Rank0, Width, Upper, PlainName, EndsPrimary, DotIn;
    ColumnParts(ts, pos, e);
    if e.table == "" {
      ReadBareName(ts, pos, d, e.name);
    } else {
      ReadQualifiedName(ts, pos, d, e.table, e.name);
    }
    assert Depth(e) == 0;
  }

  lemma LiteralBack(v: Value)
    requires PlainValue(v)
    ensures match PrintValue(v)
      case IntLit(i) => v == IntVal(i)
      case FloatLit(f) => v == FloatVal(f)
      case TextLit(t) => v == TextVal(t)
      case True_ => v == BoolVal(true)
      case False_ => v == BoolVal(false)
      case Null_ => v == NULL_VAL
      case _ => false
  {
    assert "int"[0] != "float"[0] && "string"[0] != "float"[0] && "bool"[0] != "null"[0];
    assert |"int"| == 3 && |"float"| == 5 && |"string"| == 6 && |"bool"| == 4 && |"null"| == 4;
  }

  lemma ReadLiteral(ts: seq<Token>, pos: nat, d: nat, e: Expr)
    requires d <= MAX_DEPTH && PrimaryAt(ts, pos, e) && (e.Val? || e.Param?)
    ensures PrimaryRead(ts, pos, d, e)
  {
    hide ParseName, ParseOr, PrintValue, PlainValue;
    assert Width(e) == 1 && Depth(e) == 0;
    if e.Val? {
      LiteralBack(e.value);
      assert ts[pos] == PrintValue(e.value);
    }
  }

  lemma GroupLaid(ts: seq<Token>, pos: nat, e: Expr)
    requires Laid(ts, pos, e) && (e.And? || e.Or?)
    ensures Width(e) == Width(e.left) + Width(e.right) + 3 && pos + Width(e) < |ts|
    ensures GroupAt(ts, pos, Width(e.left), if e.And? then And_ else Or_, Width(e.right))
    ensures Laid(ts, pos + 1, e.left) && Laid(ts, pos + Width(e.left) + 2, e.right)
  {
  }

  lemma GroupRanks(e: Expr)
    requires Rank0(e) && (e.And? || e.Or?)
    ensures Rank4(e.left) && Rank4(e.right)
  {
    hide Rank4;
  }

  lemma GroupParts(ts: seq<Token>, pos: nat, e: Expr)
    requires PrimaryAt(ts, pos, e) && (e.And? || e.Or?)
    ensures InRange(ts, pos, e) && Width(e) == Width(e.left) + Width(e.right) + 3
    ensures GroupAt(ts, pos, Width(e.left), if e.And? then And_ else Or_, Width(e.right))
    ensures NotAt(ts, pos + 1, e.left) && NotAt(ts, pos + Width(e.left) + 2, e.right)
  {
    hide Rank0, Rank4, Laid, Width;
    GroupLaid(ts, pos, e);
    GroupRanks(e);
  }

  lemma NotInRange(ts: seq<Token>, pos: nat, e: Expr)
    requires NotAt(ts, pos, e)
    ensures InRange(ts, pos, e)
  {
    hide *;
    NotParts(ts, pos, e);
    if !e.Not? {
      StartOfComparison(ts, pos, e);
    }
  }

  lemma WidthPositive(ts: seq<Token>, pos: nat, e: Expr)
    requires NotAt(ts, pos, e)
    ensures 0 < Width(e)
  {
    hide Width, Laid, Rank4, Stands;
    NotInRange(ts, pos, e);
  }

  /** Two negations with AND or OR between, up to the closing parenthesis. */
  lemma InsideGroup(ts: seq<Token>, pos: nat, d: nat, e: Expr, p: nat, q: nat)
    requires (e.And? || e.Or?) && Terminated(ts) && pos < p && p + 1 < q < |ts| && ts[p] == (if e.And? then And_ else Or_) && ts[q] == RParen
    requires ParseNot(ts, pos, d) == Expected(e.left, p, d) && ParseNot(ts, p + 1, d) == Expected(e.right, q, d)
    ensures ParseOr(ts, pos, d) == if Fits(e.left, d) && Fits(e.right, d) then Done(e, q) else Fail
  {
    hide ParseNot, Depth;
    assert AndTail(ts, e, q, d) == Done(e, q) && OrTail(ts, e, q, d) == Done(e, q);
    assert AndTail(ts, e.right, q, d) == Done(e.right, q);
    if e.And? {
      assert AndTail(ts, e.left, p, d) == if Fits(e.right, d) then Done(e, q) else Fail;
    } else {
      assert AndTail(ts, e.left, p, d) == Done(e.left, p);
      assert ParseAnd(ts, p + 1, d) == Expected(e.right, q, d);
      assert OrTail(ts, e.left, p, d) == if Fits(e.right, d) then Done(e, q) else Fail;
    }
  }

  lemma CloseGroup(ts: seq<Token>, pos: nat, d: nat, e: Expr, q: nat)
    requires (e.And? || e.Or?) && Terminated(ts) && pos + 1 < q < |ts| - 1 && ts[pos] == LParen && ts[q] == RParen
    requires d + 1 <= MAX_DEPTH ==>
      ParseOr(ts, pos + 1, d + 1) == if Fits(e.left, d + 1) && Fits(e.right, d + 1) then Done(e, q) else Fail
    ensures ParsePrimary(ts, pos, d) == Expected(e, q + 1, d)
  {
    hide ParseOr, ParseName;
  }

  lemma NextGroup(ts: seq<Token>, pos: nat, d: nat, e: Expr)
    requires (e.And? || e.Or?) && InRange(ts, pos, e) && Width(e) == Width(e.left) + Width(e.right) + 3
    requires GroupAt(ts, pos, Width(e.left), if e.And? then And_ else Or_, Width(e.right))
    requires d + 1 <= MAX_DEPTH ==> NotRead(ts, pos + 1, d + 1, e.left) && NotRead(ts, pos + Width(e.left) + 2, d + 1, e.right)
    requires 0 < Width(e.left) && 0 < Width(e.right)
    ensures PrimaryRead(ts, pos, d, e)
  {
    hide Width, Depth, ParseNot, ParseOr, ParsePrimary;
    var p := pos + 1 + Width(e.left);
    var q := p + 1 + Width(e.right);
    if d + 1 <= MAX_DEPTH {
      InsideGroup(ts, pos + 1, d + 1, e, p, q);
    }
    CloseGroup(ts, pos, d, e, q);
  }

  lemma CallParts(ts: seq<Token>, pos: nat, e: Expr)
    requires PrimaryAt(ts, pos, e) && e.Call?
    ensures InRange(ts, pos, e) && Width(e) == 3 + WidthAll(e.args) && EndsPrimary(ts[pos + Width(e)])
    ensures ts[pos] == Ident(e.name) && ts[pos + 1] == LParen && ts[pos + 2 + WidthAll(e.args)] == RParen
    ensures PlainName(e.name) && Upper(e.name) == e.name && e.name !in AGGREGATES
    ensures e.args != [] ==> ListAt(ts, pos + 2, e.args)
  {
    hide Rank4, PlainName;
  }

  lemma StartOfList(ts: seq<Token>, pos: nat, es: seq<Expr>)
    requires ListAt(ts, pos, es)
    ensures Starts(ts[pos]) || ts[pos] == Not_
  {
    hide *;
    ListParts(ts, pos, es);
    NotParts(ts, pos, es[0]);
    if !es[0].Not? {
      StartOfComparison(ts, pos, es[0]);
    }
  }

  lemma ReadArguments(ts: seq<Token>, pos: nat, d: nat, e: Expr, q: nat)
    requires e.Call? && Terminated(ts) && pos <= q < |ts| - 1 && ts[q] == RParen && EndsPrimary(ts[q + 1])
    requires Upper(e.name) == e.name && e.name !in AGGREGATES
    requires if e.args == [] then pos == q else
      && (Starts(ts[pos]) || ts[pos] == Not_)
      && (d + 1 <= MAX_DEPTH ==>
          ParseList(ts, pos, d + 1) == if d + 1 + DepthAll(e.args) <= MAX_DEPTH then DoneList(e.args, q) else FailList)
    ensures ParseCall(ts, e.name, pos, d) == Expected(e, q + 1, d)
  {
    hide ParseList, DepthAll, Upper;
    if e.args == [] {
      NoArguments(e.args);
    }
  }

  lemma NoArguments(es: seq<Expr>)
    requires es == []
    ensures DepthAll(es) == 0
  {
  }

  lemma NameThenCall(ts: seq<Token>, pos: nat, d: nat, name: string)
    requires Terminated(ts) && pos + 2 < |ts| && ts[pos] == Ident(name) && ts[pos + 1] == LParen && PlainName(name)
    ensures ParsePrimary(ts, pos, d) == ParseCall(ts, name, pos + 2, d)
  {
    hide ParseCall, ParseOr, Upper;
    assert ParseName(ts, name, pos + 1, d) == ParseCall(ts, name, pos + 2, d);
  }

  lemma NextCall(ts: seq<Token>, pos: nat, d: nat, e: Expr)
    requires e.Call? && InRange(ts, pos, e) && Width(e) == 3 + WidthAll(e.args) && EndsPrimary(ts[pos + Width(e)])
    requires ts[pos] == Ident(e.name) && ts[pos + 1] == LParen && ts[pos + 2 + WidthAll(e.args)] == RParen
    requires PlainName(e.name) && Upper(e.name) == e.name && e.name !in AGGREGATES
    requires e.args != [] ==> Starts(ts[pos + 2]) || ts[pos + 2] == Not_
    requires e.args != [] && d + 1 <= MAX_DEPTH ==> ListRead(ts, pos + 2, d + 1, e.args)
    ensures PrimaryRead(ts, pos, d, e)
  {
    hide Width, Depth, DepthAll, ParseList, ParseCall, ParsePrimary, Upper, PlainName, Starts, EndsPrimary;
    NameThenCall(ts, pos, d, e.name);
    ReadArguments(ts, pos + 2, d, e, pos + 2 + WidthAll(e.args));
  }

  lemma {:induction false} ReadPrimary(ts: seq<Token>, pos: nat, d: nat, e: Expr)
    requires d <= MAX_DEPTH && PrimaryAt(ts, pos, e)
    ensures PrimaryRead(ts, pos, d, e)
    decreases e, 0
  {
    hide *;
    match e
    case And(l, r) =>
      GroupParts(ts, pos, e);
      WidthPositive(ts, pos + 1, l);
      WidthPositive(ts, pos + Width(l) + 2, r);
      if d + 1 <= MAX_DEPTH {
        ReadNot(ts, pos + 1, d + 1, l);
        ReadNot(ts, pos + Width(l) + 2, d + 1, r);
      }
      NextGroup(ts, pos, d, e);
    case Or(l, r) =>
      GroupParts(ts, pos, e);
      WidthPositive(ts, pos + 1, l);
      WidthPositive(ts, pos + Width(l) + 2, r);
      if d + 1 <= MAX_DEPTH {
        ReadNot(ts, pos + 1, d + 1, l);
        ReadNot(ts, pos + Width(l) + 2, d + 1, r);
      }
      NextGroup(ts, pos, d, e);
    case Call(_, args) =>
      CallParts(ts, pos, e);
      if args != [] {
        StartOfList(ts, pos + 2, args);
        if d + 1 <= MAX_DEPTH {
          ReadList(ts, pos + 2, d + 1, args);
        }
      }
      NextCall(ts, pos, d, e);
    case Col(_, _) => ReadColumn(ts, pos, d, e);
    case _ =>
      LiteralOnly(ts, pos, e);
      ReadLiteral(ts, pos, d, e);
  }

  lemma LiteralOnly(ts: seq<Token>, pos: nat, e: Expr)
    requires PrimaryAt(ts, pos, e) && !e.And? && !e.Or? && !e.Call? && !e.Col?
    ensures e.Val? || e.Param?
  {
  }

  // ----- printing lays the tokens out

  lemma {:induction false} PrintWidth(e: Expr)
    ensures |Print(e)| == Width(e)
    decreases e, 0
  {
    match e
    case Binary(l, _, r) => PrintWidth(l); PrintWidth(r);
    case And(l, r) => PrintWidth(l); PrintWidth(r);
    case Or(l, r) => PrintWidth(l); PrintWidth(r);
    case Not(x) => PrintWidth(x);
    case In(l, list, _) => PrintWidth(l); PrintAllWidth(list);
    case Between(x, lower, upper, _) => PrintWidth(x); PrintWidth(lower); PrintWidth(upper);
    case Call(_, args) => PrintAllWidth(args);
    case _ =>
  }

  lemma {:induction false} PrintAllWidth(es: seq<Expr>)
    ensures |PrintAll(es)| == WidthAll(es)
    decreases es, 0
  {
    if es != [] {
      PrintWidth(es[0]);
      PrintAllWidth(es[1..]);
    }
  }

  /** The tokens `seg` stand at `pos`, and the list goes on behind them. */
  ghost predicate Has(ts: seq<Token>, pos: nat, seg: seq<Token>) {
    pos + |seg| < |ts| && ts[pos..pos + |seg|] == seg
  }

  lemma HasParts(ts: seq<Token>, pos: nat, a: seq<Token>, b: seq<Token>)
    requires Has(ts, pos, a + b)
    ensures Has(ts, pos, a) && Has(ts, pos + |a|, b)
  {
    assert ts[pos..pos + |a|] == (a + b)[..|a|] == a;
    assert ts[pos + |a|..pos + |a| + |b|] == (a + b)[|a|..] == b;
  }

  lemma HasAt(ts: seq<Token>, pos: nat, seg: seq<Token>, i: nat)
    requires Has(ts, pos, seg) && i < |seg|
    ensures ts[pos + i] == seg[i]
  {
    assert ts[pos..pos + |seg|][i] == ts[pos + i];
  }

  lemma HasOp(ts: seq<Token>, pos: nat, op: Op)
    requires Has(ts, pos, PrintOp(op))
    ensures |PrintOp(op)| == OpWidth(op) && OpAt(ts, pos, op)
  {
    HasAt(ts, pos, PrintOp(op), 0);
    if op.IsNotOp? {
      HasAt(ts, pos, PrintOp(op), 1);
    }
  }

  /** A piece between two tokens. */
  lemma HasGroup(ts: seq<Token>, pos: nat, a: seq<Token>, word: Token, b: seq<Token>)
    requires Has(ts, pos, [LParen] + a + [word] + b + [RParen])
    ensures GroupAt(ts, pos, |a|, word, |b|) && Has(ts, pos + 1, a) && Has(ts, pos + |a| + 2, b)
  {
    HasParts(ts, pos, [LParen] + a + [word] + b, [RParen]);
    HasParts(ts, pos, [LParen] + a + [word], b);
    HasParts(ts, pos, [LParen] + a, [word]);
    HasParts(ts, pos, [LParen], a);
    HasAt(ts, pos, [LParen], 0);
    HasAt(ts, pos + |a| + 1, [word], 0);
    HasAt(ts, pos + |a| + |b| + 2, [RParen], 0);
  }

  function Word(word: Token, negated: bool): seq<Token> {
    if negated then [Not_, word] else [word]
  }

  lemma HasWord(ts: seq<Token>, pos: nat, word: Token, negated: bool)
    requires Has(ts, pos, Word(word, negated))
    ensures WordAt(ts, pos, word, negated)
  {
    HasAt(ts, pos, Word(word, negated), 0);
    if negated {
      HasAt(ts, pos, Word(word, negated), 1);
    }
  }

  lemma HasBetween(ts: seq<Token>, pos: nat, x: seq<Token>, negated: bool, lower: seq<Token>, upper: seq<Token>)
    requires Has(ts, pos, x + Word(Between_, negated) + lower + [And_] + upper)
    ensures var p := pos + |x|;
      var q := p + WordWidth(negated);
      var m := q + |lower|;
      Has(ts, pos, x) && WordAt(ts, p, Between_, negated) && Has(ts, q, lower) && ts[m] == And_ && Has(ts, m + 1, upper)
  {
    var word := Word(Between_, negated);
    HasParts(ts, pos, x + word + lower + [And_], upper);
    HasParts(ts, pos, x + word + lower, [And_]);
    HasParts(ts, pos, x + word, lower);
    HasParts(ts, pos, x, word);
    HasWord(ts, pos + |x|, Between_, negated);
    HasAt(ts, pos + |x| + |word| + |lower|, [And_], 0);
  }

  lemma HasIn(ts: seq<Token>, pos: nat, x: seq<Token>, negated: bool, list: seq<Token>)
    requires Has(ts, pos, x + Word(In_, negated) + [LParen] + list + [RParen])
    ensures var p := pos + |x|;
      var q := p + WordWidth(negated);
      && Has(ts, pos, x) && WordAt(ts, p, In_, negated) && ts[q] == LParen && Has(ts, q + 1, list) && ts[q + 1 + |list|] == RParen
  {
    var word := Word(In_, negated);
    HasParts(ts, pos, x + word + [LParen] + list, [RParen]);
    HasParts(ts, pos, x + word + [LParen], list);
    HasParts(ts, pos, x + word, [LParen]);
    HasParts(ts, pos, x, word);
    HasWord(ts, pos + |x|, In_, negated);
    HasAt(ts, pos + |x| + |word|, [LParen], 0);
    HasAt(ts, pos + |x| + |word| + 1 + |list|, [RParen], 0);
  }

  lemma HasCall(ts: seq<Token>, pos: nat, name: string, args: seq<Token>)
    requires Has(ts, pos, [Ident(name), LParen] + args + [RParen])
    ensures ts[pos] == Ident(name) && ts[pos + 1] == LParen && Has(ts, pos + 2, args) && ts[pos + 2 + |args|] == RParen
  {
    HasParts(ts, pos, [Ident(name), LParen] + args, [RParen]);
    HasParts(ts, pos, [Ident(name), LParen], args);
    HasAt(ts, pos, [Ident(name), LParen], 0);
    HasAt(ts, pos, [Ident(name), LParen], 1);
    HasAt(ts, pos + 2 + |args|, [RParen], 0);
  }

  lemma {:induction false} LayOut(ts: seq<Token>, pos: nat, e: Expr)
    requires Has(ts, pos, Print(e))
    ensures Laid(ts, pos, e)
    decreases e, 1
  {
    hide *;
    match e
    case Binary(_, _, _) => LayOutInfix(ts, pos, e);
    case And(_, _) => LayOutPair(ts, pos, e);
    case Or(_, _) => LayOutPair(ts, pos, e);
    case Not(_) => LayOutNegation(ts, pos, e);
    case In(_, _, _) => LayOutMembership(ts, pos, e);
    case Between(_, _, _, _) => LayOutRange(ts, pos, e);
    case Call(_, _) => LayOutApplication(ts, pos, e);
    case Col(_, _) => LayOutColumn(ts, pos, e);
    case _ => LayOutLeaf(ts, pos, e);
  }

  lemma {:induction false} LayOutInfix(ts: seq<Token>, pos: nat, e: Expr)
    requires Has(ts, pos, Print(e)) && e.Binary?
    ensures Laid(ts, pos, e)
    decreases e, 0
  {
    hide *;
    LayOutBinary(ts, pos, e);
    LayOut(ts, pos, e.left);
    LayOut(ts, pos + Width(e.left) + OpWidth(e.op), e.right);
    LaidBinary(ts, pos, e);
  }

  lemma {:induction false} LayOutPair(ts: seq<Token>, pos: nat, e: Expr)
    requires Has(ts, pos, Print(e)) && (e.And? || e.Or?)
    ensures Laid(ts, pos, e)
    decreases e, 0
  {
    hide *;
    LayOutGroup(ts, pos, e);
    LayOut(ts, pos + 1, e.left);
    LayOut(ts, pos + Width(e.left) + 2, e.right);
    LaidGroup(ts, pos, e);
  }

  lemma {:induction false} LayOutNegation(ts: seq<Token>, pos: nat, e: Expr)
    requires Has(ts, pos, Print(e)) && e.Not?
    ensures Laid(ts, pos, e)
    decreases e, 0
  {
    hide *;
    LayOutNot(ts, pos, e);
    LayOut(ts, pos + 1, e.inner);
    LaidNot(ts, pos, e);
  }

  lemma {:induction false} LayOutMembership(ts: seq<Token>, pos: nat, e: Expr)
    requires Has(ts, pos, Print(e)) && e.In?
    ensures Laid(ts, pos, e)
    decreases e, 0
  {
    hide *;
    LayOutIn(ts, pos, e);
    LayOut(ts, pos, e.left);
    LayOutAll(ts, pos + Width(e.left) + WordWidth(e.negated) + 1, e.list);
    LaidIn(ts, pos, e);
  }

  lemma {:induction false} LayOutRange(ts: seq<Token>, pos: nat, e: Expr)
    requires Has(ts, pos, Print(e)) && e.Between?
    ensures Laid(ts, pos, e)
    decreases e, 0
  {
    hide *;
    LayOutBetween(ts, pos, e);
    LayOut(ts, pos, e.inner);
    LayOut(ts, pos + Width(e.inner) + WordWidth(e.negated), e.lower);
    LayOut(ts, pos + Width(e.inner) + WordWidth(e.negated) + Width(e.lower) + 1, e.upper);
    LaidBetween(ts, pos, e);
  }

  lemma {:induction false} LayOutApplication(ts: seq<Token>, pos: nat, e: Expr)
    requires Has(ts, pos, Print(e)) && e.Call?
    ensures Laid(ts, pos, e)
    decreases e, 0
  {
    hide *;
    LayOutCall(ts, pos, e);
    LayOutAll(ts, pos + 2, e.args);
    LaidCall(ts, pos, e);
  }

  lemma LayOutLeaf(ts: seq<Token>, pos: nat, e: Expr)
    requires Has(ts, pos, Print(e)) && (e.Nil? || e.Val? || e.Param? || e.Cast? || e.Opaque?)
    ensures Laid(ts, pos, e)
  {
    if !e.Nil? {
      HasAt(ts, pos, Print(e), 0);
    }
  }

  lemma LaidBinary(ts: seq<Token>, pos: nat, e: Expr)
    requires e.Binary? && pos + Width(e) < |ts| && Width(e) == Width(e.left) + OpWidth(e.op) + Width(e.right)
    requires Laid(ts, pos, e.left) && OpAt(ts, pos + Width(e.left), e.op) && Laid(ts, pos + Width(e.left) + OpWidth(e.op), e.right)
    ensures Laid(ts, pos, e)
  {
    hide Width, WidthAll, WordAt, OpAt, GroupAt;
  }

  lemma LaidGroup(ts: seq<Token>, pos: nat, e: Expr)
    requires (e.And? || e.Or?) && pos + Width(e) < |ts| && Width(e) == Width(e.left) + Width(e.right) + 3
    requires GroupAt(ts, pos, Width(e.left), if e.And? then And_ else Or_, Width(e.right))
    requires Laid(ts, pos + 1, e.left) && Laid(ts, pos + Width(e.left) + 2, e.right)
    ensures Laid(ts, pos, e)
  {
    hide Width, WidthAll, WordAt, OpAt, GroupAt;
  }

  lemma LaidNot(ts: seq<Token>, pos: nat, e: Expr)
    requires e.Not? && pos + Width(e) < |ts| && ts[pos] == Not_ && Laid(ts, pos + 1, e.inner)
    ensures Laid(ts, pos, e)
  {
  }

  lemma LaidIn(ts: seq<Token>, pos: nat, e: Expr)
    requires e.In? && pos + Width(e) < |ts| && Width(e) == Width(e.left) + WordWidth(e.negated) + WidthAll(e.list) + 2
    requires var p := pos + Width(e.left);
      var q := p + WordWidth(e.negated);
      && Laid(ts, pos, e.left) && WordAt(ts, p, In_, e.negated) && ts[q] == LParen
      && LaidAll(ts, q + 1, e.list) && ts[q + 1 + WidthAll(e.list)] == RParen
    ensures Laid(ts, pos, e)
  {
    hide Width, WidthAll, WordAt, OpAt, GroupAt;
  }

  lemma LaidBetween(ts: seq<Token>, pos: nat, e: Expr)
    requires e.Between? && pos + Width(e) < |ts| && Width(e) == Width(e.inner) + WordWidth(e.negated) + Width(e.lower) + 1 + Width(e.upper)
    requires var p := pos + Width(e.inner);
      var q := p + WordWidth(e.negated);
      var m := q + Width(e.lower);
      Laid(ts, pos, e.inner) && WordAt(ts, p, Between_, e.negated) && Laid(ts, q, e.lower) && ts[m] == And_ && Laid(ts, m + 1, e.upper)
    ensures Laid(ts, pos, e)
  {
    hide Width, WidthAll, WordAt, OpAt, GroupAt;
  }

  lemma LaidCall(ts: seq<Token>, pos: nat, e: Expr)
    requires e.Call? && pos + Width(e) < |ts| && Width(e) == 3 + WidthAll(e.args)
    requires ts[pos] == Ident(e.name) && ts[pos + 1] == LParen && LaidAll(ts, pos + 2, e.args) && ts[pos + 2 + WidthAll(e.args)] == RParen
    ensures Laid(ts, pos, e)
  {
    hide Width, WidthAll, WordAt, OpAt, GroupAt;
  }

  lemma HasInfix(ts: seq<Token>, pos: nat, a: seq<Token>, op: Op, b: seq<Token>)
    requires Has(ts, pos, a + PrintOp(op) + b)
    ensures pos + |a| + OpWidth(op) < |ts| && Has(ts, pos, a) && OpAt(ts, pos + |a|, op) && Has(ts, pos + |a| + OpWidth(op), b)
  {
    HasParts(ts, pos, a + PrintOp(op), b);
    HasParts(ts, pos, a, PrintOp(op));
    HasOp(ts, pos + |a|, op);
  }

  lemma LayOutColumn(ts: seq<Token>, pos: nat, e: Expr)
    requires Has(ts, pos, Print(e)) && e.Col?
    ensures Laid(ts, pos, e)
  {
    HasAt(ts, pos, Print(e), 0);
    if e.table != "" {
      HasAt(ts, pos, Print(e), 1);
      HasAt(ts, pos, Print(e), 2);
    }
  }

  lemma BinaryText(e: Expr)
    requires e.Binary?
    ensures Print(e) == Print(e.left) + PrintOp(e.op) + Print(e.right)
  {
  }

  lemma LayOutBinary(ts: seq<Token>, pos: nat, e: Expr)
    requires Has(ts, pos, Print(e)) && e.Binary?
    ensures pos + Width(e) < |ts| && Width(e) == Width(e.left) + OpWidth(e.op) + Width(e.right)
    ensures Has(ts, pos, Print(e.left)) && OpAt(ts, pos + Width(e.left), e.op)
    ensures Has(ts, pos + Width(e.left) + OpWidth(e.op), Print(e.right))
  {
    hide Print, Width, Has, OpAt;
    BinaryText(e);
    BinaryWidth(e);
    PrintWidth(e);
    PrintWidth(e.left);
    PrintWidth(e.right);
    HasRoom(ts, pos, Print(e));
    HasInfix(ts, pos, Print(e.left), e.op, Print(e.right));
  }

  lemma LayOutGroup(ts: seq<Token>, pos: nat, e: Expr)
    requires Has(ts, pos, Print(e)) && (e.And? || e.Or?)
    ensures pos + Width(e) < |ts| && Width(e) == Width(e.left) + Width(e.right) + 3
    ensures GroupAt(ts, pos, Width(e.left), if e.And? then And_ else Or_, Width(e.right))
    ensures Has(ts, pos + 1, Print(e.left)) && Has(ts, pos + Width(e.left) + 2, Print(e.right))
  {
    hide Print, Width, Has, GroupAt;
    GroupText(e);
    PrintWidth(e);
    PrintWidth(e.left);
    PrintWidth(e.right);
    HasGroup(ts, pos, Print(e.left), if e.And? then And_ else Or_, Print(e.right));
    HasRoom(ts, pos, Print(e));
  }

  lemma GroupText(e: Expr)
    requires e.And? || e.Or?
    ensures Print(e) == [LParen] + Print(e.left) + [if e.And? then And_ else Or_] + Print(e.right) + [RParen]
    ensures Width(e) == Width(e.left) + Width(e.right) + 3
  {
  }

  lemma LayOutNot(ts: seq<Token>, pos: nat, e: Expr)
    requires Has(ts, pos, Print(e)) && e.Not?
    ensures pos + Width(e) < |ts| && ts[pos] == Not_ && Has(ts, pos + 1, Print(e.inner))
  {
    PrintWidth(e.inner);
    HasParts(ts, pos, [Not_], Print(e.inner));
    HasAt(ts, pos, [Not_], 0);
  }

  lemma LayOutIn(ts: seq<Token>, pos: nat, e: Expr)
    requires Has(ts, pos, Print(e)) && e.In?
    ensures var p := pos + Width(e.left);
      var q := p + WordWidth(e.negated);
      && pos + Width(e) < |ts| && Width(e) == Width(e.left) + WordWidth(e.negated) + WidthAll(e.list) + 2
      && Has(ts, pos, Print(e.left)) && WordAt(ts, p, In_, e.negated) && ts[q] == LParen
      && Has(ts, q + 1, PrintAll(e.list)) && ts[q + 1 + WidthAll(e.list)] == RParen
  {
    hide Print, PrintAll, Width, WidthAll, Has, WordAt;
    InText(e);
    PrintWidth(e);
    PrintWidth(e.left);
    PrintAllWidth(e.list);
    HasIn(ts, pos, Print(e.left), e.negated, PrintAll(e.list));
    HasRoom(ts, pos, Print(e));
  }

  lemma InText(e: Expr)
    requires e.In?
    ensures Print(e) == Print(e.left) + Word(In_, e.negated) + [LParen] + PrintAll(e.list) + [RParen]
    ensures Width(e) == Width(e.left) + WordWidth(e.negated) + WidthAll(e.list) + 2
  {
  }

  lemma LayOutBetween(ts: seq<Token>, pos: nat, e: Expr)
    requires Has(ts, pos, Print(e)) && e.Between?
    ensures var p := pos + Width(e.inner);
      var q := p + WordWidth(e.negated);
      var m := q + Width(e.lower);
      && pos + Width(e) < |ts| && Width(e) == Width(e.inner) + WordWidth(e.negated) + Width(e.lower) + 1 + Width(e.upper)
      && Has(ts, pos, Print(e.inner)) && WordAt(ts, p, Between_, e.negated) && Has(ts, q, Print(e.lower))
      && ts[m] == And_ && Has(ts, m + 1, Print(e.upper))
  {
    hide Print, Width, Has, WordAt;
    BetweenText(e);
    PrintWidth(e);
    PrintWidth(e.inner);
    PrintWidth(e.lower);
    HasBetween(ts, pos, Print(e.inner), e.negated, Print(e.lower), Print(e.upper));
    HasRoom(ts, pos, Print(e));
  }

  lemma BetweenText(e: Expr)
    requires e.Between?
    ensures Print(e) == Print(e.inner) + Word(Between_, e.negated) + Print(e.lower) + [And_] + Print(e.upper)
    ensures Width(e) == Width(e.inner) + WordWidth(e.negated) + Width(e.lower) + 1 + Width(e.upper)
  {
  }

  lemma HasRoom(ts: seq<Token>, pos: nat, seg: seq<Token>)
    requires Has(ts, pos, seg)
    ensures pos + |seg| < |ts|
  {
  }

  lemma LayOutCall(ts: seq<Token>, pos: nat, e: Expr)
    requires Has(ts, pos, Print(e)) && e.Call?
    ensures pos + Width(e) < |ts| && Width(e) == 3 + WidthAll(e.args) && ts[pos] == Ident(e.name) && ts[pos + 1] == LParen
    ensures Has(ts, pos + 2, PrintAll(e.args)) && ts[pos + 2 + WidthAll(e.args)] == RParen
  {
    PrintWidth(e);
    PrintAllWidth(e.args);
    HasCall(ts, pos, e.name, PrintAll(e.args));
  }

  lemma {:induction false} LayOutAll(ts: seq<Token>, pos: nat, es: seq<Expr>)
    requires Has(ts, pos, PrintAll(es))
    ensures LaidAll(ts, pos, es)
    decreases es, 0
  {
    hide Print, Laid, Width, Has;
    if |es| == 1 {
      LayOut(ts, pos, es[0]);
    } else if |es| > 1 {
      LayOutItem(ts, pos, es);
      LayOut(ts, pos, es[0]);
      LayOutAll(ts, pos + Width(es[0]) + 1, es[1..]);
      LaidInRange(ts, pos, es[0]);
    }
  }

  lemma ListText(es: seq<Expr>)
    requires |es| > 1
    ensures PrintAll(es) == Print(es[0]) + [Comma] + PrintAll(es[1..])
  {
    hide Print;
  }

  lemma LayOutItem(ts: seq<Token>, pos: nat, es: seq<Expr>)
    requires |es| > 1 && Has(ts, pos, PrintAll(es))
    ensures Has(ts, pos, Print(es[0])) && pos + Width(es[0]) < |ts| && ts[pos + Width(es[0])] == Comma
    ensures Has(ts, pos + Width(es[0]) + 1, PrintAll(es[1..]))
  {
    hide Print, PrintAll, Width, Has;
    PrintWidth(es[0]);
    ListText(es);
    HasRoom(ts, pos, PrintAll(es));
    HasParts(ts, pos, Print(es[0]) + [Comma], PrintAll(es[1..]));
    HasParts(ts, pos, Print(es[0]), [Comma]);
    HasAt(ts, pos + Width(es[0]), [Comma], 0);
  }

  // ----- the round trip

  /** `ParseExpression` on the tokens of one expression. */
  function Reread(e: Expr): Parsed {
    ParseOr(Print(e) + [Eof], 0, 0)
  }

  /** An expression of the grammar's ranks is read back as it was, exactly when it is not nested
      too deep. */
  lemma PrintReadsBack(e: Expr)
    requires Rank4(e)
    ensures Reread(e) == if Depth(e) <= MAX_DEPTH then Done(e, |Print(e)|) else Fail
  {
    hide Laid, Rank4, Width, Depth, ParseOr;
    var ts := Print(e) + [Eof];
    PrintWidth(e);
    assert ts[0..|Print(e)|] == Print(e);
    LayOut(ts, 0, e);
    assert ts[Width(e)] == Eof;
    ReadNot(ts, 0, 0, e);
    OnlyNot(ts, 0, 0, e);
  }
}
