/** SQL expressions, the values they work on, and the names of columns. */
module Ast {
  import opened Results
  import opened Text

  /** A literal of the parser: a type tag and one field per type. */
  datatype Value = Value(tag: string, int_: int, float_: real, text: string, bool_: bool)

  /** A computed value; `Other` stands for the Go types outside the five. */
  datatype Raw = Null | Int(i: int) | Float(f: real) | Text(s: string) | Bool(b: bool) | Other(shown: string)

  /** The operators between two operands; `Infix` is a comparison or another symbol. */
  datatype Op = Sum | Difference | Times | Divide | LikeOp | ILikeOp | IsOp | IsNotOp | Infix(symbol: string)

  /** `Nil` is the absent expression.  `Opaque` stands for the forms not looked into here (CASE, JSON
      access, subqueries, aggregates, windows), with a note whether its value depends on the moment:
      whether it is or holds a subquery or a volatile call. */
  datatype Expr =
    | Nil
    | Val(value: Value)
    | Col(table: string, name: string)
    | Binary(left: Expr, op: Op, right: Expr)
    | And(left: Expr, right: Expr)
    | Or(left: Expr, right: Expr)
    | Not(inner: Expr)
    | In(left: Expr, list: seq<Expr>, negated: bool)
    | Between(inner: Expr, lower: Expr, upper: Expr, negated: bool)
    | Cast(inner: Expr, target: string)
    | Call(name: string, args: seq<Expr>)
    | Param(index: int)
    | Opaque(id: nat, volatile: bool)

  function IntVal(i: int): Value {
    Value("int", i, 0.0, "", false)
  }

  function FloatVal(f: real): Value {
    Value("float", 0, f, "", false)
  }

  function TextVal(s: string): Value {
    Value("string", 0, 0.0, s, false)
  }

  function BoolVal(b: bool): Value {
    Value("bool", 0, 0.0, "", b)
  }

  const NULL_VAL := Value("null", 0, 0.0, "", false)

  /** `ParserValueToRaw`. */
  function ToRaw(v: Value): Raw {
    if v.tag == "int" then Int(v.int_)
    else if v.tag == "float" then Float(v.float_)
    else if v.tag == "string" then Text(v.text)
    else if v.tag == "bool" then Bool(v.bool_)
    else Null
  }

  /** `rawToParserValue`: a computed value as a literal. */
  function ToLiteral(r: Raw): Value {
    match r
    case Null => NULL_VAL
    case Int(i) => IntVal(i)
    case Float(f) => FloatVal(f)
    case Bool(b) => BoolVal(b)
    case Text(s) => TextVal(s)
    case Other(shown) => TextVal(shown)
  }

  /** A value survives the trip through a literal exactly when it has one of the five types. */
  lemma LiteralKeeps(r: Raw)
    ensures ToRaw(ToLiteral(r)) == r <==> !r.Other?
    ensures r.Other? ==> ToRaw(ToLiteral(r)) == Text(r.shown)
  {
  }

  // ----- names

  type Row = seq<Raw>

  /** A column's value, looked up by qualifier and name. */
  type Scope = (string, string) -> Result<Raw>

  const NO_SCOPE: Scope := (table: string, name: string) => Err("no schema available")

  function DotIn(s: string): bool {
    '.' in s
  }

  /** The part behind the first dot. */
  function AfterDot(s: string): string
    requires DotIn(s)
  {
    if s[0] == '.' then s[1..] else AfterDot(s[1..])
  }

  /** Whether a reference by `name` reaches a column of this schema name, by `ResolveColumn`. */
  predicate Reaches(column: string, name: string) {
    SameFold(column, name) || (!DotIn(name) && DotIn(column) && AfterDot(column) != "" && SameFold(AfterDot(column), name))
  }

  /** What the code around an evaluation supplies: the name index and, in RETURNING, the two rows. */
  datatype Context = Context(index: map<string, nat>, oldRow: Option<Row>, newRow: Option<Row>)

  function Scan(columns: seq<string>, row: Row, name: string, i: nat): Result<Raw>
    requires i <= |columns|
    decreases |columns| - i
  {
    if i == |columns| then Err("unknown column")
    else if i < |row| && Reaches(columns[i], name) then Ok(row[i])
    else Scan(columns, row, name, i + 1)
  }

  /** `ResolveColumn`. */
  function Resolve(c: Context, row: Row, columns: Option<seq<string>>, name: string): Result<Raw> {
    if columns.None? then Err("no schema available")
    else if Lower(name) in c.index && c.index[Lower(name)] < |row| then Ok(row[c.index[Lower(name)]])
    else Scan(columns.value, row, name, 0)
  }

  /** The column case of `evalOperand`. */
  function Column(c: Context, row: Row, columns: Option<seq<string>>, table: string, name: string): Result<Raw> {
    if table == "old" && c.oldRow.Some? then Resolve(c, c.oldRow.value, columns, name)
    else if table == "new" && c.newRow.Some? then Resolve(c, c.newRow.value, columns, name)
    else if table != "" && Resolve(c, row, columns, table + "." + name).Ok? then Resolve(c, row, columns, table + "." + name)
    else Resolve(c, row, columns, name)
  }

  function RowScope(c: Context, row: Row, columns: Option<seq<string>>): Scope {
    (table: string, name: string) => Column(c, row, columns, table, name)
  }
}
