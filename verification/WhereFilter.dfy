/**
 The WHERE clause of a DELETE: which expressions are accepted, and the row evaluator.
 */
module WhereFilter {
  import opened Common
  import opened DecimalText
  import opened RowLineage

  // ---------------------------------------------------------------------
  // Expressions and schemas
  // ---------------------------------------------------------------------

  datatype Literal = Number(text: string) | Quoted(text: string) | BooleanLit(value: bool) | NullLit | OtherLit

  datatype Operator = And | Or | Eq | NotEq | Lt | LtEq | Gt | GtEq | OtherOp

  datatype Expr =
    | Binary(left: Expr, op: Operator, right: Expr)
    | InList(operand: Expr, list: seq<Expr>, negated: bool)
    | IsNull(operand: Expr)
    | IsNotNull(operand: Expr)
    | Parens(operand: Expr)
    | Identifier(name: string)
    | Compound(parts: seq<string>)
    | Value(literal: Literal)
    | Minus(operand: Expr)
    | OtherExpr

  datatype Primitive = IntType | LongType | StringType | BooleanType | OtherPrimitive

  datatype FieldType = PrimitiveType(primitive: Primitive) | NestedType

  datatype Field = Field(name: string, fieldType: FieldType)

  type Schema = seq<Field>

  datatype Datum = IntDatum(i: int) | LongDatum(l: int) | StringDatum(s: string) | BoolDatum(b: bool)

  datatype WhereError = Unsupported | NotAColumn | NotALiteral | UnknownColumn | BadLiteral | MissingColumn | WrongType

  // ---------------------------------------------------------------------
  // Columns and literals
  // ---------------------------------------------------------------------

  function LowerChar(c: char): char {
    if 'A' <= c <= 'Z' then c + ' ' else c
  }

  function Lower(s: string): string {
    if s == "" then "" else [LowerChar(s[0])] + Lower(s[1..])
  }

  function ColumnName(e: Expr): Result<string, WhereError> {
    match e
    case Identifier(name) => Ok(Lower(name))
    case Compound(parts) => if parts == [] then Err(NotAColumn) else Ok(Lower(parts[|parts| - 1]))
    case _ => Err(NotAColumn)
  }

  function FindField(schema: Schema, name: string): (r: Option<nat>)
    ensures r.Some? ==> r.value < |schema|
    decreases schema
  {
    if schema == [] then None
    else if Lower(schema[0].name) == Lower(name) then Some(0)
    else match FindField(schema[1..], name) case None => None case Some(i) => Some(i + 1)
  }

  function PrimitiveOf(schema: Schema, name: string): Result<Primitive, WhereError> {
    match FindField(schema, name)
    case None => Err(UnknownColumn)
    case Some(i) => if schema[i].fieldType.PrimitiveType? then Ok(schema[i].fieldType.primitive) else Err(WrongType)
  }

  function ParseWithin(s: string, lo: int, hi: int): Option<int> {
    match ParseI128(s)
    case None => None
    case Some(v) => if lo <= v <= hi then Some(v) else None
  }

  function LiteralText(l: Literal): Result<string, WhereError> {
    match l
    case Number(s) => Ok(s)
    case Quoted(s) => Ok(s)
    case BooleanLit(b) => Ok(if b then "true" else "false")
    case _ => Err(Unsupported)
  }

  /** The literal's text, with a minus sign in front if it was negated. */
  function SignedText(e: Expr): Result<string, WhereError> {
    match e
    case Value(l) => LiteralText(l)
    case Minus(Value(l)) => (match LiteralText(l) case Ok(s) => Ok("-" + s) case Err(x) => Err(x))
    case _ => Err(NotALiteral)
  }

  function TextToDatum(p: Primitive, s: string): Result<Datum, WhereError> {
    match p
    case IntType => (match ParseWithin(s, I32_MIN, I32_MAX) case Some(v) => Ok(IntDatum(v)) case None => Err(BadLiteral))
    case LongType => (match ParseWithin(s, I64_MIN, I64_MAX) case Some(v) => Ok(LongDatum(v)) case None => Err(BadLiteral))
    case StringType => Ok(StringDatum(s))
    case BooleanType => if s == "true" then Ok(BoolDatum(true)) else if s == "false" then Ok(BoolDatum(false)) else Err(BadLiteral)
    case OtherPrimitive => Err(Unsupported)
  }

  function LiteralToDatum(e: Expr, schema: Schema, name: string): Result<Datum, WhereError> {
    match PrimitiveOf(schema, name)
    case Err(x) => Err(x)
    case Ok(p) => match SignedText(e) case Err(x) => Err(x) case Ok(s) => TextToDatum(p, s)
  }

  /** The column's name, the literal, and whether the literal came first. */
  function ExtractComparison(left: Expr, right: Expr): Result<(string, Expr, bool), WhereError> {
    if ColumnName(left).Ok? then Ok((ColumnName(left).value, right, false))
    else if ColumnName(right).Ok? then Ok((ColumnName(right).value, left, true))
    else Err(NotAColumn)
  }

  // ---------------------------------------------------------------------
  // Which clauses are accepted
  // ---------------------------------------------------------------------

  predicate IsComparison(op: Operator) {
    op.Eq? || op.NotEq? || op.Lt? || op.LtEq? || op.Gt? || op.GtEq?
  }

  predicate AcceptsComparison(left: Expr, right: Expr, schema: Schema) {
    match ExtractComparison(left, right)
    case Err(_) => false
    case Ok((name, literal, _)) => LiteralToDatum(literal, schema, name).Ok?
  }

  predicate Accepts(e: Expr, schema: Schema) {
    match e
    case Binary(l, op, r) =>
      if op.And? || op.Or? then Accepts(l, schema) && Accepts(r, schema)
      else IsComparison(op) && AcceptsComparison(l, r, schema)
    case InList(c, list, _) =>
      ColumnName(c).Ok? && forall i :: 0 <= i < |list| ==> LiteralToDatum(list[i], schema, ColumnName(c).value).Ok?
    case IsNull(c) => ColumnName(c).Ok?
    case IsNotNull(c) => ColumnName(c).Ok?
    case Parens(inner) => Accepts(inner, schema)
    case _ => false
  }

  // ---------------------------------------------------------------------
  // The row evaluator
  // ---------------------------------------------------------------------

  datatype Ordering = Less | Equal | Greater

  function FindColumn(row: Row, name: string): (r: Option<nat>)
    ensures r.Some? ==> r.value < |row| && row[r.value].name == name
    decreases row
  {
    if row == [] then None
    else if row[0].name == name then Some(0)
    else match FindColumn(row[1..], name) case None => None case Some(i) => Some(i + 1)
  }

  predicate CellFits(p: Primitive, c: Cell) {
    match p
    case IntType => c.Int?
    case LongType => c.Long?
    case StringType => c.Text?
    case BooleanType => c.Bool?
    case OtherPrimitive => false
  }

  /** The row's value in a column, `None` for SQL's NULL. */
  function ColumnValue(name: string, row: Row, schema: Schema): Result<Option<Cell>, WhereError> {
    match FindField(schema, name)
    case None => Err(UnknownColumn)
    case Some(f) =>
      if !schema[f].fieldType.PrimitiveType? then Err(WrongType)
      else match FindColumn(row, schema[f].name)
        case None => Err(MissingColumn)
        case Some(i) =>
          if row[i].cell.Null? then Ok(None)
          else if CellFits(schema[f].fieldType.primitive, row[i].cell) then Ok(Some(row[i].cell))
          else Err(WrongType)
  }

  function CompareInts(a: int, b: int): Ordering {
    if a < b then Less else if a == b then Equal else Greater
  }

  function CompareStrings(a: string, b: string): Ordering {
    if a == "" then (if b == "" then Equal else Less)
    else if b == "" then Greater
    else if a[0] == b[0] then CompareStrings(a[1..], b[1..])
    else CompareInts(a[0] as int, b[0] as int)
  }

  function CompareBools(a: bool, b: bool): Ordering {
    if a == b then Equal else if b then Less else Greater
  }

  function CompareCell(c: Cell, d: Datum): Result<Ordering, WhereError> {
    match (c, d)
    case (Int(a), IntDatum(b)) => Ok(CompareInts(a, b))
    case (Long(a), LongDatum(b)) => Ok(CompareInts(a, b))
    case (Text(a), StringDatum(b)) => Ok(CompareStrings(a, b))
    case (Bool(a), BoolDatum(b)) => Ok(CompareBools(a, b))
    case _ => Err(WrongType)
  }

  /** Reads an ordering of column and literal through the operator, as written in that order or flipped. */
  predicate Holds(op: Operator, flipped: bool, cmp: Ordering) {
    match op
    case Eq => cmp == Equal
    case NotEq => cmp != Equal
    case Lt => if flipped then cmp == Greater else cmp == Less
    case LtEq => if flipped then cmp != Less else cmp != Greater
    case Gt => if flipped then cmp == Less else cmp == Greater
    case GtEq => if flipped then cmp != Greater else cmp != Less
    case _ => false
  }

  function EvaluateComparison(l: Expr, op: Operator, r: Expr, row: Row, schema: Schema): Result<bool, WhereError> {
    match ExtractComparison(l, r)
    case Err(x) => Err(x)
    case Ok((name, literal, flipped)) =>
      match ColumnValue(name, row, schema)
      case Err(x) => Err(x)
      case Ok(cell) =>
        match LiteralToDatum(literal, schema, name)
        case Err(x) => Err(x)
        case Ok(datum) =>
          if cell.None? then Ok(false)
          else match CompareCell(cell.value, datum) case Err(x) => Err(x) case Ok(cmp) => Ok(Holds(op, flipped, cmp))
  }

  /** Whether some listed literal equals the cell; stops at the first that does. */
  function AnyEqual(cell: Cell, list: seq<Expr>, schema: Schema, name: string): Result<bool, WhereError>
    decreases list
  {
    if list == [] then Ok(false)
    else match LiteralToDatum(list[0], schema, name)
      case Err(x) => Err(x)
      case Ok(datum) =>
        match CompareCell(cell, datum)
        case Err(x) => Err(x)
        case Ok(cmp) => if cmp == Equal then Ok(true) else AnyEqual(cell, list[1..], schema, name)
  }

  function EvaluateInList(c: Expr, list: seq<Expr>, negated: bool, row: Row, schema: Schema): Result<bool, WhereError> {
    match ColumnName(c)
    case Err(x) => Err(x)
    case Ok(name) =>
      match ColumnValue(name, row, schema)
      case Err(x) => Err(x)
      case Ok(None) => Ok(false)
      case Ok(Some(cell)) =>
        match AnyEqual(cell, list, schema, name) case Err(x) => Err(x) case Ok(found) => Ok(found != negated)
  }

  function EvaluateNull(c: Expr, row: Row, schema: Schema): Result<bool, WhereError> {
    match ColumnName(c)
    case Err(x) => Err(x)
    case Ok(name) => match ColumnValue(name, row, schema) case Err(x) => Err(x) case Ok(cell) => Ok(cell.None?)
  }

  function Evaluate(e: Expr, row: Row, schema: Schema): Result<bool, WhereError> {
    match e
    case Binary(l, op, r) =>
      if op.And? then
        match Evaluate(l, row, schema)
        case Ok(true) => Evaluate(r, row, schema)
        case other => other
      else if op.Or? then
        match Evaluate(l, row, schema)
        case Ok(false) => Evaluate(r, row, schema)
        case other => other
      else if IsComparison(op) then EvaluateComparison(l, op, r, row, schema)
      else Err(Unsupported)
    case InList(c, list, negated) => EvaluateInList(c, list, negated, row, schema)
    case IsNull(c) => EvaluateNull(c, row, schema)
    case IsNotNull(c) => (match EvaluateNull(c, row, schema) case Err(x) => Err(x) case Ok(b) => Ok(!b))
    case Parens(inner) => Evaluate(inner, row, schema)
    case _ => Err(Unsupported)
  }
}
