/**
 What a WHERE clause means in SQL, on the expression itself: column names agree when case is
 ignored, literals mean what they spell at the type of their column, and NULL makes comparisons
 unknown.
 */
module SqlMeaning {
  import opened Common
  import opened DecimalText
  import opened RowLineage
  import opened WhereFilter

  // ---------------------------------------------------------------------
  // Values and truth
  // ---------------------------------------------------------------------

  datatype Truth = True | False | Unknown

  datatype SqlValue = SqlNull | Number(n: int) | String(s: string) | Boolean(b: bool) | Opaque

  function TAnd(a: Truth, b: Truth): Truth {
    if a == False || b == False then False else if a == True && b == True then True else Unknown
  }

  function TOr(a: Truth, b: Truth): Truth {
    TNot(TAnd(TNot(a), TNot(b)))
  }

  function TNot(a: Truth): Truth {
    match a case True => False case False => True case Unknown => Unknown
  }

  function Known(b: bool): Truth {
    if b then True else False
  }

  /** `a` comes before `b` in code point order: at the first difference, or by being a proper prefix. */
  ghost predicate StringBefore(a: string, b: string) {
    exists k :: 0 <= k <= |a| && k < |b| && a[..k] == b[..k] && (k < |a| ==> a[k] < b[k])
  }

  ghost predicate Before(a: SqlValue, b: SqlValue) {
    match (a, b)
    case (Number(x), Number(y)) => x < y
    case (String(x), String(y)) => StringBefore(x, y)
    case (Boolean(x), Boolean(y)) => !x && y
    case _ => false
  }

  ghost function SqlCompare(a: SqlValue, op: Operator, b: SqlValue): Truth {
    if a.SqlNull? || b.SqlNull? then Unknown
    else match op
      case Eq => Known(a == b)
      case NotEq => TNot(Known(a == b))
      case Lt => Known(Before(a, b))
      case LtEq => TNot(Known(Before(b, a)))
      case Gt => Known(Before(b, a))
      case GtEq => TNot(Known(Before(a, b)))
      case _ => Unknown
  }

  // ---------------------------------------------------------------------
  // Columns
  // ---------------------------------------------------------------------

  predicate SameLetter(a: char, b: char) {
    || a == b
    || ('A' <= a <= 'Z' && b as int == a as int + 32)
    || ('A' <= b <= 'Z' && a as int == b as int + 32)
  }

  predicate SameName(a: string, b: string) {
    |a| == |b| && forall i :: 0 <= i < |a| ==> SameLetter(a[i], b[i])
  }

  /** The column an expression names: of a compound name, the last part. */
  function Spelled(e: Expr): Option<string> {
    match e
    case Identifier(name) => Some(name)
    case Compound(parts) => if parts == [] then None else Some(parts[|parts| - 1])
    case _ => None
  }

  /** Field `f` is the first whose name agrees. */
  ghost predicate IsField(schema: Schema, name: string, f: nat) {
    f < |schema| && SameName(schema[f].name, name) && forall g :: 0 <= g < f ==> !SameName(schema[g].name, name)
  }

  /** Column `i` of the row is the first with exactly this name. */
  ghost predicate IsCell(row: Row, name: string, i: nat) {
    i < |row| && row[i].name == name && forall j :: 0 <= j < i ==> row[j].name != name
  }

  ghost predicate Locates(c: Expr, row: Row, schema: Schema, f: nat, i: nat) {
    Spelled(c).Some? && IsField(schema, Spelled(c).value, f) && IsCell(row, schema[f].name, i)
  }

  function CellMeans(c: Cell): SqlValue {
    match c
    case Int(i) => SqlValue.Number(i)
    case Long(l) => SqlValue.Number(l)
    case Text(s) => String(s)
    case Bool(b) => Boolean(b)
    case Null => SqlNull
    case Other => Opaque
  }

  /** A column's value in the row. */
  ghost function SqlColumn(c: Expr, row: Row, schema: Schema): SqlValue {
    if exists f: nat, i: nat :: Locates(c, row, schema, f, i) then
      var f: nat, i: nat :| Locates(c, row, schema, f, i);
      CellMeans(row[i].cell)
    else SqlNull
  }

  ghost predicate IsPrimitive(c: Expr, schema: Schema, f: nat) {
    Spelled(c).Some? && IsField(schema, Spelled(c).value, f) && schema[f].fieldType.PrimitiveType?
  }

  /** The column's type, if there is such a column and it is not nested. */
  ghost function TypeOf(c: Expr, schema: Schema): Option<Primitive> {
    if exists f: nat :: IsPrimitive(c, schema, f) then
      var f: nat :| IsPrimitive(c, schema, f);
      Some(schema[f].fieldType.primitive)
    else None
  }

  // ---------------------------------------------------------------------
  // Literals
  // ---------------------------------------------------------------------

  predicate IsNumeral(s: string) {
    s != "" && forall i :: 0 <= i < |s| ==> '0' <= s[i] <= '9'
  }

  /** The sum of the digits, each times the power of ten of its place. */
  function PlaceValue(s: string): int
    requires forall i :: 0 <= i < |s| ==> '0' <= s[i] <= '9'
  {
    if s == "" then 0 else (s[0] as int - '0' as int) * Pow10(|s| - 1) + PlaceValue(s[1..])
  }

  /** An integer as text: digits, with a sign in front or not. */
  function NumberMeans(s: string): SqlValue {
    if IsNumeral(s) then SqlValue.Number(PlaceValue(s))
    else if s != "" && s[0] == '-' && IsNumeral(s[1..]) then SqlValue.Number(-PlaceValue(s[1..]))
    else if s != "" && s[0] == '+' && IsNumeral(s[1..]) then SqlValue.Number(PlaceValue(s[1..]))
    else SqlNull
  }

  function NegatedNumber(s: string): SqlValue {
    if IsNumeral(s) then SqlValue.Number(-PlaceValue(s)) else SqlNull
  }

  function TruthText(s: string): SqlValue {
    if s == "true" then Boolean(true) else if s == "false" then Boolean(false) else SqlNull
  }

  function TextMeans(sign: string, l: Literal): SqlValue {
    match l
    case Quoted(s) => String(sign + s)
    case Number(s) => String(sign + s)
    case BooleanLit(true) => String(sign + "true")
    case BooleanLit(false) => String(sign + "false")
    case _ => SqlNull
  }

  /** What a literal means at a type; `SqlNull` for one that means nothing there. */
  function LiteralMeans(e: Expr, p: Primitive): SqlValue {
    match p
    case BooleanType =>
      (match e
       case Value(BooleanLit(b)) => Boolean(b)
       case Value(Quoted(s)) => TruthText(s)
       case Value(Number(s)) => TruthText(s)
       case _ => SqlNull)
    case StringType =>
      (match e
       case Value(l) => TextMeans("", l)
       case Minus(Value(l)) => TextMeans("-", l)
       case _ => SqlNull)
    case OtherPrimitive => SqlNull
    case _ =>
      (match e
       case Value(Number(s)) => NumberMeans(s)
       case Value(Quoted(s)) => NumberMeans(s)
       case Minus(Value(Number(s))) => NegatedNumber(s)
       case Minus(Value(Quoted(s))) => NegatedNumber(s)
       case _ => SqlNull)
  }

  /** A literal compared with a column. */
  ghost function LiteralAt(e: Expr, c: Expr, schema: Schema): SqlValue {
    if TypeOf(c, schema).Some? then LiteralMeans(e, TypeOf(c, schema).value) else SqlNull
  }

  /** A value a column of this type can be compared with. */
  predicate Storable(v: SqlValue, p: Primitive) {
    && !v.SqlNull?
    && (p.IntType? ==> v.Number? && I32_MIN <= v.n <= I32_MAX)
    && (p.LongType? ==> v.Number? && I64_MIN <= v.n <= I64_MAX)
  }

  // ---------------------------------------------------------------------
  // Clauses
  // ---------------------------------------------------------------------

  /** An operand: a column, or a literal at the type of the column it is compared with. */
  ghost function SqlOperand(e: Expr, other: Expr, row: Row, schema: Schema): SqlValue {
    if Spelled(e).Some? then SqlColumn(e, row, schema) else LiteralAt(e, other, schema)
  }

  /** `x IN (a, b, ...)` is `x = a OR x = b OR ...`. */
  ghost function SqlIn(v: SqlValue, list: seq<Expr>, c: Expr, schema: Schema): Truth {
    if list == [] then False
    else TOr(SqlCompare(v, Eq, LiteralAt(list[0], c, schema)), SqlIn(v, list[1..], c, schema))
  }

  ghost function Sql(e: Expr, row: Row, schema: Schema): Truth {
    match e
    case Binary(l, op, r) =>
      if op.And? then TAnd(Sql(l, row, schema), Sql(r, row, schema))
      else if op.Or? then TOr(Sql(l, row, schema), Sql(r, row, schema))
      else SqlCompare(SqlOperand(l, r, row, schema), op, SqlOperand(r, l, row, schema))
    case InList(c, list, negated) =>
      var found := SqlIn(SqlColumn(c, row, schema), list, c, schema);
      if negated then TNot(found) else found
    case IsNull(c) => Known(SqlColumn(c, row, schema).SqlNull?)
    case IsNotNull(c) => Known(!SqlColumn(c, row, schema).SqlNull?)
    case Parens(inner) => Sql(inner, row, schema)
    case _ => Unknown
  }

  // ---------------------------------------------------------------------
  // Conditions of a clause
  // ---------------------------------------------------------------------

  /** The conditions a clause is built from with AND, OR and parentheses. */
  ghost predicate ConditionOf(e: Expr, leaf: Expr) {
    match e
    case Binary(l, op, r) => if op.And? || op.Or? then ConditionOf(l, leaf) || ConditionOf(r, leaf) else leaf == e
    case Parens(inner) => ConditionOf(inner, leaf)
    case _ => leaf == e
  }

  /** The literal can be compared with the column. */
  ghost predicate ComparableWith(e: Expr, c: Expr, schema: Schema) {
    TypeOf(c, schema).Some? && Storable(LiteralAt(e, c, schema), TypeOf(c, schema).value)
  }

  /** A column compared with literals it can hold, or a test for NULL of a column. */
  ghost predicate Supported(leaf: Expr, schema: Schema) {
    match leaf
    case Binary(l, op, r) =>
      && op in {Eq, NotEq, Lt, LtEq, Gt, GtEq}
      && (if Spelled(l).Some? then ComparableWith(r, l, schema) else Spelled(r).Some? && ComparableWith(l, r, schema))
    case InList(c, list, _) => Spelled(c).Some? && forall i :: 0 <= i < |list| ==> ComparableWith(list[i], c, schema)
    case IsNull(c) => Spelled(c).Some?
    case IsNotNull(c) => Spelled(c).Some?
    case _ => false
  }
}
