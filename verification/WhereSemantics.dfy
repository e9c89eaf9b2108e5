/** The row evaluator agrees with SQL's three-valued logic, and where it does not. */
module WhereSemantics {
  import opened Common
  import opened DecimalText
  import opened RowLineage
  import opened WhereFilter
  import opened SqlMeaning

  predicate Comparable(p: Primitive) {
    !p.OtherPrimitive?
  }

  ghost predicate Conforms(f: Field, row: Row) {
    f.fieldType.PrimitiveType? && Comparable(f.fieldType.primitive) ==>
      exists i: nat :: IsCell(row, f.name, i) && (row[i].cell.Null? || CellFits(f.fieldType.primitive, row[i].cell))
  }

  /** A scanned row has a column of the right type for every field DELETE can compare. */
  ghost predicate Conforming(schema: Schema, row: Row) {
    forall i :: 0 <= i < |schema| ==> Conforms(schema[i], row)
  }

  /** The column exists and has a type the evaluator can read. */
  predicate Readable(schema: Schema, name: string) {
    PrimitiveOf(schema, name).Ok? && Comparable(PrimitiveOf(schema, name).value)
  }

  predicate ReadableColumn(e: Expr, schema: Schema) {
    ColumnName(e).Ok? && Readable(schema, ColumnName(e).value)
  }

  /** IN lists are not empty, and IS NULL asks about readable columns. */
  predicate InScope(e: Expr, schema: Schema) {
    match e
    case Binary(l, op, r) => op.And? || op.Or? ==> InScope(l, schema) && InScope(r, schema)
    case InList(_, list, _) => list != []
    case IsNull(c) => ReadableColumn(c, schema)
    case IsNotNull(c) => ReadableColumn(c, schema)
    case Parens(inner) => InScope(inner, schema)
    case _ => true
  }

  // ---------------------------------------------------------------------
  // Finding columns
  // ---------------------------------------------------------------------

  lemma {:induction false} LowerAgrees(a: string, b: string)
    ensures Lower(a) == Lower(b) <==> SameName(a, b)
    decreases |a|
  {
    LowerLength(a);
    LowerLength(b);
    if a != "" && b != "" {
      LowerAgrees(a[1..], b[1..]);
      assert Lower(a)[0] == LowerChar(a[0]) && Lower(b)[0] == LowerChar(b[0]);
      assert Lower(a)[1..] == Lower(a[1..]) && Lower(b)[1..] == Lower(b[1..]);
      SameNameStep(a, b);
    }
  }

  lemma {:induction false} LowerLength(a: string)
    ensures |Lower(a)| == |a|
  {
    if a != "" {
      LowerLength(a[1..]);
    }
  }

  lemma SameNameStep(a: string, b: string)
    requires a != "" && b != ""
    ensures SameName(a, b) <==> SameLetter(a[0], b[0]) && SameName(a[1..], b[1..])
  {
    if SameLetter(a[0], b[0]) && SameName(a[1..], b[1..]) {
      forall i | 0 <= i < |a| ensures SameLetter(a[i], b[i]) {
        assert i > 0 ==> a[i] == a[1..][i - 1] && b[i] == b[1..][i - 1];
      }
    }
  }

  lemma {:induction false} LowerTwice(a: string)
    ensures Lower(Lower(a)) == Lower(a)
  {
    if a != "" {
      LowerTwice(a[1..]);
      assert Lower(a)[1..] == Lower(a[1..]);
    }
  }

  lemma NamesColumn(e: Expr)
    ensures ColumnName(e).Ok? <==> Spelled(e).Some?
    ensures Spelled(e).Some? ==> ColumnName(e) == Ok(Lower(Spelled(e).value))
  {
  }

  /** The lookup finds the first field whose name agrees, and none exactly if no name does. */
  lemma {:induction false} FindsField(schema: Schema, name: string)
    ensures match FindField(schema, Lower(name))
            case Some(f) => IsField(schema, name, f)
            case None => forall f :: 0 <= f < |schema| ==> !SameName(schema[f].name, name)
  {
    if schema != [] {
      LowerTwice(name);
      LowerAgrees(schema[0].name, name);
      FindsField(schema[1..], name);
      assert forall f :: 0 < f < |schema| ==> schema[f] == schema[1..][f - 1];
    }
  }

  lemma {:induction false} FindsCell(row: Row, name: string)
    ensures match FindColumn(row, name)
            case Some(i) => IsCell(row, name, i)
            case None => forall i :: 0 <= i < |row| ==> row[i].name != name
  {
    if row != [] {
      FindsCell(row[1..], name);
      assert forall i :: 0 < i < |row| ==> row[i] == row[1..][i - 1];
    }
  }

  lemma FieldUnique(schema: Schema, name: string, f: nat, g: nat)
    requires IsField(schema, name, f) && IsField(schema, name, g)
    ensures f == g
  {
  }

  /** The column's type as the code looks it up. */
  lemma FindsType(c: Expr, schema: Schema)
    requires Spelled(c).Some?
    ensures TypeOf(c, schema) == match PrimitiveOf(schema, ColumnName(c).value) case Ok(p) => Some(p) case Err(_) => None
  {
    var name := Spelled(c).value;
    FindsField(schema, name);
    if FindField(schema, Lower(name)).Some? {
      var f := FindField(schema, Lower(name)).value;
      forall g: nat | IsField(schema, name, g) ensures g == f {
        FieldUnique(schema, name, f, g);
      }
      if PrimitiveOf(schema, Lower(name)).Ok? {
        assert IsPrimitive(c, schema, f);
      }
    }
  }

  /** The column's value where the code finds it. */
  lemma FindsValue(c: Expr, row: Row, schema: Schema)
    requires Spelled(c).Some?
    ensures SqlColumn(c, row, schema) ==
            match FindField(schema, ColumnName(c).value)
            case None => SqlNull
            case Some(f) => (match FindColumn(row, schema[f].name) case None => SqlNull case Some(i) => CellMeans(row[i].cell))
  {
    var name := Spelled(c).value;
    FindsField(schema, name);
    if FindField(schema, Lower(name)).Some? {
      var f := FindField(schema, Lower(name)).value;
      FindsCell(row, schema[f].name);
      forall g: nat, j: nat | Locates(c, row, schema, g, j) ensures g == f && Some(j) == FindColumn(row, schema[f].name) {
        FieldUnique(schema, name, f, g);
      }
      if FindColumn(row, schema[f].name).Some? {
        assert Locates(c, row, schema, f, FindColumn(row, schema[f].name).value);
      }
    }
  }

  /** A readable column of a conforming row reads as its SQL value. */
  lemma ReadsColumn(c: Expr, row: Row, schema: Schema)
    requires ReadableColumn(c, schema) && Conforming(schema, row)
    ensures ColumnValue(ColumnName(c).value, row, schema).Ok?
    ensures match ColumnValue(ColumnName(c).value, row, schema).value
            case None => SqlColumn(c, row, schema) == SqlNull
            case Some(cell) => CellFits(PrimitiveOf(schema, ColumnName(c).value).value, cell) && SqlColumn(c, row, schema) == CellMeans(cell)
  {
    NamesColumn(c);
    var f := FindField(schema, ColumnName(c).value).value;
    assert Conforms(schema[f], row);
    FindsCell(row, schema[f].name);
    FindsValue(c, row, schema);
  }

  lemma StringBeforeCons(c: char, a: string, b: string)
    ensures StringBefore([c] + a, [c] + b) <==> StringBefore(a, b)
  {
    var a', b' := [c] + a, [c] + b;
    if k :| 0 <= k <= |a| && k < |b| && a[..k] == b[..k] && (k < |a| ==> a[k] < b[k]) {
      assert a'[..k + 1] == [c] + a[..k] && b'[..k + 1] == [c] + b[..k];
      assert k + 1 < |a'| ==> a'[k + 1] == a[k];
      assert b'[k + 1] == b[k];
    }
    if k :| 0 <= k <= |a'| && k < |b'| && a'[..k] == b'[..k] && (k < |a'| ==> a'[k] < b'[k]) {
      assert a'[0] == c && b'[0] == c;
      assert k > 0;
      assert a[..k - 1] == a'[..k][1..] && b[..k - 1] == b'[..k][1..];
    }
  }

  lemma StringBeforeHeads(a: string, b: string)
    requires a != "" && b != "" && a[0] != b[0]
    ensures StringBefore(a, b) <==> a[0] < b[0]
  {
    if a[0] < b[0] {
      assert a[..0] == b[..0];
    }
    forall k | 0 < k <= |a| && k < |b| ensures a[..k] != b[..k] {
      assert a[..k][0] != b[..k][0];
    }
  }

  /** The ordering of strings is code point order. */
  lemma {:induction false} ComparesStrings(a: string, b: string)
    ensures CompareStrings(a, b) == Less <==> StringBefore(a, b)
    ensures CompareStrings(a, b) == Equal <==> a == b
    ensures CompareStrings(a, b) == Greater <==> StringBefore(b, a)
  {
    if a == "" {
      assert b != "" ==> a[..0] == b[..0];
    } else if b == "" {
      assert a[..0] == b[..0];
    } else if a[0] == b[0] {
      ComparesStrings(a[1..], b[1..]);
      assert a == [a[0]] + a[1..] && b == [a[0]] + b[1..];
      StringBeforeCons(a[0], a[1..], b[1..]);
      StringBeforeCons(a[0], b[1..], a[1..]);
    } else {
      StringBeforeHeads(a, b);
      StringBeforeHeads(b, a);
    }
  }

  function DatumMeans(d: Datum): SqlValue {
    match d
    case IntDatum(i) => SqlValue.Number(i)
    case LongDatum(l) => SqlValue.Number(l)
    case StringDatum(s) => String(s)
    case BoolDatum(b) => Boolean(b)
  }

  lemma ComparesCells(p: Primitive, c: Cell, d: Datum)
    requires CellFits(p, c) && DatumFits(p, d)
    ensures var r, x, y := CompareCell(c, d), CellMeans(c), DatumMeans(d);
            && r.Ok? && !x.SqlNull? && !y.SqlNull?
            && (r.value == Less <==> Before(x, y)) && (r.value == Equal <==> x == y) && (r.value == Greater <==> Before(y, x))
  {
    if c.Text? {
      ComparesStrings(c.s, d.s);
    }
  }

  predicate DatumFits(p: Primitive, d: Datum) {
    match p
    case IntType => d.IntDatum?
    case LongType => d.LongDatum?
    case StringType => d.StringDatum?
    case BooleanType => d.BoolDatum?
    case OtherPrimitive => false
  }

  // ---------------------------------------------------------------------
  // Reading literals
  // ---------------------------------------------------------------------

  lemma {:induction false} DigitsArePlaces(s: string)
    requires AllDigits(s)
    ensures DigitsValue(s) == PlaceValue(s)
  {
    if s != "" {
      DigitsArePlaces(s[1..]);
      FirstDigit(s);
    }
  }

  /** The integer parser accepts exactly the numerals in range, with the value they spell. */
  lemma ParsesNumber(s: string, lo: int, hi: int)
    requires I128_MIN <= lo && hi <= I128_MAX
    ensures ParseWithin(s, lo, hi) ==
            var v := NumberMeans(s); if v.Number? && lo <= v.n <= hi then Some(v.n) else None
  {
    if s != "" {
      if AllDigits(s) {
        DigitsArePlaces(s);
        assert IsDigit(s[0]);
      }
      if AllDigits(s[1..]) {
        DigitsArePlaces(s[1..]);
      }
    }
  }

  lemma NegatedText(s: string)
    ensures NumberMeans("-" + s) == NegatedNumber(s)
  {
    assert ("-" + s)[0] == '-' && ("-" + s)[1..] == s;
  }

  lemma WordIsNoNumber(s: string)
    requires s == "true" || s == "false" || s == "-true" || s == "-false"
    ensures NumberMeans(s) == SqlNull
  {
    assert s[1] == 't' || s[1] == 'r' || s[1] == 'f' || s[1] == 'a';
    assert !IsNumeral(s) && !IsNumeral(s[1..]) by {
      assert !('0' <= s[1] <= '9');
      assert s[1..][0] == s[1];
    }
  }

  /** A text at an integer type. */
  lemma ReadsNumber(e: Expr, p: Primitive)
    requires (p == IntType || p == LongType) && SignedText(e).Ok?
    ensures NumberMeans(SignedText(e).value) == LiteralMeans(e, p)
  {
    match e
    case Value(BooleanLit(_)) => WordIsNoNumber(SignedText(e).value);
    case Minus(Value(BooleanLit(b))) =>
      assert SignedText(e).value == "-" + (if b then "true" else "false") == if b then "-true" else "-false";
      WordIsNoNumber(SignedText(e).value);
    case Minus(Value(Number(s))) => NegatedText(s);
    case Minus(Value(Quoted(s))) => NegatedText(s);
    case _ =>
  }

  /** A text at a boolean type: a negated one is neither truth value. */
  lemma ReadsTruth(e: Expr)
    requires SignedText(e).Ok?
    ensures LiteralMeans(e, BooleanType) == TruthText(SignedText(e).value)
  {
    match e
    case Minus(Value(l)) => assert SignedText(e).value[0] == '-';
    case _ =>
  }

  lemma NoText(e: Expr, p: Primitive)
    requires SignedText(e).Err?
    ensures LiteralMeans(e, p) == SqlNull
  {
  }

  /** A literal is accepted at a type exactly if what it means can be stored there, and then gives that value. */
  lemma ReadsLiteral(e: Expr, p: Primitive)
    ensures var d := if SignedText(e).Ok? then TextToDatum(p, SignedText(e).value) else Err(NotALiteral);
            && (d.Ok? <==> Storable(LiteralMeans(e, p), p))
            && (d.Ok? ==> DatumFits(p, d.value) && DatumMeans(d.value) == LiteralMeans(e, p))
  {
    if SignedText(e).Ok? {
      var s := SignedText(e).value;
      if p == IntType {
        ReadsNumber(e, p);
        ParsesNumber(s, I32_MIN, I32_MAX);
      } else if p == LongType {
        ReadsNumber(e, p);
        ParsesNumber(s, I64_MIN, I64_MAX);
      } else if p == BooleanType {
        ReadsTruth(e);
      } else if p == StringType && e.Value? {
        assert "" + s == s;
      }
    } else {
      NoText(e, p);
    }
  }

  /** A literal is accepted for a column exactly if the column can hold what it means. */
  lemma AcceptedExactly(e: Expr, c: Expr, schema: Schema)
    requires Spelled(c).Some?
    ensures var d := LiteralToDatum(e, schema, ColumnName(c).value);
            && (d.Ok? <==> ComparableWith(e, c, schema))
            && (d.Ok? ==> ReadableColumn(c, schema) && DatumFits(PrimitiveOf(schema, ColumnName(c).value).value, d.value)
                          && DatumMeans(d.value) == LiteralAt(e, c, schema))
  {
    FindsType(c, schema);
    if TypeOf(c, schema).Some? {
      ReadsLiteral(e, TypeOf(c, schema).value);
    }
  }

  /** A literal that was accepted for a column makes the column readable and means something there. */
  lemma AcceptedLiteral(e: Expr, c: Expr, schema: Schema)
    requires ColumnName(c).Ok? && LiteralToDatum(e, schema, ColumnName(c).value).Ok?
    ensures ReadableColumn(c, schema) && Spelled(e).None?
    ensures var d := LiteralToDatum(e, schema, ColumnName(c).value).value;
            DatumFits(PrimitiveOf(schema, ColumnName(c).value).value, d) && DatumMeans(d) == LiteralAt(e, c, schema)
  {
    NamesColumn(c);
    AcceptedExactly(e, c, schema);
    assert SignedText(e).Ok?;
  }

  lemma HoldsIsSql(op: Operator, flipped: bool, cmp: Ordering, x: SqlValue, y: SqlValue)
    requires IsComparison(op) && !x.SqlNull? && !y.SqlNull?
    requires (cmp == Less <==> Before(x, y)) && (cmp == Equal <==> x == y) && (cmp == Greater <==> Before(y, x))
    ensures Holds(op, flipped, cmp) <==> SqlCompare(if flipped then y else x, op, if flipped then x else y) == True
  {
  }

  /** A comparison is true for the evaluator exactly when it is TRUE in SQL, whichever side the column is on. */
  lemma ComparisonIsSql(l: Expr, op: Operator, r: Expr, row: Row, schema: Schema)
    requires IsComparison(op) && AcceptsComparison(l, r, schema) && Conforming(schema, row)
    ensures EvaluateComparison(l, op, r, row, schema)
         == Ok(SqlCompare(SqlOperand(l, r, row, schema), op, SqlOperand(r, l, row, schema)) == True)
  {
    NamesColumn(l);
    NamesColumn(r);
    if Spelled(l).Some? {
      ColumnAgainstLiteral(l, r, op, false, row, schema);
    } else {
      ColumnAgainstLiteral(r, l, op, true, row, schema);
    }
  }

  lemma ColumnAgainstLiteral(c: Expr, e: Expr, op: Operator, flipped: bool, row: Row, schema: Schema)
    requires IsComparison(op) && ColumnName(c).Ok? && LiteralToDatum(e, schema, ColumnName(c).value).Ok? && Conforming(schema, row)
    ensures Spelled(e).None? && Spelled(c).Some?
    ensures var cell, datum := ColumnValue(ColumnName(c).value, row, schema), LiteralToDatum(e, schema, ColumnName(c).value).value;
            && cell.Ok? && (cell.value.Some? ==> CompareCell(cell.value.value, datum).Ok?)
            && var x, y := SqlColumn(c, row, schema), LiteralAt(e, c, schema);
               (cell.value.Some? && Holds(op, flipped, CompareCell(cell.value.value, datum).value)) <==>
               SqlCompare(if flipped then y else x, op, if flipped then x else y) == True
  {
    NamesColumn(c);
    AcceptedLiteral(e, c, schema);
    ReadsColumn(c, row, schema);
    var cell, datum := ColumnValue(ColumnName(c).value, row, schema).value, LiteralToDatum(e, schema, ColumnName(c).value).value;
    if cell.Some? {
      ComparesCells(PrimitiveOf(schema, ColumnName(c).value).value, cell.value, datum);
      HoldsIsSql(op, flipped, CompareCell(cell.value, datum).value, CellMeans(cell.value), DatumMeans(datum));
    }
  }

  lemma {:induction false} InListFinds(cell: Cell, list: seq<Expr>, c: Expr, schema: Schema)
    requires ReadableColumn(c, schema) && CellFits(PrimitiveOf(schema, ColumnName(c).value).value, cell)
    requires forall i :: 0 <= i < |list| ==> LiteralToDatum(list[i], schema, ColumnName(c).value).Ok?
    ensures AnyEqual(cell, list, schema, ColumnName(c).value).Ok?
    ensures SqlIn(CellMeans(cell), list, c, schema) == Known(AnyEqual(cell, list, schema, ColumnName(c).value).value)
  {
    if list != [] {
      AcceptedLiteral(list[0], c, schema);
      ComparesCells(PrimitiveOf(schema, ColumnName(c).value).value, cell, LiteralToDatum(list[0], schema, ColumnName(c).value).value);
      InListFinds(cell, list[1..], c, schema);
    }
  }

  lemma {:induction false} InListOfNull(list: seq<Expr>, c: Expr, schema: Schema)
    ensures SqlIn(SqlNull, list, c, schema) == if list == [] then False else Unknown
  {
    if list != [] {
      InListOfNull(list[1..], c, schema);
    }
  }

  /** On a readable column, IN and NOT IN agree with SQL except for NOT IN an empty list on NULL. */
  lemma InListOfReadable(c: Expr, list: seq<Expr>, negated: bool, row: Row, schema: Schema)
    requires Accepts(InList(c, list, negated), schema) && ReadableColumn(c, schema) && Conforming(schema, row)
    ensures EvaluateInList(c, list, negated, row, schema).Ok?
    ensures EvaluateInList(c, list, negated, row, schema).value == (Sql(InList(c, list, negated), row, schema) == True) <==>
            !(list == [] && negated && SqlColumn(c, row, schema).SqlNull?)
  {
    ReadsColumn(c, row, schema);
    var cell := ColumnValue(ColumnName(c).value, row, schema).value;
    if cell.Some? {
      InListFinds(cell.value, list, c, schema);
    } else {
      InListOfNull(list, c, schema);
    }
  }

  /** Never fails, and true exactly for SQL's TRUE. */
  lemma {:induction false} EvaluatorIsSql(e: Expr, row: Row, schema: Schema)
    requires Accepts(e, schema) && InScope(e, schema) && Conforming(schema, row)
    ensures Evaluate(e, row, schema) == Ok(Sql(e, row, schema) == True)
  {
    match e
    case Binary(l, op, r) =>
      if op.And? || op.Or? {
        EvaluatorIsSql(l, row, schema);
        EvaluatorIsSql(r, row, schema);
      } else {
        ComparisonIsSql(l, op, r, row, schema);
      }
    case InList(c, list, negated) =>
      AcceptedLiteral(list[0], c, schema);
      InListOfReadable(c, list, negated, row, schema);
    case IsNull(c) => ReadsColumn(c, row, schema);
    case IsNotNull(c) => ReadsColumn(c, row, schema);
    case Parens(inner) => EvaluatorIsSql(inner, row, schema);
  }

  /** A scanned row has a column for every field, whatever its type. */
  ghost predicate Complete(schema: Schema, row: Row) {
    forall i :: 0 <= i < |schema| ==> HasColumn(row, schema[i].name)
  }

  ghost predicate HasColumn(row: Row, name: string) {
    exists i :: 0 <= i < |row| && row[i].name == name
  }

  /** The evaluator can read the column in this row: it is primitive, and of a readable type or null. */
  ghost predicate ReadsHere(c: Expr, schema: Schema, row: Row)
    requires ColumnName(c).Ok?
  {
    TypeOf(c, schema).Some? && (TypeOf(c, schema).value != OtherPrimitive || SqlColumn(c, row, schema).SqlNull?)
  }

  /**
   An accepted IN or NOT IN evaluates exactly when its column can be read in this row, and then
   agrees with SQL except for NOT IN an empty list on NULL, which SQL calls TRUE.
   */
  lemma InListExactly(c: Expr, list: seq<Expr>, negated: bool, row: Row, schema: Schema)
    requires Accepts(InList(c, list, negated), schema) && Conforming(schema, row) && Complete(schema, row)
    ensures var r := Evaluate(InList(c, list, negated), row, schema);
            && (r.Ok? <==> ReadsHere(c, schema, row))
            && (r.Ok? ==> (r.value == (Sql(InList(c, list, negated), row, schema) == True) <==>
                           !(list == [] && negated && SqlColumn(c, row, schema).SqlNull?)))
  {
    ReadsOrFails(c, schema, row);
    if list != [] {
      AcceptedLiteral(list[0], c, schema);
    }
    if list == [] && !ReadableColumn(c, schema) {
      assert SqlIn(SqlColumn(c, row, schema), list, c, schema) == False;
    }
    if ReadableColumn(c, schema) {
      InListOfReadable(c, list, negated, row, schema);
    }
  }

  /** An accepted IS NULL or IS NOT NULL evaluates, and then correctly, exactly when its column can be read in this row. */
  lemma IsNullExactly(c: Expr, schema: Schema, row: Row)
    requires Accepts(IsNull(c), schema) && Conforming(schema, row) && Complete(schema, row)
    ensures Accepts(IsNotNull(c), schema)
    ensures if ReadsHere(c, schema, row)
            then Evaluate(IsNull(c), row, schema) == Ok(Sql(IsNull(c), row, schema) == True)
              && Evaluate(IsNotNull(c), row, schema) == Ok(Sql(IsNotNull(c), row, schema) == True)
            else Evaluate(IsNull(c), row, schema).Err? && Evaluate(IsNotNull(c), row, schema).Err?
  {
    ReadsOrFails(c, schema, row);
    if ReadableColumn(c, schema) {
      ReadsColumn(c, row, schema);
    }
  }

  /** The lookup of a column succeeds exactly where it can be read, and without a readable type only as NULL. */
  lemma ReadsOrFails(c: Expr, schema: Schema, row: Row)
    requires ColumnName(c).Ok? && Conforming(schema, row) && Complete(schema, row)
    ensures ColumnValue(ColumnName(c).value, row, schema).Ok? <==> ReadsHere(c, schema, row)
    ensures !ReadableColumn(c, schema) && ReadsHere(c, schema, row) ==>
              ColumnValue(ColumnName(c).value, row, schema) == Ok(None) && SqlColumn(c, row, schema) == SqlNull
    ensures ReadableColumn(c, schema) ==> ReadsHere(c, schema, row)
  {
    NamesColumn(c);
    FindsType(c, schema);
    FindsValue(c, row, schema);
    if ReadableColumn(c, schema) {
      ReadsColumn(c, row, schema);
    }
    var f := FindField(schema, ColumnName(c).value);
    if f.Some? {
      assert HasColumn(row, schema[f.value].name);
      FindsCell(row, schema[f.value].name);
    }
  }

  /** A clause is accepted exactly if each of its conditions compares a column with values it can hold or tests one for NULL. */
  lemma {:induction false} AcceptsExactly(e: Expr, schema: Schema)
    ensures Accepts(e, schema) <==> forall leaf :: ConditionOf(e, leaf) ==> Supported(leaf, schema)
  {
    match e
    case Binary(l, op, r) =>
      if op.And? || op.Or? {
        AcceptsExactly(l, schema);
        AcceptsExactly(r, schema);
        BothConditions(e, schema);
      } else {
        NamesColumn(l);
        NamesColumn(r);
        if Spelled(l).Some? {
          AcceptedExactly(r, l, schema);
        } else if Spelled(r).Some? {
          AcceptedExactly(l, r, schema);
        }
        OneCondition(e, schema);
      }
    case InList(c, list, _) =>
      NamesColumn(c);
      if Spelled(c).Some? {
        forall i | 0 <= i < |list| ensures LiteralToDatum(list[i], schema, ColumnName(c).value).Ok? <==> ComparableWith(list[i], c, schema) {
          AcceptedExactly(list[i], c, schema);
        }
      }
      OneCondition(e, schema);
    case IsNull(c) =>
      NamesColumn(c);
      OneCondition(e, schema);
    case IsNotNull(c) =>
      NamesColumn(c);
      OneCondition(e, schema);
    case Parens(inner) =>
      AcceptsExactly(inner, schema);
      assert forall leaf :: ConditionOf(e, leaf) <==> ConditionOf(inner, leaf);
    case _ => OneCondition(e, schema);
  }

  lemma OneCondition(e: Expr, schema: Schema)
    requires !e.Parens? && !(e.Binary? && (e.op.And? || e.op.Or?))
    ensures (forall leaf :: ConditionOf(e, leaf) ==> Supported(leaf, schema)) <==> Supported(e, schema)
  {
    assert ConditionOf(e, e);
  }

  lemma BothConditions(e: Expr, schema: Schema)
    requires e.Binary? && (e.op.And? || e.op.Or?)
    ensures (forall leaf :: ConditionOf(e, leaf) ==> Supported(leaf, schema)) <==>
            (forall leaf :: ConditionOf(e.left, leaf) ==> Supported(leaf, schema)) && forall leaf :: ConditionOf(e.right, leaf) ==> Supported(leaf, schema)
  {
    forall leaf ensures ConditionOf(e, leaf) <==> ConditionOf(e.left, leaf) || ConditionOf(e.right, leaf) {
    }
  }

  // ---------------------------------------------------------------------
  // Literals
  // ---------------------------------------------------------------------

  /** How an integer is written in a WHERE clause. */
  function IntLiteral(v: int): Expr {
    if v < 0 then Minus(Value(Literal.Number(PrintNat(-v)))) else Value(Literal.Number(PrintNat(v)))
  }

  /** Every integer that fits the column is read back as itself, and no other integer is accepted. */
  lemma IntLiteralRoundTrip(v: int, schema: Schema, name: string)
    requires InI128(v) && PrimitiveOf(schema, name).Ok?
    ensures PrimitiveOf(schema, name).value == IntType ==>
              LiteralToDatum(IntLiteral(v), schema, name) == if I32_MIN <= v <= I32_MAX then Ok(IntDatum(v)) else Err(BadLiteral)
    ensures PrimitiveOf(schema, name).value == LongType ==>
              LiteralToDatum(IntLiteral(v), schema, name) == if I64_MIN <= v <= I64_MAX then Ok(LongDatum(v)) else Err(BadLiteral)
  {
    IntLiteralText(v);
  }

  /** An integer literal's text is the integer as printed, which parses back. */
  lemma IntLiteralText(v: int)
    requires InI128(v)
    ensures SignedText(IntLiteral(v)) == Ok(PrintInt(v)) && ParseI128(PrintInt(v)) == Some(v)
  {
    ParsePrintedInt(v);
  }

  // ---------------------------------------------------------------------
  // Counterexamples
  // ---------------------------------------------------------------------

  /** Without the empty-list condition: NULL NOT IN () is TRUE in SQL, and the evaluator says no. */
  lemma EmptyNotInDisagrees()
    ensures var schema, row := [Field("a", PrimitiveType(IntType))], [Column("a", Null)];
            var e := InList(Identifier("a"), [], true);
            Accepts(e, schema) && Conforming(schema, row) && Evaluate(e, row, schema) == Ok(false) && Sql(e, row, schema) == True
  {
    var schema, row := [Field("a", PrimitiveType(IntType))], [Column("a", Null)];
    var c := Identifier("a");
    assert Lower("a") == "a";
    assert FindField(schema, "a") == Some(0) && FindColumn(row, "a") == Some(0);
    FindsValue(c, row, schema);
    assert IsCell(row, "a", 0);
  }

  /** Without the readable-column condition: IS NULL on a missing column is accepted and then fails. */
  lemma IsNullOfMissingFails(row: Row)
    ensures Accepts(IsNull(Identifier("a")), []) && Evaluate(IsNull(Identifier("a")), row, []) == Err(UnknownColumn)
  {
  }

  /** The same goes for IN an empty list: it is accepted for a missing column and then fails. */
  lemma EmptyInOfMissingFails(row: Row, negated: bool)
    ensures var e := InList(Identifier("a"), [], negated);
            Accepts(e, []) && Evaluate(e, row, []) == Err(UnknownColumn)
  {
  }
}
