/**
 INSERT literals shredded into columnar arrays: nested lists, structs and maps become offsets, null
 bits and flat child arrays. Walking a row back through them gives the literal's own value.
 */
module LiteralColumns {
  import opened Common
  import opened DecimalText

  datatype Width = W8 | W16 | W32 | W64

  datatype Type =
    | IntType(width: Width)
    | Utf8
    | ListOf(item: Field)
    | StructOf(fields: seq<Field>)
    | MapOf(key: Field, value: Field)
    | OtherType

  datatype Field = Field(name: string, fieldType: Type, nullable: bool)

  datatype Entry = Entry(key: Literal, value: Literal)

  /** A float literal has a value, unless it is infinite or not a number, and the text it prints as. */
  datatype Literal =
    | NullLit
    | BoolLit(b: bool)
    | IntLit(i: int)
    | FloatLit(value: Option<real>, text: string)
    | StringLit(s: string)
    | DateLit(d: string)
    | ArrayLit(items: seq<Literal>)
    | MapLit(entries: seq<Entry>)
    | StructLit(members: seq<Literal>)

  /** Arrow's layouts for these types. */
  datatype Array =
    | IntArray(ints: seq<Option<int>>)
    | StringArray(strings: seq<Option<string>>)
    | ListArray(offsets: seq<nat>, valid: seq<bool>, values: Array)
    | StructArray(names: seq<string>, valid: seq<bool>, children: seq<Array>)
    | MapArray(offsets: seq<nat>, valid: seq<bool>, keys: Array, values: Array)

  datatype Pair = Pair(key: Value, value: Value)

  datatype Named = Named(name: string, value: Value)

  /** What a row holds, whatever its layout. */
  datatype Value =
    | NullValue
    | IntValue(i: int)
    | StringValue(s: string)
    | ListValue(items: seq<Value>)
    | StructValue(members: seq<Named>)
    | MapValue(pairs: seq<Pair>)

  datatype BuildError = WrongLiteral | OutOfRange | TooManyValues | UnsupportedType

  // ---------------------------------------------------------------------
  // What a literal means at a type
  // ---------------------------------------------------------------------

  function Lo(w: Width): int {
    match w case W8 => -0x80 case W16 => -0x8000 case W32 => -0x8000_0000 case W64 => -0x8000_0000_0000_0000
  }

  function Hi(w: Width): int {
    match w case W8 => 0x7F case W16 => 0x7FFF case W32 => 0x7FFF_FFFF case W64 => 0x7FFF_FFFF_FFFF_FFFF
  }

  /** The float nearest the largest 128-bit integer is 2^127; casting it gives that integer. */
  function IntegerOfFloat(value: Option<real>): Result<int, BuildError> {
    if value.None? || value.value != value.value.Floor as real then Err(WrongLiteral)
    else
      var v := value.value.Floor;
      if v < I128_MIN || v > I128_MAX + 1 then Err(OutOfRange) else Ok(if v > I128_MAX then I128_MAX else v)
  }

  function IntegerOf(l: Literal): Result<int, BuildError> {
    match l
    case IntLit(i) => Ok(i)
    case FloatLit(v, _) => IntegerOfFloat(v)
    case StringLit(s) => (match ParseI128(Trim(s)) case Some(v) => Ok(v) case None => Err(WrongLiteral))
    case _ => Err(WrongLiteral)
  }

  /** An out-of-range integer is NULL where NULL is allowed and an error where it is not. */
  function ConvertInt(w: Width, nullable: bool, l: Literal): Result<Option<int>, BuildError> {
    if l.NullLit? then Ok(None)
    else match IntegerOf(l)
      case Err(e) => Err(e)
      case Ok(v) => if Lo(w) <= v <= Hi(w) then Ok(Some(v)) else if nullable then Ok(None) else Err(OutOfRange)
  }

  function ConvertString(l: Literal): Result<Option<string>, BuildError> {
    match l
    case NullLit => Ok(None)
    case StringLit(s) => Ok(Some(s))
    case DateLit(s) => Ok(Some(s))
    case IntLit(i) => Ok(Some(PrintInt(i)))
    case FloatLit(_, text) => Ok(Some(text))
    case BoolLit(b) => Ok(Some(if b then "1" else "0"))
    case _ => Err(WrongLiteral)
  }

  /** The entries whose key is not the NULL literal. */
  function Keyed(entries: seq<Entry>): seq<Entry> {
    if entries == [] then []
    else if entries[0].key.NullLit? then Keyed(entries[1..])
    else [entries[0]] + Keyed(entries[1..])
  }

  function Convert(t: Type, nullable: bool, l: Literal): Result<Value, BuildError>
    decreases t, 2
  {
    match t
    case IntType(w) =>
      (match ConvertInt(w, nullable, l) case Err(e) => Err(e) case Ok(v) => Ok(if v.Some? then IntValue(v.value) else NullValue))
    case Utf8 =>
      (match ConvertString(l) case Err(e) => Err(e) case Ok(v) => Ok(if v.Some? then StringValue(v.value) else NullValue))
    case ListOf(item) =>
      if l.NullLit? then Ok(NullValue)
      else if l.ArrayLit? then
        match ConvertAll(item, l.items) case Err(e) => Err(e) case Ok(vs) => Ok(ListValue(vs))
      else Err(WrongLiteral)
    case StructOf(fields) =>
      if l.NullLit? then Ok(NullValue)
      else if l.StructLit? && |l.members| == |fields| then
        match ConvertMembers(t, l.members, 0) case Err(e) => Err(e) case Ok(vs) => Ok(StructValue(vs))
      else Err(WrongLiteral)
    case MapOf(key, value) =>
      if l.NullLit? then Ok(NullValue)
      else if l.MapLit? then
        match ConvertEntries(t, Keyed(l.entries)) case Err(e) => Err(e) case Ok(vs) => Ok(MapValue(vs))
      else Err(WrongLiteral)
    case OtherType => Err(UnsupportedType)
  }

  function ConvertAll(f: Field, items: seq<Literal>): Result<seq<Value>, BuildError>
    decreases f.fieldType, 3, |items|
  {
    if items == [] then Ok([])
    else match Convert(f.fieldType, f.nullable, items[0])
      case Err(e) => Err(e)
      case Ok(v) => match ConvertAll(f, items[1..]) case Err(e) => Err(e) case Ok(vs) => Ok([v] + vs)
  }

  function ConvertMembers(t: Type, members: seq<Literal>, k: nat): Result<seq<Named>, BuildError>
    requires t.StructOf? && |members| == |t.fields| && k <= |members|
    decreases t, 1, |members| - k
  {
    if k == |members| then Ok([])
    else match Convert(t.fields[k].fieldType, t.fields[k].nullable, members[k])
      case Err(e) => Err(e)
      case Ok(v) =>
        match ConvertMembers(t, members, k + 1) case Err(e) => Err(e) case Ok(vs) => Ok([Named(t.fields[k].name, v)] + vs)
  }

  function ConvertEntries(t: Type, entries: seq<Entry>): Result<seq<Pair>, BuildError>
    requires t.MapOf?
    decreases t, 1, |entries|
  {
    if entries == [] then Ok([])
    else match Convert(t.key.fieldType, t.key.nullable, entries[0].key)
      case Err(e) => Err(e)
      case Ok(k) =>
        match Convert(t.value.fieldType, t.value.nullable, entries[0].value)
        case Err(e) => Err(e)
        case Ok(v) => match ConvertEntries(t, entries[1..]) case Err(e) => Err(e) case Ok(vs) => Ok([Pair(k, v)] + vs)
  }

  // ---------------------------------------------------------------------
  // Walking an array
  // ---------------------------------------------------------------------

  /** Offsets start at 0, never go down, and end at the number of child rows. */
  predicate Offsets(offsets: seq<nat>, n: nat, m: nat) {
    && |offsets| == n + 1 && offsets[0] == 0 && offsets[n] == m
    && forall i, j :: 0 <= i <= j <= n ==> offsets[i] <= offsets[j]
  }

  predicate WellFormed(a: Array, n: nat)
    decreases a
  {
    match a
    case IntArray(ints) => |ints| == n
    case StringArray(strings) => |strings| == n
    case ListArray(offsets, valid, values) =>
      |valid| == n && |offsets| == n + 1 && Offsets(offsets, n, offsets[n]) && WellFormed(values, offsets[n])
    case StructArray(names, valid, children) =>
      |valid| == n && |names| == |children| && forall k :: 0 <= k < |children| ==> WellFormed(children[k], n)
    case MapArray(offsets, valid, keys, values) =>
      |valid| == n && |offsets| == n + 1 && Offsets(offsets, n, offsets[n])
      && WellFormed(keys, offsets[n]) && WellFormed(values, offsets[n])
  }

  function Walk(a: Array, n: nat, row: nat): Value
    requires WellFormed(a, n) && row < n
    decreases a, 2
  {
    match a
    case IntArray(ints) => if ints[row].Some? then IntValue(ints[row].value) else NullValue
    case StringArray(strings) => if strings[row].Some? then StringValue(strings[row].value) else NullValue
    case ListArray(offsets, valid, values) =>
      if !valid[row] then NullValue else ListValue(WalkRange(values, offsets[n], offsets[row], offsets[row + 1]))
    case StructArray(_, valid, _) =>
      if !valid[row] then NullValue else StructValue(WalkMembers(a, n, row, 0))
    case MapArray(offsets, valid, keys, values) =>
      if !valid[row] then NullValue else MapValue(WalkPairs(a, n, offsets[row], offsets[row + 1]))
  }

  function WalkRange(a: Array, n: nat, from: nat, to: nat): seq<Value>
    requires WellFormed(a, n) && from <= to <= n
    decreases a, 3, to - from
  {
    if from == to then [] else [Walk(a, n, from)] + WalkRange(a, n, from + 1, to)
  }

  function WalkMembers(a: Array, n: nat, row: nat, k: nat): seq<Named>
    requires a.StructArray? && WellFormed(a, n) && row < n && k <= |a.children|
    decreases a, 1, |a.children| - k
  {
    if k == |a.children| then [] else [Named(a.names[k], Walk(a.children[k], n, row))] + WalkMembers(a, n, row, k + 1)
  }

  function WalkPairs(a: Array, n: nat, from: nat, to: nat): seq<Pair>
    requires a.MapArray? && WellFormed(a, n) && from <= to <= a.offsets[n]
    decreases a, 1, to - from
  {
    if from == to then []
    else [Pair(Walk(a.keys, a.offsets[n], from), Walk(a.values, a.offsets[n], from))] + WalkPairs(a, n, from + 1, to)
  }

  /** Walking any row gives what its literal means. */
  ghost predicate Represents(a: Array, t: Type, nullable: bool, rows: seq<Literal>) {
    WellFormed(a, |rows|) && forall r :: 0 <= r < |rows| ==> Convert(t, nullable, rows[r]) == Ok(Walk(a, |rows|, r))
  }

  ghost predicate Convertible(t: Type, nullable: bool, rows: seq<Literal>) {
    forall r :: 0 <= r < |rows| ==> Convert(t, nullable, rows[r]).Ok?
  }

  predicate Supported(t: Type)
    decreases t
  {
    match t
    case ListOf(item) => Supported(item.fieldType)
    case StructOf(fields) => forall k :: 0 <= k < |fields| ==> Supported(fields[k].fieldType)
    case MapOf(key, value) => Supported(key.fieldType) && Supported(value.fieldType)
    case OtherType => false
    case _ => true
  }
}
