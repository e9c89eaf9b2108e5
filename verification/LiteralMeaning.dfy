/** What converting a literal to a column's type keeps and what it changes. */
module LiteralMeaning {
  import opened Common
  import opened DecimalText
  import opened LiteralColumns
  import SqlMeaning
  import WhereSemantics

  // ---------------------------------------------------------------------
  // The integer a literal means
  // ---------------------------------------------------------------------

  ghost predicate AllSpace(s: string) {
    forall i :: 0 <= i < |s| ==> IsSpace(s[i])
  }

  ghost predicate SpelledBetween(s: string, i: nat, j: nat, v: int) {
    Around(s, i, j) && SqlMeaning.NumberMeans(s[i..j]) == SqlMeaning.SqlValue.Number(v)
  }

  /** The text is a numeral, with or without a sign, and white space around it does not matter. */
  ghost predicate TextSpells(s: string, v: int) {
    exists i: nat, j: nat :: SpelledBetween(s, i, j, v)
  }

  /** The float nearest the largest 128-bit integer lies one above it and means it. */
  ghost predicate MeansInteger(l: Literal, v: int) {
    match l
    case IntLit(i) => v == i
    case FloatLit(Some(x), _) => InI128(v) && (x == v as real || (v == I128_MAX && x == (I128_MAX + 1) as real))
    case StringLit(s) => InI128(v) && TextSpells(s, v)
    case _ => false
  }

  /** White space between `0` and `i` and from `j` on. */
  ghost predicate Around(s: string, i: nat, j: nat) {
    i <= j <= |s| && AllSpace(s[..i]) && AllSpace(s[j..])
  }

  lemma PeelFront(s: string, i: nat, j: nat)
    requires Around(s, i, j) && i > 0
    ensures IsSpace(s[0]) && Around(s[1..], i - 1, j - 1) && s[1..][i - 1..j - 1] == s[i..j]
  {
    assert s[0] == s[..i][0];
    assert s[1..][..i - 1] == s[..i][1..];
    assert s[1..][j - 1..] == s[j..];
  }

  lemma PeelBack(s: string, i: nat, j: nat)
    requires Around(s, i, j) && j < |s|
    ensures var t := s[..|s| - 1]; IsSpace(s[|s| - 1]) && Around(t, i, j) && t[i..j] == s[i..j]
  {
    var t := s[..|s| - 1];
    assert s[|s| - 1] == s[j..][|s| - 1 - j];
    assert t[j..] == s[j..][..|s| - 1 - j];
    assert t[..i] == s[..i];
  }

  lemma {:induction false} TrimsBetween(s: string, i: nat, j: nat)
    requires Around(s, i, j) && i < j && !IsSpace(s[i]) && !IsSpace(s[j - 1])
    ensures Trim(s) == s[i..j]
    decreases |s|
  {
    if i > 0 {
      PeelFront(s, i, j);
      TrimsBetween(s[1..], i - 1, j - 1);
    } else if j < |s| {
      PeelBack(s, i, j);
      TrimsBetween(s[..|s| - 1], i, j);
    } else {
      assert s[0..|s|] == s;
    }
  }

  lemma SpaceBefore(s: string, i: nat, j: nat)
    requires s != "" && IsSpace(s[0]) && Around(s[1..], i, j)
    ensures Around(s, i + 1, j + 1) && s[i + 1..j + 1] == s[1..][i..j]
  {
    assert s[..i + 1] == [s[0]] + s[1..][..i] && s[j + 1..] == s[1..][j..];
  }

  lemma SpaceAfter(s: string, i: nat, j: nat)
    requires s != "" && IsSpace(s[|s| - 1]) && Around(s[..|s| - 1], i, j)
    ensures Around(s, i, j) && s[i..j] == s[..|s| - 1][i..j]
  {
    var t := s[..|s| - 1];
    assert s[..i] == t[..i] && s[j..] == t[j..] + [s[|s| - 1]];
  }

  lemma {:induction false} TrimmedPart(s: string) returns (i: nat, j: nat)
    ensures Around(s, i, j) && Trim(s) == s[i..j]
    decreases |s|
  {
    if s == "" {
      i, j := 0, 0;
    } else if IsSpace(s[0]) {
      i, j := TrimmedPart(s[1..]);
      SpaceBefore(s, i, j);
      i, j := i + 1, j + 1;
    } else if IsSpace(s[|s| - 1]) {
      i, j := TrimmedPart(s[..|s| - 1]);
      SpaceAfter(s, i, j);
    } else {
      i, j := 0, |s|;
      assert s[0..|s|] == s;
    }
  }

  lemma NumeralEnds(s: string, v: int)
    requires SqlMeaning.NumberMeans(s) == SqlMeaning.SqlValue.Number(v)
    ensures s != "" && !IsSpace(s[0]) && !IsSpace(s[|s| - 1])
  {
    assert s[|s| - 1] == '0' || '0' <= s[|s| - 1] <= '9' by {
      if !SqlMeaning.IsNumeral(s) {
        assert s[1..][|s| - 2] == s[|s| - 1];
      }
    }
  }

  lemma ParsesNumeral(s: string, v: int)
    ensures ParseI128(s) == Some(v) <==> SqlMeaning.NumberMeans(s) == SqlMeaning.SqlValue.Number(v) && InI128(v)
  {
    WhereSemantics.ParsesNumber(s, I128_MIN, I128_MAX);
  }

  lemma TrimsToNumeral(s: string, i: nat, j: nat, v: int)
    requires SpelledBetween(s, i, j, v)
    ensures Trim(s) == s[i..j]
  {
    NumeralEnds(s[i..j], v);
    assert s[i..j][0] == s[i] && s[i..j][j - i - 1] == s[j - 1];
    TrimsBetween(s, i, j);
  }

  lemma ReadsText(s: string, v: int)
    ensures ParseI128(Trim(s)) == Some(v) <==> TextSpells(s, v) && InI128(v)
  {
    ParsesNumeral(Trim(s), v);
    if i: nat, j: nat :| SpelledBetween(s, i, j, v) {
      TrimsToNumeral(s, i, j, v);
    } else if ParseI128(Trim(s)) == Some(v) {
      var i, j := TrimmedPart(s);
      assert SpelledBetween(s, i, j, v);
    }
  }

  /** The builder takes a literal for an integer exactly if it means one. */
  lemma IntegerExactly(l: Literal, v: int)
    ensures IntegerOf(l) == Ok(v) <==> MeansInteger(l, v)
  {
    match l
    case StringLit(s) => ReadsText(s, v);
    case FloatLit(Some(x), _) => assert (v as real).Floor == v && ((I128_MAX + 1) as real).Floor == I128_MAX + 1;
    case _ =>
  }

  /** A row of an integer column holds `v` exactly if its literal means `v` and `v` fits the column. */
  lemma IntColumnExactly(w: Width, nullable: bool, l: Literal, v: int)
    ensures Convert(IntType(w), nullable, l) == Ok(IntValue(v)) <==> MeansInteger(l, v) && Lo(w) <= v <= Hi(w)
  {
    IntegerExactly(l, v);
  }

  lemma PrintsNumeral(i: int)
    ensures SqlMeaning.NumberMeans(PrintInt(i)) == SqlMeaning.SqlValue.Number(i)
  {
    var digits := PrintNat(if i < 0 then 0 - i else i);
    WhereSemantics.DigitsArePlaces(digits);
    assert IsDigit(digits[0]);
    if i < 0 {
      assert ("-" + digits)[1..] == digits;
    }
  }

  lemma PrintsItself(i: int)
    ensures TextSpells(PrintInt(i), i)
  {
    var s := PrintInt(i);
    PrintsNumeral(i);
    assert s[0..|s|] == s;
    assert SpelledBetween(s, 0, |s|, i);
  }

  /** A text column keeps strings and dates, writes integers out and truth values as 1 and 0, and takes nothing nested. */
  lemma TextColumn(nullable: bool, l: Literal)
    ensures var r := Convert(Utf8, nullable, l);
            match l
            case NullLit => r == Ok(NullValue)
            case StringLit(s) => r == Ok(StringValue(s))
            case DateLit(s) => r == Ok(StringValue(s))
            case FloatLit(_, text) => r == Ok(StringValue(text))
            case IntLit(i) => r.Ok? && r.value.StringValue? && TextSpells(r.value.s, i)
            case BoolLit(b) => r.Ok? && r.value.StringValue? && TextSpells(r.value.s, if b then 1 else 0)
            case _ => r.Err?
  {
    match l
    case IntLit(i) => PrintsItself(i);
    case BoolLit(b) =>
      PrintsItself(if b then 1 else 0);
      OneDigitTexts();
    case _ =>
  }

  lemma OneDigitTexts()
    ensures PrintInt(0) == "0" && PrintInt(1) == "1"
  {
  }

  // ---------------------------------------------------------------------
  // Where NULL comes from
  // ---------------------------------------------------------------------

  /** A literal that means an integer its column cannot hold. */
  ghost predicate OutOfColumn(w: Width, l: Literal) {
    exists v :: MeansInteger(l, v) && !(Lo(w) <= v <= Hi(w))
  }

  lemma OutOfColumnExactly(w: Width, l: Literal)
    ensures OutOfColumn(w, l) <==> IntegerOf(l).Ok? && !(Lo(w) <= IntegerOf(l).value <= Hi(w))
  {
    if IntegerOf(l).Ok? {
      IntegerExactly(l, IntegerOf(l).value);
    }
    if v :| MeansInteger(l, v) && !(Lo(w) <= v <= Hi(w)) {
      IntegerExactly(l, v);
    }
  }

  /** A literal becomes NULL exactly if it is NULL, or an out-of-range integer where NULL is allowed. */
  lemma NullExactly(t: Type, nullable: bool, l: Literal)
    requires !t.OtherType?
    ensures Convert(t, nullable, l) == Ok(NullValue) <==> l.NullLit? || (t.IntType? && nullable && OutOfColumn(t.width, l))
  {
    if t.IntType? {
      OutOfColumnExactly(t.width, l);
    }
  }

  /** A float that is an integer is inserted as that integer. */
  lemma FloatIsItsInteger(w: Width, nullable: bool, i: int, text: string)
    requires InI128(i)
    ensures Convert(IntType(w), nullable, FloatLit(Some(i as real), text)) == Convert(IntType(w), nullable, IntLit(i))
  {
    assert (i as real).Floor == i;
  }

  ghost predicate HasNullKey(v: Value) {
    v.MapValue? && exists i :: 0 <= i < |v.pairs| && v.pairs[i].key == NullValue
  }

  lemma {:induction false} EntryKeys(t: Type, entries: seq<Entry>, i: nat)
    requires t.MapOf? && ConvertEntries(t, entries).Ok?
    ensures |ConvertEntries(t, entries).value| == |entries|
    ensures i < |entries| ==> Ok(ConvertEntries(t, entries).value[i].key) == Convert(t.key.fieldType, t.key.nullable, entries[i].key)
  {
    if entries != [] {
      EntryKeys(t, entries[1..], if i > 0 then i - 1 else 0);
    }
  }

  lemma {:induction false} KeyedHasNoNull(entries: seq<Entry>, i: nat)
    requires i < |Keyed(entries)|
    ensures !Keyed(entries)[i].key.NullLit?
  {
    if entries[0].key.NullLit? {
      KeyedHasNoNull(entries[1..], i);
    } else if i > 0 {
      KeyedHasNoNull(entries[1..], i - 1);
    }
  }

  /** A key that a nullable integer key column turns into NULL. */
  ghost predicate NullsKey(t: Type, e: Entry)
    requires t.MapOf?
  {
    t.key.fieldType.IntType? && t.key.nullable && OutOfColumn(t.key.fieldType.width, e.key)
  }

  /**
   NULL-literal keys are dropped, so a map ends up with a NULL key exactly when its key column is a
   nullable integer column and some key is out of range.
   */
  lemma NullKeyExactly(t: Type, nullable: bool, l: Literal)
    requires t.MapOf? && l.MapLit? && Convert(t, nullable, l).Ok? && !t.key.fieldType.OtherType?
    ensures HasNullKey(Convert(t, nullable, l).value) <==> exists e :: e in l.entries && NullsKey(t, e)
  {
    var entries, pairs := Keyed(l.entries), Convert(t, nullable, l).value.pairs;
    EntryKeys(t, entries, 0);
    forall i | 0 <= i < |entries| ensures pairs[i].key == NullValue <==> NullsKey(t, entries[i]) {
      EntryKeys(t, entries, i);
      KeyedHasNoNull(l.entries, i);
      NullExactly(t.key.fieldType, t.key.nullable, entries[i].key);
    }
    forall e | e in l.entries && NullsKey(t, e) ensures e in entries {
      KeyedHolds(l.entries, e);
    }
    forall e | e in entries ensures e in l.entries {
      KeyedHolds(l.entries, e);
    }
  }

  lemma {:induction false} KeyedHolds(entries: seq<Entry>, e: Entry)
    ensures e in Keyed(entries) <==> e in entries && !e.key.NullLit?
  {
    if entries != [] {
      KeyedHolds(entries[1..], e);
    }
  }

  // ---------------------------------------------------------------------
  // Round trip
  // ---------------------------------------------------------------------

  /** A value a column of this type can hold, with no NULL map keys. */
  ghost predicate HasType(t: Type, v: Value)
    decreases t
  {
    match t
    case IntType(w) => v.NullValue? || (v.IntValue? && Lo(w) <= v.i <= Hi(w))
    case Utf8 => v.NullValue? || v.StringValue?
    case ListOf(item) => v.NullValue? || (v.ListValue? && forall i :: 0 <= i < |v.items| ==> HasType(item.fieldType, v.items[i]))
    case StructOf(fields) =>
      v.NullValue? || (v.StructValue? && |v.members| == |fields| && forall i :: 0 <= i < |fields| ==>
        v.members[i].name == fields[i].name && HasType(fields[i].fieldType, v.members[i].value))
    case MapOf(key, value) =>
      v.NullValue? || (v.MapValue? && forall i :: 0 <= i < |v.pairs| ==>
        HasType(key.fieldType, v.pairs[i].key) && !v.pairs[i].key.NullValue? && HasType(value.fieldType, v.pairs[i].value))
    case OtherType => false
  }

  /** The literal that spells a value. */
  function Spell(v: Value): (l: Literal)
    ensures l.NullLit? <==> v.NullValue?
    decreases v, 0
  {
    match v
    case NullValue => NullLit
    case IntValue(i) => IntLit(i)
    case StringValue(s) => StringLit(s)
    case ListValue(items) => ArrayLit(SpellItems(items))
    case StructValue(members) => StructLit(SpellMembers(members))
    case MapValue(pairs) => MapLit(SpellPairs(pairs))
  }

  function SpellItems(items: seq<Value>): (r: seq<Literal>)
    ensures |r| == |items| && forall i :: 0 <= i < |items| ==> r[i] == Spell(items[i])
  {
    if items == [] then [] else [Spell(items[0])] + SpellItems(items[1..])
  }

  function SpellMembers(members: seq<Named>): (r: seq<Literal>)
    ensures |r| == |members| && forall i :: 0 <= i < |members| ==> r[i] == Spell(members[i].value)
  {
    if members == [] then [] else [Spell(members[0].value)] + SpellMembers(members[1..])
  }

  function SpellPair(p: Pair): Entry {
    Entry(Spell(p.key), Spell(p.value))
  }

  function SpellPairs(pairs: seq<Pair>): (r: seq<Entry>)
    ensures |r| == |pairs| && forall i :: 0 <= i < |pairs| ==> r[i] == SpellPair(pairs[i])
  {
    if pairs == [] then [] else [SpellPair(pairs[0])] + SpellPairs(pairs[1..])
  }

  lemma {:induction false} KeyedKeepsAll(entries: seq<Entry>)
    requires forall i :: 0 <= i < |entries| ==> !entries[i].key.NullLit?
    ensures Keyed(entries) == entries
  {
    if entries != [] {
      KeyedKeepsAll(entries[1..]);
    }
  }

  /** Every value a column can hold is inserted by spelling it. */
  lemma {:induction false} SpellingRoundTrip(t: Type, nullable: bool, v: Value)
    requires HasType(t, v)
    ensures Convert(t, nullable, Spell(v)) == Ok(v)
    decreases t
  {
    match t
    case IntType(_) =>
    case Utf8 =>
    case ListOf(item) =>
      if v.ListValue? {
        forall i | 0 <= i < |v.items| ensures ItemConverts(item, SpellItems(v.items), v.items, i) {
          SpellingRoundTrip(item.fieldType, item.nullable, v.items[i]);
        }
        ItemsConvert(item, SpellItems(v.items), v.items);
      }
    case StructOf(fields) =>
      if v.StructValue? {
        forall i | 0 <= i < |fields| ensures MemberConverts(t, SpellMembers(v.members), v.members, i) {
          SpellingRoundTrip(fields[i].fieldType, fields[i].nullable, v.members[i].value);
        }
        MembersConvert(t, SpellMembers(v.members), v.members, 0);
        assert v.members[0..] == v.members;
      }
    case MapOf(key, value) =>
      if v.MapValue? {
        KeyedKeepsAll(SpellPairs(v.pairs));
        forall i | 0 <= i < |v.pairs| ensures PairConverts(t, SpellPairs(v.pairs), v.pairs, i) {
          SpellingRoundTrip(key.fieldType, key.nullable, v.pairs[i].key);
          SpellingRoundTrip(value.fieldType, value.nullable, v.pairs[i].value);
        }
        PairsConvert(t, SpellPairs(v.pairs), v.pairs);
      }
  }

  ghost predicate ItemConverts(f: Field, literals: seq<Literal>, items: seq<Value>, i: nat)
    requires i < |literals| == |items|
  {
    Convert(f.fieldType, f.nullable, literals[i]) == Ok(items[i])
  }

  lemma {:induction false} ItemsConvert(f: Field, literals: seq<Literal>, items: seq<Value>)
    requires |literals| == |items| && forall i :: 0 <= i < |items| ==> ItemConverts(f, literals, items, i)
    ensures ConvertAll(f, literals) == Ok(items)
    decreases |items|
  {
    if items != [] {
      assert ItemConverts(f, literals, items, 0);
      forall i | 0 <= i < |items| - 1 ensures ItemConverts(f, literals[1..], items[1..], i) {
        assert ItemConverts(f, literals, items, i + 1);
      }
      ItemsConvert(f, literals[1..], items[1..]);
      assert items == [items[0]] + items[1..];
    }
  }

  ghost predicate MemberConverts(t: Type, literals: seq<Literal>, members: seq<Named>, i: nat)
    requires t.StructOf? && i < |literals| == |members| == |t.fields|
  {
    members[i].name == t.fields[i].name && Convert(t.fields[i].fieldType, t.fields[i].nullable, literals[i]) == Ok(members[i].value)
  }

  lemma {:induction false} MembersConvert(t: Type, literals: seq<Literal>, members: seq<Named>, k: nat)
    requires t.StructOf? && |literals| == |members| == |t.fields| && k <= |members|
    requires forall i :: 0 <= i < |members| ==> MemberConverts(t, literals, members, i)
    ensures ConvertMembers(t, literals, k) == Ok(members[k..])
    decreases |members| - k
  {
    if k < |members| {
      assert MemberConverts(t, literals, members, k);
      MembersConvert(t, literals, members, k + 1);
      assert members[k] == Named(t.fields[k].name, members[k].value);
      assert members[k..] == [members[k]] + members[k + 1..];
    }
  }

  ghost predicate PairConverts(t: Type, entries: seq<Entry>, pairs: seq<Pair>, i: nat)
    requires t.MapOf? && i < |entries| == |pairs|
  {
    && Convert(t.key.fieldType, t.key.nullable, entries[i].key) == Ok(pairs[i].key)
    && Convert(t.value.fieldType, t.value.nullable, entries[i].value) == Ok(pairs[i].value)
  }

  lemma {:induction false} PairsConvert(t: Type, entries: seq<Entry>, pairs: seq<Pair>)
    requires t.MapOf? && |entries| == |pairs| && forall i :: 0 <= i < |pairs| ==> PairConverts(t, entries, pairs, i)
    ensures ConvertEntries(t, entries) == Ok(pairs)
    decreases |pairs|
  {
    if pairs != [] {
      assert PairConverts(t, entries, pairs, 0);
      forall i | 0 <= i < |pairs| - 1 ensures PairConverts(t, entries[1..], pairs[1..], i) {
        assert PairConverts(t, entries, pairs, i + 1);
      }
      PairsConvert(t, entries[1..], pairs[1..]);
      assert pairs == [pairs[0]] + pairs[1..];
    }
  }
}
