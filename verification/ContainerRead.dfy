/** A reader of the text of containers, guided by the column's type, and what it makes of the text a row is given. */
module ContainerRead {
  import opened Common
  import opened Sequences
  import opened DecimalText
  import opened LiteralColumns
  import opened LiteralBuild
  import opened ContainerText

  // ---------------------------------------------------------------------
  // The reader
  // ---------------------------------------------------------------------

  function ReadDigits(s: string, acc: nat): (r: (nat, string))
    ensures |r.1| <= |s|
  {
    if s != "" && '0' <= s[0] <= '9' then ReadDigits(s[1..], 10 * acc + (s[0] as int - '0' as int)) else (acc, s)
  }

  function ReadInt(s: string): (r: Option<(Value, string)>)
    ensures r.Some? ==> |r.value.1| <= |s|
  {
    if s == "" then None
    else if s[0] == '-' then (var (n, rest) := ReadDigits(s[1..], 0); Some((IntValue(0 - n), rest)))
    else var (n, rest) := ReadDigits(s, 0); Some((IntValue(n), rest))
  }

  /** Up to the closing quote; a backslash stands for the character after it. */
  function ReadEscaped(s: string): (r: Option<(string, string)>)
    ensures r.Some? ==> |r.value.1| < |s|
  {
    if s == "" then None
    else if s[0] == '"' then Some(("", s[1..]))
    else if s[0] == '\\' then
      if |s| == 1 then None
      else match ReadEscaped(s[2..]) case None => None case Some((text, rest)) => Some(([s[1]] + text, rest))
    else match ReadEscaped(s[1..]) case None => None case Some((text, rest)) => Some(([s[0]] + text, rest))
  }

  function ReadQuoted(s: string): (r: Option<(string, string)>)
    ensures r.Some? ==> |r.value.1| < |s|
  {
    if s == "" || s[0] != '"' then None else ReadEscaped(s[1..])
  }

  /** A value of this type at the front of the text, and what follows it. */
  function Read(t: Type, s: string): (r: Option<(Value, string)>)
    ensures r.Some? ==> |r.value.1| <= |s|
    decreases t, 2
  {
    if |s| >= 4 && s[..4] == "null" then Some((NullValue, s[4..]))
    else if s == "" then None
    else match t
      case IntType(_) => ReadInt(s)
      case Utf8 => (match ReadQuoted(s) case None => None case Some((text, rest)) => Some((StringValue(text), rest)))
      case ListOf(item) =>
        if s[0] != '[' then None
        else if |s| > 1 && s[1] == ']' then Some((ListValue([]), s[2..]))
        else (match ReadItems(item, s[1..]) case None => None case Some((items, rest)) => Some((ListValue(items), rest)))
      case StructOf(fields) =>
        if s[0] != '{' then None
        else (match ReadMembers(t, 0, s[1..]) case None => None case Some((members, rest)) => Some((StructValue(members), rest)))
      case MapOf(_, _) =>
        if s[0] != '{' then None
        else if |s| > 1 && s[1] == '}' then Some((MapValue([]), s[2..]))
        else (match ReadPairs(t, s[1..]) case None => None case Some((pairs, rest)) => Some((MapValue(pairs), rest)))
      case OtherType => None
  }

  function ReadItems(f: Field, s: string): (r: Option<(seq<Value>, string)>)
    ensures r.Some? ==> |r.value.1| <= |s|
    decreases f.fieldType, 3, |s|
  {
    match Read(f.fieldType, s)
    case None => None
    case Some((v, rest)) =>
      if rest == "" then None
      else if rest[0] == ']' then Some(([v], rest[1..]))
      else if rest[0] != ',' then None
      else match ReadItems(f, rest[1..]) case None => None case Some((vs, after)) => Some(([v] + vs, after))
  }

  /** The key, a colon, the value. */
  function ReadPair(t: Type, s: string): (r: Option<(Pair, string)>)
    requires t.MapOf?
    ensures r.Some? ==> |r.value.1| < |s|
    decreases t, 0
  {
    match Read(t.key.fieldType, s)
    case None => None
    case Some((key, rest)) =>
      if rest == "" || rest[0] != ':' then None
      else match Read(t.value.fieldType, rest[1..]) case None => None case Some((value, after)) => Some((Pair(key, value), after))
  }

  function ReadPairs(t: Type, s: string): (r: Option<(seq<Pair>, string)>)
    requires t.MapOf?
    ensures r.Some? ==> |r.value.1| <= |s|
    decreases t, 1, |s|
  {
    match ReadPair(t, s)
    case None => None
    case Some((p, rest)) =>
      if rest == "" then None
      else if rest[0] == '}' then Some(([p], rest[1..]))
      else if rest[0] != ',' then None
      else match ReadPairs(t, rest[1..]) case None => None case Some((ps, after)) => Some(([p] + ps, after))
  }

  /** The field's own name in quotes, a colon, the value. */
  function ReadMember(t: Type, k: nat, s: string): (r: Option<(Named, string)>)
    requires t.StructOf? && k < |t.fields|
    ensures r.Some? ==> |r.value.1| <= |s|
    decreases t, 0
  {
    match ReadQuoted(s)
    case None => None
    case Some((name, rest)) =>
      if name != t.fields[k].name || rest == "" || rest[0] != ':' then None
      else match Read(t.fields[k].fieldType, rest[1..]) case None => None case Some((v, after)) => Some((Named(name, v), after))
  }

  function ReadMembers(t: Type, k: nat, s: string): (r: Option<(seq<Named>, string)>)
    requires t.StructOf? && k <= |t.fields|
    ensures r.Some? ==> |r.value.1| <= |s|
    decreases t, 1, |t.fields| - k
  {
    if k == |t.fields| then (if s == "" || s[0] != '}' then None else Some(([], s[1..])))
    else match ReadMember(t, k, s)
      case None => None
      case Some((m, rest)) =>
        if k + 1 == |t.fields| then
          if rest == "" || rest[0] != '}' then None else Some(([m], rest[1..]))
        else if rest == "" || rest[0] != ',' then None
        else match ReadMembers(t, k + 1, rest[1..]) case None => None case Some((ms, after)) => Some(([m] + ms, after))
  }

  // ---------------------------------------------------------------------
  // Values of a column type
  // ---------------------------------------------------------------------

  ghost predicate Typed(t: Type, v: Value)
    decreases t, 1
  {
    v.NullValue? ||
    match t
    case IntType(_) => v.IntValue?
    case Utf8 => v.StringValue?
    case ListOf(item) => v.ListValue? && forall i :: 0 <= i < |v.items| ==> Typed(item.fieldType, v.items[i])
    case StructOf(fields) => v.StructValue? && |v.members| == |fields| && forall i :: 0 <= i < |fields| ==> TypedMember(t, i, v.members[i])
    case MapOf(key, value) =>
      v.MapValue? && forall i :: 0 <= i < |v.pairs| ==> Typed(key.fieldType, v.pairs[i].key) && Typed(value.fieldType, v.pairs[i].value)
    case OtherType => false
  }

  ghost predicate TypedMember(t: Type, i: nat, m: Named)
    requires t.StructOf? && i < |t.fields|
    decreases t, 0
  {
    m.name == t.fields[i].name && Typed(t.fields[i].fieldType, m.value)
  }

  /** What follows a value in a text never looks like part of a number. */
  predicate Ends(rest: string) {
    rest == "" || !('0' <= rest[0] <= '9')
  }

  // ---------------------------------------------------------------------
  // Scalars
  // ---------------------------------------------------------------------

  lemma {:induction false} DigitsBack(s: string, rest: string, acc: nat)
    requires AllDigits(s) && Ends(rest)
    ensures ReadDigits(s + rest, acc) == (acc * Pow10(|s|) + DigitsValue(s), rest)
  {
    if s == "" {
      assert s + rest == rest;
    } else {
      var d := DigitValue(s[0]);
      DigitsBack(s[1..], rest, 10 * acc + d);
      assert (s + rest)[1..] == s[1..] + rest;
      FirstDigit(s);
      Shift(acc, d, Pow10(|s| - 1));
    }
  }

  lemma Shift(acc: nat, d: nat, p: nat)
    ensures (10 * acc + d) * p == acc * (10 * p) + d * p
  {
  }

  lemma NatBack(n: nat, rest: string)
    requires Ends(rest)
    ensures ReadDigits(PrintNat(n) + rest, 0) == (n, rest)
  {
    DigitsBack(PrintNat(n), rest, 0);
  }

  lemma NegativeInt(n: nat, s: string, rest: string)
    requires ReadDigits(s, 0) == (n, rest)
    ensures ReadInt("-" + s) == Some((IntValue(0 - n), rest))
  {
    assert ("-" + s)[1..] == s;
  }

  lemma PlainInt(n: nat, s: string, rest: string)
    requires s != "" && s[0] != '-' && ReadDigits(s, 0) == (n, rest)
    ensures ReadInt(s) == Some((IntValue(n), rest))
  {
  }

  lemma IntBack(i: int, rest: string)
    requires Ends(rest)
    ensures ReadInt(PrintInt(i) + rest) == Some((IntValue(i), rest))
  {
    if i < 0 {
      NatBack(-i, rest);
      NegativeInt(-i, PrintNat(-i) + rest, rest);
      Assoc("-", PrintNat(-i), rest);
    } else {
      NatBack(i, rest);
      assert IsDigit(PrintNat(i)[0]) && (PrintNat(i) + rest)[0] == PrintNat(i)[0];
      PlainInt(i, PrintNat(i) + rest, rest);
    }
  }

  lemma {:induction false} EscapedBack(s: string, rest: string)
    ensures ReadEscaped(Escaped(s) + "\"" + rest) == Some((s, rest))
  {
    var text := Escaped(s) + "\"" + rest;
    if s == "" {
      assert text == "\"" + rest;
      assert text[1..] == rest;
    } else {
      EscapedBack(s[1..], rest);
      var tail := Escaped(s[1..]) + "\"" + rest;
      assert [s[0]] + s[1..] == s;
      if s[0] == '"' || s[0] == '\\' {
        assert text == ['\\', s[0]] + tail;
        assert text[2..] == tail;
      } else {
        assert text == [s[0]] + tail;
        assert text[1..] == tail;
      }
    }
  }

  lemma QuotedBack(s: string, rest: string)
    ensures ReadQuoted(Quoted(s) + rest) == Some((s, rest))
  {
    EscapedBack(s, rest);
    assert (Quoted(s) + rest)[1..] == Escaped(s) + "\"" + rest;
  }

  /** How a value's text starts. */
  lemma TextStart(v: Value)
    ensures Render(v) != "" && Render(v)[0] != ']' && Render(v)[0] != '}' && Render(v)[0] != 'n' <==> !v.NullValue?
    ensures Render(v) != "" && Render(v)[0] != ']' && Render(v)[0] != '}'
  {
    if v.IntValue? {
      var digits := PrintNat(if v.i < 0 then -v.i else v.i);
      assert IsDigit(digits[0]);
    }
  }

  // ---------------------------------------------------------------------
  // Lists of texts, first one first
  // ---------------------------------------------------------------------

  lemma {:induction false} ItemsFirst(items: seq<Value>)
    requires items != []
    ensures RenderItems(items) == Render(items[0]) + if |items| == 1 then "" else "," + RenderItems(items[1..])
  {
    var n := |items| - 1;
    if n == 0 {
      assert RenderItems(items[..0]) == "";
    } else {
      ItemsFirst(items[..n]);
      assert items[1..][..n - 1] == items[..n][1..];
      JoinStep(Render(items[0]), if n == 1 then "" else RenderItems(items[..n][1..]), n, Render(items[n]));
    }
  }

  lemma {:induction false} PairsFirst(pairs: seq<Pair>)
    requires pairs != []
    ensures RenderPairs(pairs) == RenderPair(pairs[0]) + if |pairs| == 1 then "" else "," + RenderPairs(pairs[1..])
  {
    var n := |pairs| - 1;
    if n == 0 {
      assert RenderPairs(pairs[..0]) == "";
    } else {
      PairsFirst(pairs[..n]);
      assert pairs[1..][..n - 1] == pairs[..n][1..];
      JoinStep(RenderPair(pairs[0]), if n == 1 then "" else RenderPairs(pairs[..n][1..]), n, RenderPair(pairs[n]));
    }
  }

  lemma {:induction false} MembersFirst(members: seq<Named>)
    requires members != []
    ensures RenderMembers(members) == RenderMember(members[0]) + if |members| == 1 then "" else "," + RenderMembers(members[1..])
  {
    var n := |members| - 1;
    if n == 0 {
      assert RenderMembers(members[..0]) == "";
    } else {
      MembersFirst(members[..n]);
      assert members[1..][..n - 1] == members[..n][1..];
      JoinStep(RenderMember(members[0]), if n == 1 then "" else RenderMembers(members[..n][1..]), n, RenderMember(members[n]));
    }
  }

  lemma JoinStep(first: string, middle: string, n: nat, last: string)
    requires n > 0 && (n == 1 ==> middle == "")
    ensures Separated(first + (if n == 1 then "" else "," + middle), n + 1) + last == first + ("," + (Separated(middle, n) + last))
  {
  }

  /** The same with something behind: the first text, then either what is behind or a comma and the other texts. */
  lemma ItemsText(items: seq<Value>, close: string)
    requires items != []
    ensures RenderItems(items) + close == Render(items[0]) + if |items| == 1 then close else "," + (RenderItems(items[1..]) + close)
  {
    ItemsFirst(items);
    Behind(Render(items[0]), if |items| == 1 then "" else RenderItems(items[1..]), |items|, close);
  }

  lemma PairsText(pairs: seq<Pair>, close: string)
    requires pairs != []
    ensures RenderPairs(pairs) + close == RenderPair(pairs[0]) + if |pairs| == 1 then close else "," + (RenderPairs(pairs[1..]) + close)
  {
    PairsFirst(pairs);
    Behind(RenderPair(pairs[0]), if |pairs| == 1 then "" else RenderPairs(pairs[1..]), |pairs|, close);
  }

  lemma MembersText(members: seq<Named>, close: string)
    requires members != []
    ensures RenderMembers(members) + close == RenderMember(members[0]) + if |members| == 1 then close else "," + (RenderMembers(members[1..]) + close)
  {
    MembersFirst(members);
    Behind(RenderMember(members[0]), if |members| == 1 then "" else RenderMembers(members[1..]), |members|, close);
  }

  lemma Behind(first: string, others: string, n: nat, close: string)
    ensures first + (if n == 1 then "" else "," + others) + close == first + if n == 1 then close else "," + (others + close)
  {
  }

  lemma Enclosed(open: string, body: string, close: string, rest: string)
    ensures open + body + close + rest == open + (body + (close + rest))
  {
  }

  lemma ListWhole(items: seq<Value>, rest: string)
    ensures Render(ListValue(items)) + rest == "[" + (RenderItems(items) + ("]" + rest))
  {
    Enclosed("[", RenderItems(items), "]", rest);
  }

  lemma MapWhole(pairs: seq<Pair>, rest: string)
    ensures Render(MapValue(pairs)) + rest == "{" + (RenderPairs(pairs) + ("}" + rest))
  {
    Enclosed("{", RenderPairs(pairs), "}", rest);
  }

  lemma StructWhole(members: seq<Named>, rest: string)
    ensures Render(StructValue(members)) + rest == "{" + (RenderMembers(members) + ("}" + rest))
  {
    Enclosed("{", RenderMembers(members), "}", rest);
  }

  lemma ItemsStart(items: seq<Value>, close: string)
    requires items != []
    ensures RenderItems(items) + close != "" && (RenderItems(items) + close)[0] != ']'
  {
    ItemsText(items, close);
    TextStart(items[0]);
  }

  lemma PairsStart(pairs: seq<Pair>, close: string)
    requires pairs != []
    ensures RenderPairs(pairs) + close != "" && (RenderPairs(pairs) + close)[0] != '}'
  {
    PairsText(pairs, close);
    TextStart(pairs[0].key);
    assert RenderPair(pairs[0])[0] == Render(pairs[0].key)[0];
  }

  // ---------------------------------------------------------------------
  // One step of the reader
  // ---------------------------------------------------------------------

  lemma LastItem(f: Field, s: string, v: Value, rest: string)
    requires Read(f.fieldType, s) == Some((v, "]" + rest))
    ensures ReadItems(f, s) == Some(([v], rest))
  {
    assert ("]" + rest)[1..] == rest;
  }

  lemma NextItem(f: Field, s: string, v: Value, more: string, vs: seq<Value>, rest: string)
    requires Read(f.fieldType, s) == Some((v, "," + more)) && ReadItems(f, more) == Some((vs, rest))
    ensures ReadItems(f, s) == Some(([v] + vs, rest))
  {
    assert ("," + more)[1..] == more;
  }

  lemma WholeList(item: Field, body: string, vs: seq<Value>, rest: string)
    requires body != "" && body[0] != ']' && ReadItems(item, body) == Some((vs, rest))
    ensures Read(ListOf(item), "[" + body) == Some((ListValue(vs), rest))
  {
    assert ("[" + body)[1..] == body && ("[" + body)[1] == body[0];
    assert |"[" + body| >= 4 ==> ("[" + body)[..4][0] == '[';
  }

  lemma EmptyList(item: Field, rest: string)
    ensures Read(ListOf(item), "[" + ("" + ("]" + rest))) == Some((ListValue([]), rest))
  {
    var s := "[" + ("" + ("]" + rest));
    assert s[0] == '[' && s[1] == ']' && s[2..] == rest;
    assert |s| >= 4 ==> s[..4][0] == '[';
  }

  lemma OnePair(t: Type, s: string, key: Value, text: string, value: Value, rest: string)
    requires t.MapOf? && Read(t.key.fieldType, s) == Some((key, ":" + text)) && Read(t.value.fieldType, text) == Some((value, rest))
    ensures ReadPair(t, s) == Some((Pair(key, value), rest))
  {
    assert (":" + text)[1..] == text;
  }

  lemma LastPair(t: Type, s: string, p: Pair, rest: string)
    requires t.MapOf? && ReadPair(t, s) == Some((p, "}" + rest))
    ensures ReadPairs(t, s) == Some(([p], rest))
  {
    assert ("}" + rest)[1..] == rest;
  }

  lemma NextPair(t: Type, s: string, p: Pair, more: string, ps: seq<Pair>, rest: string)
    requires t.MapOf? && ReadPair(t, s) == Some((p, "," + more)) && ReadPairs(t, more) == Some((ps, rest))
    ensures ReadPairs(t, s) == Some(([p] + ps, rest))
  {
    assert ("," + more)[1..] == more;
  }

  lemma WholeMap(t: Type, body: string, ps: seq<Pair>, rest: string)
    requires t.MapOf? && body != "" && body[0] != '}' && ReadPairs(t, body) == Some((ps, rest))
    ensures Read(t, "{" + body) == Some((MapValue(ps), rest))
  {
    assert ("{" + body)[1..] == body && ("{" + body)[1] == body[0];
    assert |"{" + body| >= 4 ==> ("{" + body)[..4][0] == '{';
  }

  lemma EmptyMap(t: Type, rest: string)
    requires t.MapOf?
    ensures Read(t, "{" + ("" + ("}" + rest))) == Some((MapValue([]), rest))
  {
    var s := "{" + ("" + ("}" + rest));
    assert s[0] == '{' && s[1] == '}' && s[2..] == rest;
    assert |s| >= 4 ==> s[..4][0] == '{';
  }

  lemma OneMember(t: Type, k: nat, s: string, text: string, v: Value, rest: string)
    requires t.StructOf? && k < |t.fields| && ReadQuoted(s) == Some((t.fields[k].name, ":" + text))
    requires Read(t.fields[k].fieldType, text) == Some((v, rest))
    ensures ReadMember(t, k, s) == Some((Named(t.fields[k].name, v), rest))
  {
    assert (":" + text)[1..] == text;
  }

  lemma LastMember(t: Type, k: nat, s: string, m: Named, rest: string)
    requires t.StructOf? && k + 1 == |t.fields| && ReadMember(t, k, s) == Some((m, "}" + rest))
    ensures ReadMembers(t, k, s) == Some(([m], rest))
  {
    assert ("}" + rest)[1..] == rest;
  }

  lemma NextMember(t: Type, k: nat, s: string, m: Named, more: string, ms: seq<Named>, rest: string)
    requires t.StructOf? && k + 1 < |t.fields| && ReadMember(t, k, s) == Some((m, "," + more)) && ReadMembers(t, k + 1, more) == Some((ms, rest))
    ensures ReadMembers(t, k, s) == Some(([m] + ms, rest))
  {
    assert ("," + more)[1..] == more;
  }

  lemma NoMembers(t: Type, rest: string)
    requires t.StructOf?
    ensures ReadMembers(t, |t.fields|, "" + ("}" + rest)) == Some(([], rest))
  {
    var s := "" + ("}" + rest);
    assert s[0] == '}' && s[1..] == rest;
  }

  lemma WholeStruct(t: Type, body: string, ms: seq<Named>, rest: string)
    requires t.StructOf? && ReadMembers(t, 0, body) == Some((ms, rest))
    ensures Read(t, "{" + body) == Some((StructValue(ms), rest))
  {
    assert ("{" + body)[1..] == body;
    assert |"{" + body| >= 4 ==> ("{" + body)[..4][0] == '{';
  }

  // ---------------------------------------------------------------------
  // Reading back
  // ---------------------------------------------------------------------

  /** The text of a value, whatever follows, is read as that value. */
  lemma {:induction false} ReadsBack(t: Type, v: Value, rest: string)
    requires Typed(t, v) && Ends(rest)
    ensures Read(t, Render(v) + rest) == Some((v, rest))
    decreases t, 4
  {
    if v.NullValue? {
      NullBack(t, rest);
    } else {
      match t
      case IntType(_) =>
        TextStart(v);
        ScalarBack(t, v, rest);
      case Utf8 =>
        TextStart(v);
        ScalarBack(t, v, rest);
      case ListOf(item) => ListBack(item, v.items, rest);
      case StructOf(_) => StructBack(t, v.members, rest);
      case MapOf(_, _) => MapBack(t, v.pairs, rest);
    }
  }

  lemma NullBack(t: Type, rest: string)
    ensures Read(t, Render(NullValue) + rest) == Some((NullValue, rest))
  {
    var s := "null" + rest;
    assert s[..4] == "null" && s[4..] == rest;
  }

  lemma ScalarBack(t: Type, v: Value, rest: string)
    requires (t.IntType? && v.IntValue?) || (t.Utf8? && v.StringValue?)
    requires Ends(rest) && Render(v) != "" && Render(v)[0] != 'n'
    ensures Read(t, Render(v) + rest) == Some((v, rest))
  {
    var s := Render(v) + rest;
    assert s[0] == Render(v)[0];
    assert |s| >= 4 ==> s[..4][0] == s[0];
    if t.IntType? {
      IntBack(v.i, rest);
    } else {
      QuotedBack(v.s, rest);
    }
  }

  lemma {:induction false} ListBack(item: Field, items: seq<Value>, rest: string)
    requires forall i :: 0 <= i < |items| ==> Typed(item.fieldType, items[i])
    ensures Read(ListOf(item), Render(ListValue(items)) + rest) == Some((ListValue(items), rest))
    decreases item.fieldType, 6
  {
    ListWhole(items, rest);
    if items == [] {
      EmptyList(item, rest);
    } else {
      var body := RenderItems(items) + ("]" + rest);
      ItemsBack(item, items, rest);
      ItemsStart(items, "]" + rest);
      WholeList(item, body, items, rest);
    }
  }

  lemma {:induction false} ItemsBack(f: Field, items: seq<Value>, rest: string)
    requires items != [] && forall i :: 0 <= i < |items| ==> Typed(f.fieldType, items[i])
    ensures ReadItems(f, RenderItems(items) + ("]" + rest)) == Some((items, rest))
    decreases f.fieldType, 5, |items|
  {
    ItemsText(items, "]" + rest);
    var s := RenderItems(items) + ("]" + rest);
    if |items| == 1 {
      ReadsBack(f.fieldType, items[0], "]" + rest);
      LastItem(f, s, items[0], rest);
      assert [items[0]] == items;
    } else {
      var more := RenderItems(items[1..]) + ("]" + rest);
      ItemsBack(f, items[1..], rest);
      ReadsBack(f.fieldType, items[0], "," + more);
      NextItem(f, s, items[0], more, items[1..], rest);
      assert [items[0]] + items[1..] == items;
    }
  }

  ghost predicate TypedPairs(t: Type, pairs: seq<Pair>)
    requires t.MapOf?
  {
    forall i :: 0 <= i < |pairs| ==> Typed(t.key.fieldType, pairs[i].key) && Typed(t.value.fieldType, pairs[i].value)
  }

  lemma {:induction false} MapBack(t: Type, pairs: seq<Pair>, rest: string)
    requires t.MapOf? && TypedPairs(t, pairs)
    ensures Read(t, Render(MapValue(pairs)) + rest) == Some((MapValue(pairs), rest))
    decreases t, 2
  {
    MapWhole(pairs, rest);
    if pairs == [] {
      EmptyMap(t, rest);
    } else {
      var body := RenderPairs(pairs) + ("}" + rest);
      PairsBack(t, pairs, rest);
      PairsStart(pairs, "}" + rest);
      WholeMap(t, body, pairs, rest);
    }
  }

  lemma PairText(p: Pair, rest: string)
    ensures RenderPair(p) + rest == Render(p.key) + (":" + (Render(p.value) + rest))
  {
  }

  lemma {:induction false} PairBack(t: Type, p: Pair, rest: string)
    requires t.MapOf? && Typed(t.key.fieldType, p.key) && Typed(t.value.fieldType, p.value) && Ends(rest)
    ensures ReadPair(t, RenderPair(p) + rest) == Some((p, rest))
    decreases t, 0
  {
    var text := Render(p.value) + rest;
    PairText(p, rest);
    ReadsBack(t.key.fieldType, p.key, ":" + text);
    ReadsBack(t.value.fieldType, p.value, rest);
    OnePair(t, RenderPair(p) + rest, p.key, text, p.value, rest);
  }

  lemma {:induction false} PairsBack(t: Type, pairs: seq<Pair>, rest: string)
    requires t.MapOf? && pairs != [] && TypedPairs(t, pairs)
    ensures ReadPairs(t, RenderPairs(pairs) + ("}" + rest)) == Some((pairs, rest))
    decreases t, 1, |pairs|
  {
    PairsText(pairs, "}" + rest);
    var s := RenderPairs(pairs) + ("}" + rest);
    if |pairs| == 1 {
      PairBack(t, pairs[0], "}" + rest);
      LastPair(t, s, pairs[0], rest);
      assert [pairs[0]] == pairs;
    } else {
      var more := RenderPairs(pairs[1..]) + ("}" + rest);
      PairsBack(t, pairs[1..], rest);
      PairBack(t, pairs[0], "," + more);
      NextPair(t, s, pairs[0], more, pairs[1..], rest);
      assert [pairs[0]] + pairs[1..] == pairs;
    }
  }

  lemma {:induction false} StructBack(t: Type, members: seq<Named>, rest: string)
    requires t.StructOf? && |members| == |t.fields| && forall i :: 0 <= i < |members| ==> TypedMember(t, i, members[i])
    ensures Read(t, Render(StructValue(members)) + rest) == Some((StructValue(members), rest))
    decreases t, 3
  {
    StructWhole(members, rest);
    MembersBack(t, 0, members, RenderMembers(members) + ("}" + rest), rest);
    WholeStruct(t, RenderMembers(members) + ("}" + rest), members, rest);
  }

  lemma MemberText(m: Named, rest: string)
    ensures RenderMember(m) + rest == Quoted(m.name) + (":" + (Render(m.value) + rest))
  {
  }

  lemma {:induction false} MemberBack(t: Type, k: nat, m: Named, s: string, rest: string)
    requires t.StructOf? && k < |t.fields| && TypedMember(t, k, m) && Ends(rest) && s == RenderMember(m) + rest
    ensures ReadMember(t, k, s) == Some((m, rest))
    decreases t, 0
  {
    var text := Render(m.value) + rest;
    MemberText(m, rest);
    QuotedBack(m.name, ":" + text);
    ReadsBack(t.fields[k].fieldType, m.value, rest);
    OneMember(t, k, s, text, m.value, rest);
  }

  /** The members are those of the fields from `k` on. */
  ghost predicate TypedMembers(t: Type, k: nat, members: seq<Named>)
    requires t.StructOf?
  {
    k + |members| == |t.fields| && forall i :: 0 <= i < |members| ==> TypedMember(t, k + i, members[i])
  }

  lemma TypedTail(t: Type, k: nat, members: seq<Named>)
    requires t.StructOf? && TypedMembers(t, k, members) && members != []
    ensures TypedMember(t, k, members[0]) && TypedMembers(t, k + 1, members[1..])
  {
    assert TypedMember(t, k + 0, members[0]);
    forall i | 0 <= i < |members| - 1 ensures TypedMember(t, k + 1 + i, members[1..][i]) {
      assert TypedMember(t, k + (i + 1), members[i + 1]);
    }
  }

  lemma {:induction false} OneLeft(t: Type, k: nat, m: Named, s: string, rest: string)
    requires t.StructOf? && k + 1 == |t.fields| && TypedMember(t, k, m) && s == RenderMembers([m]) + ("}" + rest)
    ensures ReadMembers(t, k, s) == Some(([m], rest))
    decreases t, 1
  {
    MembersText([m], "}" + rest);
    MemberBack(t, k, m, s, "}" + rest);
    LastMember(t, k, s, m, rest);
  }

  lemma {:induction false} MoreLeft(t: Type, k: nat, m: Named, others: seq<Named>, s: string, more: string, rest: string)
    requires t.StructOf? && k + 1 < |t.fields| && TypedMember(t, k, m) && s == RenderMember(m) + ("," + more)
    requires ReadMembers(t, k + 1, more) == Some((others, rest))
    ensures ReadMembers(t, k, s) == Some(([m] + others, rest))
    decreases t, 1
  {
    MemberBack(t, k, m, s, "," + more);
    NextMember(t, k, s, m, more, others, rest);
  }

  lemma {:induction false} MembersBack(t: Type, k: nat, members: seq<Named>, s: string, rest: string)
    requires t.StructOf? && TypedMembers(t, k, members) && s == RenderMembers(members) + ("}" + rest)
    ensures ReadMembers(t, k, s) == Some((members, rest))
    decreases t, 2, |members|
  {
    if members == [] {
      NoMembers(t, rest);
    } else {
      TypedTail(t, k, members);
      if |members| == 1 {
        assert members == [members[0]];
        OneLeft(t, k, members[0], s, rest);
      } else {
        var more := RenderMembers(members[1..]) + ("}" + rest);
        MembersBack(t, k + 1, members[1..], more, rest);
        MembersJoin(members, members[1..], more, rest);
        MoreLeft(t, k, members[0], members[1..], s, more, rest);
        HeadAndTail(members);
      }
    }
  }

  lemma MembersJoin(members: seq<Named>, others: seq<Named>, more: string, rest: string)
    requires |members| > 1 && others == members[1..] && more == RenderMembers(others) + ("}" + rest)
    ensures RenderMembers(members) + ("}" + rest) == RenderMember(members[0]) + ("," + more)
  {
    MembersFirst(members);
    JoinBehind(RenderMember(members[0]), RenderMembers(others), "}" + rest);
  }

  lemma JoinBehind(first: string, others: string, close: string)
    ensures first + ("," + others) + close == first + ("," + (others + close))
  {
  }

  lemma HeadAndTail<T>(s: seq<T>)
    requires s != []
    ensures [s[0]] + s[1..] == s
  {
  }

  // ---------------------------------------------------------------------
  // From INSERT to text and back
  // ---------------------------------------------------------------------

  /** What a literal becomes is a value of the column's type. */
  lemma {:induction false} ConvertsToTyped(t: Type, nullable: bool, l: Literal)
    requires Convert(t, nullable, l).Ok?
    ensures Typed(t, Convert(t, nullable, l).value)
    decreases t, 2
  {
    match t
    case ListOf(item) =>
      if l.ArrayLit? {
        ItemsTyped(item, l.items);
      }
    case StructOf(fields) =>
      if l.StructLit? {
        MembersTyped(t, l.members, 0);
      }
    case MapOf(_, _) =>
      if l.MapLit? {
        EntriesTyped(t, Keyed(l.entries));
      }
    case _ =>
  }

  lemma {:induction false} ItemsTyped(f: Field, items: seq<Literal>)
    requires ConvertAll(f, items).Ok?
    ensures forall v :: v in ConvertAll(f, items).value ==> Typed(f.fieldType, v)
    decreases f.fieldType, 3, |items|
  {
    if items != [] {
      ConvertsToTyped(f.fieldType, f.nullable, items[0]);
      ItemsTyped(f, items[1..]);
    }
  }

  lemma {:induction false} MembersTyped(t: Type, members: seq<Literal>, k: nat)
    requires t.StructOf? && |members| == |t.fields| && k <= |members| && ConvertMembers(t, members, k).Ok?
    ensures var vs := ConvertMembers(t, members, k).value;
            |vs| == |members| - k && forall i :: 0 <= i < |vs| ==> TypedMember(t, k + i, vs[i])
    decreases t, 1, |members| - k
  {
    if k < |members| {
      ConvertsToTyped(t.fields[k].fieldType, t.fields[k].nullable, members[k]);
      MembersTyped(t, members, k + 1);
      var vs, tail := ConvertMembers(t, members, k).value, ConvertMembers(t, members, k + 1).value;
      forall i | 0 <= i < |vs| ensures TypedMember(t, k + i, vs[i]) {
        if i > 0 {
          assert TypedMember(t, k + 1 + (i - 1), tail[i - 1]);
        }
      }
    }
  }

  lemma {:induction false} EntriesTyped(t: Type, entries: seq<Entry>)
    requires t.MapOf? && ConvertEntries(t, entries).Ok?
    ensures TypedPairs(t, ConvertEntries(t, entries).value)
    decreases t, 1, |entries|
  {
    if entries != [] {
      ConvertsToTyped(t.key.fieldType, t.key.nullable, entries[0].key);
      ConvertsToTyped(t.value.fieldType, t.value.nullable, entries[0].value);
      EntriesTyped(t, entries[1..]);
    }
  }

  /** Inserted literals come back, row by row, as a text that reads as what they mean. */
  method InsertThenFormat(t: Type, nullable: bool, rows: seq<Literal>, row: nat) returns (out: Result<string, BuildError>)
    requires row < |rows|
    ensures out.Ok? <==> Acceptable(t, nullable, rows)
    ensures out.Ok? ==> Convert(t, nullable, rows[row]).Ok? && Read(t, out.value) == Some((Convert(t, nullable, rows[row]).value, ""))
  {
    var a := BuildArray(t, nullable, rows);
    if a.Err? {
      return Err(a.error);
    }
    var text := Format(a.value, |rows|, row);
    ghost var v := Convert(t, nullable, rows[row]).value;
    ConvertsToTyped(t, nullable, rows[row]);
    ReadsBack(t, v, "");
    assert Render(v) + "" == text;
    out := Ok(text);
  }
}
