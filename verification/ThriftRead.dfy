/**
 Reading the named JSON back. Given the type of a value, its tree says which value it was: nothing
 is lost, and no two values of one type are published as the same tree.
 */
module ThriftRead {
  import opened Common
  import opened ThriftJson
  import DecimalText

  datatype Kind =
    | BoolKind
    | IntKind
    | DoubleKind
    | StringKind
    | BytesKind
    | StructKind(fields: seq<Field>)
    | ListKind(item: Kind)
    | SetKind(element: Kind)
    | MapKind(key: Kind, value: Kind)

  datatype Field = Field(id: FieldId, kind: Kind)

  // ---------------------------------------------------------------------
  // Values of a type
  // ---------------------------------------------------------------------

  /** The name a field is published under. */
  function Label(id: FieldId): string {
    match id
    case FieldId(Some(name), _) => name
    case FieldId(None, Some(n)) => "field_" + DecimalText.PrintInt(n)
    case FieldId(None, None) => "__unknown_field__"
  }

  ghost predicate DistinctLabels(fields: seq<Field>) {
    forall i, j :: 0 <= i < j < |fields| ==> Label(fields[i].id) != Label(fields[j].id)
  }

  ghost predicate HasKind(v: Value, k: Kind)
    decreases k, 0
  {
    match k
    case BoolKind => v.Leaf? && v.scalar.BoolScalar?
    case IntKind => v.Leaf? && v.scalar.IntScalar?
    case DoubleKind => v.Leaf? && v.scalar.DoubleScalar?
    case StringKind => v.Leaf? && v.scalar.StringScalar?
    case BytesKind => v.Leaf? && v.scalar.BytesScalar?
    case StructKind(fields) => v.Struct? && DistinctLabels(fields) && HasFields(v.members, fields)
    case ListKind(item) => v.List? && forall i :: 0 <= i < |v.items| ==> HasKind(v.items[i], item)
    case SetKind(element) => v.Set? && forall i :: 0 <= i < |v.elements| ==> HasKind(v.elements[i], element)
    case MapKind(key, value) => v.Map? && forall i :: 0 <= i < |v.entries| ==> HasKind(v.entries[i].key, key) && HasKind(v.entries[i].value, value)
  }

  /** The members are some of the fields, in order. */
  ghost predicate HasFields(members: seq<Member>, fields: seq<Field>)
    decreases fields
  {
    if fields == [] then members == []
    else if members != [] && members[0].id == fields[0].id then
      Holds(fields[0], members[0].value) && HasFields(members[1..], fields[1..])
    else HasFields(members, fields[1..])
  }

  ghost predicate Holds(f: Field, v: Value)
    decreases f
  {
    HasKind(v, f.kind)
  }

  // ---------------------------------------------------------------------
  // The reader
  // ---------------------------------------------------------------------

  function Nibble(c: char): bv8 {
    if '0' <= c <= '9' then (c - '0') as bv8 else if 'a' <= c <= 'f' then (c - 'a') as bv8 + 10 else 0
  }

  /** The high half stands first. */
  function ReadPair(c: char, d: char): bv8 {
    (Nibble(c) << 4) | Nibble(d)
  }

  /** Bytes from pairs of digits. */
  function ReadHex(s: string): seq<bv8> {
    if |s| < 2 then [] else [ReadPair(s[0], s[1])] + ReadHex(s[2..])
  }

  function ReadDouble(j: Json): Option<Value> {
    match j
    case Float(r) => Some(Leaf(DoubleScalar(Finite(r))))
    case Str(s) =>
      if s == "NaN" then Some(Leaf(DoubleScalar(NotANumber)))
      else if s == "inf" then Some(Leaf(DoubleScalar(PositiveInfinity)))
      else if s == "-inf" then Some(Leaf(DoubleScalar(NegativeInfinity)))
      else None
    case _ => None
  }

  function ReadBytes(j: Json): Option<Value> {
    if j.Str? && "0x" <= j.s then Some(Leaf(BytesScalar(ReadHex(j.s[2..])))) else None
  }

  function Read(k: Kind, j: Json): Option<Value>
    decreases k, 1, 0
  {
    match k
    case BoolKind => if j.Bool? then Some(Leaf(BoolScalar(j.b))) else None
    case IntKind => if j.Int? then Some(Leaf(IntScalar(j.i))) else None
    case DoubleKind => ReadDouble(j)
    case StringKind => if j.Str? then Some(Leaf(StringScalar(j.s))) else None
    case BytesKind => ReadBytes(j)
    case StructKind(fields) =>
      if !j.Object? then None
      else
        (match ReadFields(fields, j.fields)
         case None => None
         case Some(members) => Some(Struct(members)))
    case ListKind(item) =>
      if !j.Array? then None
      else
        (match ReadItems(item, j.items)
         case None => None
         case Some(items) => Some(List(items)))
    case SetKind(element) =>
      if !j.Array? then None
      else
        (match ReadItems(element, j.items)
         case None => None
         case Some(items) => Some(Set(items)))
    case MapKind(key, value) =>
      if !j.Array? then None
      else
        (match ReadEntries(key, value, j.items)
         case None => None
         case Some(entries) => Some(Map(entries)))
  }

  function ReadFields(fields: seq<Field>, m: map<string, Json>): Option<seq<Member>>
    decreases fields
  {
    if fields == [] then Some([])
    else
      var name, rest := Label(fields[0].id), ReadFields(fields[1..], m);
      if name !in m || rest.None? then rest
      else
        match ReadField(fields[0], m[name])
        case None => None
        case Some(v) => Some([Member(fields[0].id, v)] + rest.value)
  }

  function ReadField(f: Field, j: Json): Option<Value>
    decreases f
  {
    Read(f.kind, j)
  }

  function ReadItems(item: Kind, items: seq<Json>): Option<seq<Value>>
    decreases item, 2, |items|
  {
    if items == [] then Some([])
    else
      var n := |items| - 1;
      match ReadItems(item, items[..n])
      case None => None
      case Some(front) =>
        match Read(item, items[n])
        case None => None
        case Some(v) => Some(front + [v])
  }

  /** Each entry is a pair, the key first. */
  function ReadEntries(key: Kind, value: Kind, items: seq<Json>): Option<seq<Entry>>
    decreases MapKind(key, value), 0, |items|
  {
    if items == [] then Some([])
    else
      var n := |items| - 1;
      match ReadEntries(key, value, items[..n])
      case None => None
      case Some(front) =>
        if !items[n].Array? || |items[n].items| != 2 then None
        else
          match Read(key, items[n].items[0])
          case None => None
          case Some(k) =>
            match Read(value, items[n].items[1])
            case None => None
            case Some(v) => Some(front + [Entry(k, v)])
  }

  // ---------------------------------------------------------------------
  // Scalars
  // ---------------------------------------------------------------------

  lemma NibbleBack(d: bv8)
    requires d < 16
    ensures Nibble(HexDigit(d)) == d
  {
  }

  lemma HalvesJoin(b: bv8)
    ensures b >> 4 < 16 && b & 15 < 16 && ((b >> 4) << 4) | (b & 15) == b
  {
  }

  lemma ByteBack(b: bv8)
    ensures |HexPair(b)| == 2 && ReadPair(HexPair(b)[0], HexPair(b)[1]) == b
  {
    HalvesJoin(b);
    NibbleBack(b >> 4);
    NibbleBack(b & 15);
  }

  lemma OneMoreByte(pair: string, rest: string)
    requires |pair| == 2
    ensures ReadHex(pair + rest) == [ReadPair(pair[0], pair[1])] + ReadHex(rest)
  {
    assert (pair + rest)[2..] == rest;
  }

  lemma OneByteBack(b: bv8, rest: string, bytes: seq<bv8>)
    requires ReadHex(rest) == bytes
    ensures ReadHex(HexPair(b) + rest) == [b] + bytes
  {
    ByteBack(b);
    OneMoreByte(HexPair(b), rest);
  }

  lemma {:induction false} HexBack(bytes: seq<bv8>)
    ensures ReadHex(Hex(bytes)) == bytes
  {
    if bytes != [] {
      HexBack(bytes[1..]);
      OneByteBack(bytes[0], Hex(bytes[1..]), bytes[1..]);
      assert bytes == [bytes[0]] + bytes[1..];
    }
  }

  lemma BytesBack(bytes: seq<bv8>)
    ensures ReadBytes(ScalarJson(BytesScalar(bytes))) == Some(Leaf(BytesScalar(bytes)))
  {
    HexBack(bytes);
    assert ("0x" + Hex(bytes))[2..] == Hex(bytes);
  }

  lemma DoubleBack(d: Double)
    ensures ReadDouble(ScalarJson(DoubleScalar(d))) == Some(Leaf(DoubleScalar(d)))
  {
    assert "NaN" != "inf" && "NaN" != "-inf" && "inf" != "-inf" by {
      assert "NaN"[0] == 'N' && "inf"[0] == 'i' && "-inf"[0] == '-';
    }
  }

  // ---------------------------------------------------------------------
  // Structs
  // ---------------------------------------------------------------------

  lemma LabelIsKey(id: FieldId)
    ensures FieldKey(FieldName(id)) == Label(id)
  {
  }

  lemma {:induction false} MembersAreFields(members: seq<Member>, fields: seq<Field>, i: nat) returns (f: nat)
    requires HasFields(members, fields) && i < |members|
    ensures f < |fields| && members[i].id == fields[f].id
    decreases fields
  {
    if members[0].id != fields[0].id {
      f := MembersAreFields(members, fields[1..], i);
      f := f + 1;
    } else if i == 0 {
      f := 0;
    } else {
      f := MembersAreFields(members[1..], fields[1..], i - 1);
      f := f + 1;
    }
  }

  ghost predicate MemberLabels(members: seq<Member>) {
    forall i, j :: 0 <= i < j < |members| ==> Label(members[i].id) != Label(members[j].id)
  }

  lemma {:induction false} MembersDistinct(members: seq<Member>, fields: seq<Field>)
    requires HasFields(members, fields) && DistinctLabels(fields)
    ensures MemberLabels(members)
    decreases fields
  {
    if members != [] {
      if members[0].id != fields[0].id {
        MembersDistinct(members, fields[1..]);
      } else {
        MembersDistinct(members[1..], fields[1..]);
        forall i | 0 < i < |members| ensures Label(members[0].id) != Label(members[i].id) {
          var f := MembersAreFields(members[1..], fields[1..], i - 1);
          assert fields[1..][f] == fields[f + 1];
        }
        FirstApart(members);
      }
    }
  }

  lemma FirstApart(members: seq<Member>)
    requires members != [] && MemberLabels(members[1..])
    requires forall i :: 0 < i < |members| ==> Label(members[0].id) != Label(members[i].id)
    ensures MemberLabels(members)
  {
    forall i, j | 0 <= i < j < |members| ensures Label(members[i].id) != Label(members[j].id) {
      if i > 0 {
        assert members[i] == members[1..][i - 1] && members[j] == members[1..][j - 1];
      }
    }
  }

  /** Each member stands under its label, and nothing else is there. */
  ghost predicate Publishes(m: map<string, Json>, members: seq<Member>) {
    && (forall i :: 0 <= i < |members| ==> Label(members[i].id) in m && m[Label(members[i].id)] == ToJson(members[i].value))
    && (forall name :: name in m ==> exists i :: 0 <= i < |members| && Label(members[i].id) == name)
  }

  lemma OneMoreMember(m: map<string, Json>, front: seq<Member>, member: Member)
    requires Publishes(m, front) && MemberLabels(front + [member])
    ensures Publishes(m[Label(member.id) := ToJson(member.value)], front + [member])
  {
    var members, m' := front + [member], m[Label(member.id) := ToJson(member.value)];
    forall i | 0 <= i < |members| ensures Label(members[i].id) in m' && m'[Label(members[i].id)] == ToJson(members[i].value) {
      if i < |front| {
        assert members[i] == front[i] && Label(members[i].id) != Label(members[|front|].id);
      }
    }
    forall name | name in m' ensures exists i :: 0 <= i < |members| && Label(members[i].id) == name {
      if name == Label(member.id) {
        assert members[|front|] == member;
      } else {
        var i :| 0 <= i < |front| && Label(front[i].id) == name;
        assert members[i] == front[i];
      }
    }
  }

  lemma {:induction false} MembersPublished(members: seq<Member>)
    requires MemberLabels(members)
    ensures Publishes(MembersJson(members), members)
  {
    if members != [] {
      var n := |members| - 1;
      MembersPublished(members[..n]);
      LabelIsKey(members[n].id);
      assert members == members[..n] + [members[n]];
      OneMoreMember(MembersJson(members[..n]), members[..n], members[n]);
    }
  }

  /** What a tree holds under the labels of the remaining fields is the remaining members. */
  ghost predicate Remaining(m: map<string, Json>, members: seq<Member>, fields: seq<Field>) {
    && (forall i :: 0 <= i < |members| ==> Label(members[i].id) in m && m[Label(members[i].id)] == ToJson(members[i].value))
    && (forall f :: 0 <= f < |fields| && Label(fields[f].id) in m ==> exists i :: 0 <= i < |members| && members[i].id == fields[f].id)
  }

  lemma SkipField(m: map<string, Json>, members: seq<Member>, fields: seq<Field>)
    requires fields != [] && HasFields(members, fields) && DistinctLabels(fields) && Remaining(m, members, fields)
    requires members == [] || members[0].id != fields[0].id
    ensures Label(fields[0].id) !in m && Remaining(m, members, fields[1..]) && DistinctLabels(fields[1..])
  {
    var rest := fields[1..];
    assert forall f :: 0 <= f < |rest| ==> rest[f] == fields[f + 1];
    if Label(fields[0].id) in m {
      var i :| 0 <= i < |members| && members[i].id == fields[0].id;
      var f := MembersAreFields(members, rest, i);
      assert false;
    }
  }

  lemma TakeField(m: map<string, Json>, members: seq<Member>, fields: seq<Field>)
    requires fields != [] && members != [] && DistinctLabels(fields) && Remaining(m, members, fields)
    requires members[0].id == fields[0].id
    ensures Remaining(m, members[1..], fields[1..]) && DistinctLabels(fields[1..])
  {
    var rest, others := fields[1..], members[1..];
    assert forall f :: 0 <= f < |rest| ==> rest[f] == fields[f + 1];
    forall f | 0 <= f < |rest| && Label(rest[f].id) in m ensures exists i :: 0 <= i < |others| && others[i].id == rest[f].id {
      var i :| 0 <= i < |members| && members[i].id == fields[f + 1].id;
      assert i > 0 && others[i - 1] == members[i];
    }
  }

  lemma {:induction false} FieldsBack(m: map<string, Json>, members: seq<Member>, fields: seq<Field>)
    requires HasFields(members, fields) && DistinctLabels(fields) && Remaining(m, members, fields)
    ensures ReadFields(fields, m) == Some(members)
    decreases fields, 0
  {
    if fields != [] {
      if members != [] && members[0].id == fields[0].id {
        TakeField(m, members, fields);
        FieldsBack(m, members[1..], fields[1..]);
        FieldBack(fields[0], members[0].value);
        assert [Member(fields[0].id, members[0].value)] + members[1..] == members;
      } else {
        SkipField(m, members, fields);
        FieldsBack(m, members, fields[1..]);
      }
    }
  }

  lemma {:induction false} FieldBack(f: Field, v: Value)
    requires Holds(f, v)
    ensures ReadField(f, ToJson(v)) == Some(v)
    decreases f
  {
    ReadsBack(f.kind, v);
  }

  lemma {:induction false} StructBack(members: seq<Member>, fields: seq<Field>)
    requires HasFields(members, fields) && DistinctLabels(fields)
    ensures ReadFields(fields, MembersJson(members)) == Some(members)
    decreases fields, 1
  {
    MembersDistinct(members, fields);
    MembersPublished(members);
    var m := MembersJson(members);
    forall f | 0 <= f < |fields| && Label(fields[f].id) in m ensures exists i :: 0 <= i < |members| && members[i].id == fields[f].id {
      var i :| 0 <= i < |members| && Label(members[i].id) == Label(fields[f].id);
      var g := MembersAreFields(members, fields, i);
      assert g == f;
    }
    FieldsBack(m, members, fields);
  }

  // ---------------------------------------------------------------------
  // Whole values
  // ---------------------------------------------------------------------

  lemma OneMoreItem(item: Kind, front: seq<Json>, j: Json, vs: seq<Value>, v: Value)
    requires ReadItems(item, front) == Some(vs) && Read(item, j) == Some(v)
    ensures ReadItems(item, front + [j]) == Some(vs + [v])
  {
    assert (front + [j])[..|front|] == front;
  }

  lemma OneMoreEntry(key: Kind, value: Kind, front: seq<Json>, a: Json, b: Json, es: seq<Entry>, k: Value, v: Value)
    requires ReadEntries(key, value, front) == Some(es) && Read(key, a) == Some(k) && Read(value, b) == Some(v)
    ensures ReadEntries(key, value, front + [Array([a, b])]) == Some(es + [Entry(k, v)])
  {
    assert (front + [Array([a, b])])[..|front|] == front;
  }

  lemma {:induction false} ItemsBack(item: Kind, items: seq<Value>)
    requires forall i :: 0 <= i < |items| ==> HasKind(items[i], item)
    ensures ReadItems(item, ItemsJson(items)) == Some(items)
    decreases item, 2, |items|
  {
    if items != [] {
      var n := |items| - 1;
      ItemsBack(item, items[..n]);
      ReadsBack(item, items[n]);
      OneMoreItem(item, ItemsJson(items[..n]), ToJson(items[n]), items[..n], items[n]);
      assert items[..n] + [items[n]] == items;
    }
  }

  lemma {:induction false} EntriesBack(key: Kind, value: Kind, entries: seq<Entry>)
    requires forall i :: 0 <= i < |entries| ==> HasKind(entries[i].key, key) && HasKind(entries[i].value, value)
    ensures ReadEntries(key, value, EntriesJson(entries)) == Some(entries)
    decreases MapKind(key, value), 0, |entries|
  {
    if entries != [] {
      var n := |entries| - 1;
      EntriesBack(key, value, entries[..n]);
      ReadsBack(key, entries[n].key);
      ReadsBack(value, entries[n].value);
      var e := entries[n];
      OneMoreEntry(key, value, EntriesJson(entries[..n]), ToJson(e.key), ToJson(e.value), entries[..n], e.key, e.value);
      assert entries[..n] + [Entry(e.key, e.value)] == entries;
    }
  }

  /** Every value is read back from its tree by its type. */
  lemma {:induction false} ReadsBack(k: Kind, v: Value)
    requires HasKind(v, k)
    ensures Read(k, ToJson(v)) == Some(v)
    decreases k, 1, 0
  {
    match k
    case BoolKind =>
    case IntKind =>
    case DoubleKind => DoubleBack(v.scalar.d);
    case StringKind =>
    case BytesKind => BytesBack(v.scalar.bytes);
    case StructKind(fields) => StructBack(v.members, fields);
    case ListKind(item) => ItemsBack(item, v.items);
    case SetKind(element) => ItemsBack(element, v.elements);
    case MapKind(key, value) => EntriesBack(key, value, v.entries);
  }

  /** The protocol's tree tells any two values of one type apart. */
  lemma TreeDetermines(k: Kind, v: Value, w: Value)
    requires HasKind(v, k) && HasKind(w, k) && Run(State([], None), Events(v)) == Run(State([], None), Events(w))
    ensures v == w
  {
    NamedJsonOf(v);
    NamedJsonOf(w);
    ReadsBack(k, v);
    ReadsBack(k, w);
  }

  // ---------------------------------------------------------------------
  // What the unique-id pass changes
  // ---------------------------------------------------------------------

  datatype Step = Key(k: string) | Index(i: nat)

  ghost predicate IsId(j: Json, hi: int, lo: int) {
    I64_MIN <= hi <= I64_MAX && I64_MIN <= lo <= I64_MAX && j == Object(map["hi" := Int(hi), "lo" := Int(lo)])
  }

  ghost predicate SomeId(j: Json) {
    exists hi, lo :: IsId(j, hi, lo)
  }

  /** The node at the end of a path that goes through no unique id. */
  ghost function NodeAt(j: Json, path: seq<Step>): Option<Json> {
    if path == [] then Some(j)
    else
      match path[0]
      case Key(k) => if j.Object? && !SomeId(j) && k in j.fields then NodeAt(j.fields[k], path[1..]) else None
      case Index(i) => if j.Array? && i < |j.items| then NodeAt(j.items[i], path[1..]) else None
  }

  /** A unique id became its text; anything else kept its shape. */
  ghost predicate Replaced(x: Json, y: Json) {
    if SomeId(x) then y.Str? && x.Object? && exists hi, lo :: IsId(x, hi, lo) && SpellsUuid(y.s, hi, lo)
    else match x
      case Object(fields) => y.Object? && y.fields.Keys == fields.Keys
      case Array(items) => y.Array? && |y.items| == |items|
      case _ => y == x
  }

  lemma RewritesId(j: Json, hi: int, lo: int)
    requires IsId(j, hi, lo)
    ensures RewriteUniqueIds(j).Str? && SpellsUuid(RewriteUniqueIds(j).s, hi, lo)
  {
    var children := map k | k in j.fields :: RewriteUniqueIds(j.fields[k]);
    assert children == j.fields;
    NamesDiffer();
    UniqueIdExactly(children);
    assert children["hi"] == Int(hi) && children["lo"] == Int(lo);
  }

  lemma NamesDiffer()
    ensures "hi" != "lo"
  {
    assert "hi"[0] != "lo"[0];
  }

  /** Only a unique id has children that form one. */
  lemma IdChildren(j: Json, children: map<string, Json>)
    requires j.Object? && children.Keys == j.fields.Keys && MaybeUuid(children).Some?
    requires forall k :: k in children ==> children[k] == RewriteUniqueIds(j.fields[k])
    ensures SomeId(j)
  {
    UniqueIdExactly(children);
    var hi, lo :| I64_MIN <= hi <= I64_MAX && I64_MIN <= lo <= I64_MAX && children == map["hi" := Int(hi), "lo" := Int(lo)];
    NamesDiffer();
    assert children["hi"] == Int(hi) && children["lo"] == Int(lo);
    OnlyInts(j.fields["hi"], hi);
    OnlyInts(j.fields["lo"], lo);
    assert j.fields == children;
    assert IsId(j, hi, lo);
  }

  lemma KeepsOthers(j: Json)
    requires j.Object? && !SomeId(j)
    ensures var r := RewriteUniqueIds(j);
            r.Object? && r.fields.Keys == j.fields.Keys && forall k :: k in j.fields ==> r.fields[k] == RewriteUniqueIds(j.fields[k])
  {
    var children := map k | k in j.fields :: RewriteUniqueIds(j.fields[k]);
    if MaybeUuid(children).Some? {
      IdChildren(j, children);
    }
  }

  lemma OnlyInts(j: Json, i: int)
    requires RewriteUniqueIds(j) == Int(i)
    ensures j == Int(i)
  {
  }

  lemma ReplacesHere(j: Json)
    ensures Replaced(j, RewriteUniqueIds(j))
  {
    if hi, lo :| IsId(j, hi, lo) {
      RewritesId(j, hi, lo);
    } else if j.Object? {
      KeepsOthers(j);
    }
  }

  /** The pass replaces each unique id where it stands and nothing else: every other node keeps its place, and leaves their value. */
  lemma {:induction false} ReplacesInPlace(j: Json, path: seq<Step>)
    requires NodeAt(j, path).Some?
    ensures NodeAt(RewriteUniqueIds(j), path).Some?
    ensures Replaced(NodeAt(j, path).value, NodeAt(RewriteUniqueIds(j), path).value)
  {
    if path == [] {
      ReplacesHere(j);
    } else {
      match path[0]
      case Key(k) =>
        KeepsOthers(j);
        RewriteRemovesUniqueIds(j);
        NoIdLeft(RewriteUniqueIds(j));
        ReplacesInPlace(j.fields[k], path[1..]);
      case Index(i) =>
        ReplacesInPlace(j.items[i], path[1..]);
    }
  }

  lemma NoIdLeft(j: Json)
    requires NoUniqueIds(j)
    ensures !SomeId(j)
  {
    if hi, lo :| IsId(j, hi, lo) {
      assert j.fields == map["hi" := Int(hi), "lo" := Int(lo)];
      UniqueIdExactly(j.fields);
    }
  }
}
