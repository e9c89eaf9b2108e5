/**
 The named-JSON Thrift output protocol: a stack machine that turns a stream of write events
 into a JSON tree, and the pass that later replaces `{hi, lo}` objects by UUID text.
 */
module ThriftJson {
  import opened Common
  import DecimalText

  // ---------------------------------------------------------------------
  // Values
  // ---------------------------------------------------------------------

  datatype Json =
    | Null
    | Bool(b: bool)
    | Int(i: int)
    | Float(r: real)
    | Str(s: string)
    | Array(items: seq<Json>)
    | Object(fields: map<string, Json>)

  datatype Double = Finite(r: real) | NotANumber | PositiveInfinity | NegativeInfinity

  datatype FieldId = FieldId(name: Option<string>, id: Option<int>)

  /** The leaf arguments of the protocol's scalar write calls. */
  datatype Scalar =
    | BoolScalar(b: bool)
    | IntScalar(i: int) // `write_i8` to `write_i64`, and `write_byte`
    | DoubleScalar(d: Double)
    | StringScalar(s: string)
    | BytesScalar(bytes: seq<bv8>)

  /** A Thrift value as generated serializers walk it. */
  datatype Value =
    | Leaf(scalar: Scalar)
    | Struct(members: seq<Member>)
    | List(items: seq<Value>)
    | Set(elements: seq<Value>)
    | Map(entries: seq<Entry>)

  datatype Member = Member(id: FieldId, value: Value)

  datatype Entry = Entry(key: Value, value: Value)

  datatype Event =
    | MessageBegin | MessageEnd
    | StructBegin | StructEnd
    | FieldBegin(field: FieldId) | FieldEnd | FieldStop
    | ListBegin(listSize: nat) | ListEnd
    | SetBegin(setSize: nat) | SetEnd
    | MapBegin(mapSize: nat) | MapEnd
    | Write(scalar: Scalar)
    | Flush

  // ---------------------------------------------------------------------
  // Direct recursive translation, the meaning of a value
  // ---------------------------------------------------------------------

  function HexDigit(d: bv8): char
    requires d < 16
  {
    "0123456789abcdef"[d as int]
  }

  function HexPair(b: bv8): string {
    [HexDigit(b >> 4), HexDigit(b & 15)]
  }

  function Hex(bytes: seq<bv8>): string {
    if bytes == [] then "" else HexPair(bytes[0]) + Hex(bytes[1..])
  }

  function ScalarJson(v: Scalar): Json {
    match v
    case BoolScalar(b) => Bool(b)
    case IntScalar(i) => Int(i)
    case DoubleScalar(Finite(r)) => Float(r)
    case DoubleScalar(NotANumber) => Str("NaN")
    case DoubleScalar(PositiveInfinity) => Str("inf")
    case DoubleScalar(NegativeInfinity) => Str("-inf")
    case StringScalar(s) => Str(s)
    case BytesScalar(bytes) => Str("0x" + Hex(bytes))
  }

  /** The JSON name of a field: its name, else `field_<id>`, else nothing. */
  function FieldName(f: FieldId): Option<string> {
    if f.name.Some? then f.name
    else if f.id.Some? then Some("field_" + DecimalText.PrintInt(f.id.value))
    else None
  }

  function FieldKey(name: Option<string>): string {
    if name.Some? then name.value else "__unknown_field__"
  }

  function ToJson(v: Value): Json
    decreases v
  {
    match v
    case Leaf(scalar) => ScalarJson(scalar)
    case Struct(members) => Object(MembersJson(members))
    case List(items) => Array(ItemsJson(items))
    case Set(elements) => Array(ItemsJson(elements))
    case Map(entries) => Array(EntriesJson(entries))
  }

  /** A repeated key keeps the last value written. */
  function MembersJson(members: seq<Member>): map<string, Json>
    decreases members
  {
    if members == [] then map[]
    else
      var n := |members| - 1;
      MembersJson(members[..n])[FieldKey(FieldName(members[n].id)) := MemberJson(members[n])]
  }

  function MemberJson(m: Member): Json
    decreases m
  {
    ToJson(m.value)
  }

  function ItemsJson(items: seq<Value>): seq<Json>
    decreases items
  {
    if items == [] then [] else ItemsJson(items[..|items| - 1]) + [ToJson(items[|items| - 1])]
  }

  function EntriesJson(entries: seq<Entry>): seq<Json>
    decreases entries
  {
    if entries == [] then []
    else
      var n := |entries| - 1;
      EntriesJson(entries[..n]) + [EntryJson(entries[n])]
  }

  function EntryJson(e: Entry): Json
    decreases e
  {
    Array([ToJson(e.key), ToJson(e.value)])
  }

  // ---------------------------------------------------------------------
  // The events a generated serializer emits
  // ---------------------------------------------------------------------

  function Events(v: Value): seq<Event>
    decreases v
  {
    match v
    case Leaf(scalar) => [Write(scalar)]
    case Struct(members) => [StructBegin] + (MemberEvents(members) + [FieldStop]) + [StructEnd]
    case List(items) => [ListBegin(|items|)] + ItemEvents(items) + [ListEnd]
    case Set(elements) => [SetBegin(|elements|)] + ItemEvents(elements) + [SetEnd]
    case Map(entries) => [MapBegin(|entries|)] + EntryEvents(entries) + [MapEnd]
  }

  function MemberEvents(members: seq<Member>): seq<Event>
    decreases members
  {
    if members == [] then []
    else
      var n := |members| - 1;
      MemberEvents(members[..n]) + OneMemberEvents(members[n])
  }

  function OneMemberEvents(m: Member): seq<Event>
    decreases m
  {
    [FieldBegin(m.id)] + Events(m.value) + [FieldEnd]
  }

  function ItemEvents(items: seq<Value>): seq<Event>
    decreases items
  {
    if items == [] then [] else ItemEvents(items[..|items| - 1]) + Events(items[|items| - 1])
  }

  function EntryEvents(entries: seq<Entry>): seq<Event>
    decreases entries
  {
    if entries == [] then []
    else
      var n := |entries| - 1;
      EntryEvents(entries[..n]) + OneEntryEvents(entries[n])
  }

  function OneEntryEvents(e: Entry): seq<Event>
    decreases e
  {
    Events(e.key) + Events(e.value)
  }

  // ---------------------------------------------------------------------
  // The protocol's state and steps
  // ---------------------------------------------------------------------

  datatype Container =
    | StructFrame(fields: map<string, Json>, currentField: Option<string>)
    | ListFrame(items: seq<Json>)
    | SetFrame(items: seq<Json>)
    | MapFrame(entries: seq<(Json, Json)>, pendingKey: Option<Json>)

  datatype State = State(stack: seq<Container>, root: Option<Json>)

  /** A value lands in the innermost open container, or becomes the root. */
  function Push(st: State, v: Json): State {
    if st.stack == [] then st.(root := Some(v))
    else
      var n := |st.stack| - 1;
      st.(stack := st.stack[..n] + [PushInto(st.stack[n], v)])
  }

  function PushInto(c: Container, v: Json): Container {
    match c
    case StructFrame(fields, current) => StructFrame(fields[FieldKey(current) := v], None)
    case ListFrame(items) => ListFrame(items + [v])
    case SetFrame(items) => SetFrame(items + [v])
    case MapFrame(entries, None) => MapFrame(entries, Some(v))
    case MapFrame(entries, Some(key)) => MapFrame(entries + [(key, v)], None)
  }

  function PairArrays(entries: seq<(Json, Json)>): seq<Json> {
    seq(|entries|, i requires 0 <= i < |entries| => Array([entries[i].0, entries[i].1]))
  }

  /** The value a container stands for when it is closed. */
  function Closed(c: Container): Json {
    match c
    case StructFrame(fields, _) => Object(fields)
    case ListFrame(items) => Array(items)
    case SetFrame(items) => Array(items)
    case MapFrame(entries, None) => Array(PairArrays(entries))
    case MapFrame(entries, Some(key)) => Array(PairArrays(entries) + [Array([key, Null])])
  }

  /** Closing with nothing open yields null. */
  function Close(st: State): State {
    if st.stack == [] then Push(st, Null)
    else
      var n := |st.stack| - 1;
      Push(st.(stack := st.stack[..n]), Closed(st.stack[n]))
  }

  function Open(st: State, c: Container): State {
    st.(stack := st.stack + [c])
  }

  /** A field header only matters directly inside a struct. */
  function BeginField(st: State, f: FieldId): State {
    if st.stack != [] && st.stack[|st.stack| - 1].StructFrame? then
      var n := |st.stack| - 1;
      st.(stack := st.stack[..n] + [st.stack[n].(currentField := FieldName(f))])
    else st
  }

  function Step(st: State, e: Event): State {
    match e
    case StructBegin => Open(st, StructFrame(map[], None))
    case ListBegin(_) => Open(st, ListFrame([]))
    case SetBegin(_) => Open(st, SetFrame([]))
    case MapBegin(_) => Open(st, MapFrame([], None))
    case StructEnd => Close(st)
    case ListEnd => Close(st)
    case SetEnd => Close(st)
    case MapEnd => Close(st)
    case FieldBegin(f) => BeginField(st, f)
    case Write(scalar) => Push(st, ScalarJson(scalar))
    case MessageBegin => st
    case MessageEnd => st
    case FieldEnd => st
    case FieldStop => st
    case Flush => st
  }

  function Run(st: State, events: seq<Event>): State {
    if events == [] then st else Step(Run(st, events[..|events| - 1]), events[|events| - 1])
  }

  /** The protocol object itself; `Abs()` is its abstract value. */
  class NamedJsonOutputProtocol {
    var stack: seq<Container>
    var root: Option<Json>

    ghost function Abs(): State
      reads this
    {
      State(stack, root)
    }

    constructor ()
      ensures Abs() == State([], None)
    {
      stack := [];
      root := None;
    }

    method PushValue(v: Json)
      modifies this
      ensures Abs() == Push(old(Abs()), v)
    {
      if stack == [] {
        root := Some(v);
        return;
      }
      var n := |stack| - 1;
      var top := stack[n];
      match top {
        case StructFrame(fields, current) =>
          var key := if current.Some? then current.value else "__unknown_field__";
          top := StructFrame(fields[key := v], None);
        case ListFrame(items) =>
          top := ListFrame(items + [v]);
        case SetFrame(items) =>
          top := SetFrame(items + [v]);
        case MapFrame(entries, pending) =>
          if pending.None? {
            top := MapFrame(entries, Some(v));
          } else {
            top := MapFrame(entries + [(pending.value, v)], None);
          }
      }
      stack := stack[..n] + [top];
    }

    method PopContainerValue() returns (v: Json)
      modifies this`stack
      ensures old(stack) == [] ==> v == Null && stack == []
      ensures old(stack) != [] ==>
                var n := |old(stack)| - 1;
                v == Closed(old(stack)[n]) && stack == old(stack)[..n]
    {
      if stack == [] {
        return Null;
      }
      var n := |stack| - 1;
      var top := stack[n];
      stack := stack[..n];
      match top {
        case StructFrame(fields, _) => v := Object(fields);
        case ListFrame(items) => v := Array(items);
        case SetFrame(items) => v := Array(items);
        case MapFrame(entries, pending) =>
          var arr: seq<Json> := [];
          for i := 0 to |entries|
            invariant arr == PairArrays(entries)[..i]
          {
            arr := arr + [Array([entries[i].0, entries[i].1])];
          }
          assert arr == PairArrays(entries);
          if pending.Some? {
            arr := arr + [Array([pending.value, Null])];
          }
          v := Array(arr);
      }
    }

    /** One protocol call. */
    method Emit(e: Event)
      modifies this
      ensures Abs() == Step(old(Abs()), e)
    {
      match e {
        case StructBegin => stack := stack + [StructFrame(map[], None)];
        case ListBegin(_) => stack := stack + [ListFrame([])];
        case SetBegin(_) => stack := stack + [SetFrame([])];
        case MapBegin(_) => stack := stack + [MapFrame([], None)];
        case StructEnd => var v := PopContainerValue(); PushValue(v);
        case ListEnd => var v := PopContainerValue(); PushValue(v);
        case SetEnd => var v := PopContainerValue(); PushValue(v);
        case MapEnd => var v := PopContainerValue(); PushValue(v);
        case FieldBegin(f) =>
          if stack != [] && stack[|stack| - 1].StructFrame? {
            var n := |stack| - 1;
            stack := stack[..n] + [stack[n].(currentField := FieldName(f))];
          }
        case Write(scalar) => PushValue(ScalarJson(scalar));
        case _ =>
      }
    }
  }

  // ---------------------------------------------------------------------
  // Running the events of a value is pushing its translation
  // ---------------------------------------------------------------------

  lemma {:induction false} RunConcat(st: State, a: seq<Event>, b: seq<Event>)
    ensures Run(st, a + b) == Run(Run(st, a), b)
  {
    if b == [] {
      assert a + b == a;
    } else {
      RunConcat(st, a, b[..|b| - 1]);
      assert (a + b)[..|a + b| - 1] == a + b[..|b| - 1];
    }
  }

  lemma RunOne(st: State, e: Event)
    ensures Run(st, [e]) == Step(st, e)
  {
    assert [e][..0] == [];
    assert Run(st, []) == st;
  }

  lemma PushOpened(st: State, c: Container, v: Json)
    ensures Push(Open(st, c), v) == Open(st, PushInto(c, v))
  {
    assert (st.stack + [c])[..|st.stack|] == st.stack;
  }

  lemma CloseOpened(st: State, c: Container)
    ensures Close(Open(st, c)) == Push(st, Closed(c))
  {
    assert (st.stack + [c])[..|st.stack|] == st.stack;
  }

  /** For every value and every starting stack, the value's write events act like one push. */
  lemma {:induction false} EventsPushTranslation(st: State, v: Value)
    ensures Run(st, Events(v)) == Push(st, ToJson(v))
    decreases v, 1
  {
    match v
    case Leaf(scalar) =>
      RunOne(st, Write(scalar));
    case Struct(members) =>
      StructEventsPush(st, members);
    case List(items) =>
      ListEventsPush(st, items, ListBegin(|items|), ListFrame([]), ListEnd);
    case Set(elements) =>
      ListEventsPush(st, elements, SetBegin(|elements|), SetFrame([]), SetEnd);
    case Map(entries) =>
      MapEventsPush(st, entries);
  }

  lemma RunBracketed(st: State, open: Event, body: seq<Event>, close: Event)
    ensures Run(st, [open] + body + [close]) == Step(Run(Step(st, open), body), close)
  {
    RunConcat(st, [open] + body, [close]);
    RunConcat(st, [open], body);
    RunOne(st, open);
    RunOne(Run(Step(st, open), body), close);
  }

  lemma {:induction false} StructEventsPush(st: State, members: seq<Member>)
    ensures Run(st, Events(Struct(members))) == Push(st, ToJson(Struct(members)))
    decreases members, 1
  {
    var body, start := MemberEvents(members), StructFrame(map[], None);
    MemberEventsFill(st, members);
    RunConcat(Open(st, start), body, [FieldStop]);
    RunOne(Run(Open(st, start), body), FieldStop);
    BracketCloses(st, StructBegin, start, body + [FieldStop], StructFrame(MembersJson(members), None), StructEnd);
  }

  lemma {:induction false} MapEventsPush(st: State, entries: seq<Entry>)
    ensures Run(st, Events(Map(entries))) == Push(st, ToJson(Map(entries)))
    decreases entries, 1
  {
    var pairs := EntryEventsFill(st, entries);
    BracketCloses(st, MapBegin(|entries|), MapFrame([], None), EntryEvents(entries), MapFrame(pairs, None), MapEnd);
    assert Events(Map(entries)) == [MapBegin(|entries|)] + EntryEvents(entries) + [MapEnd];
    assert Closed(MapFrame(pairs, None)) == Array(EntriesJson(entries));
  }

  /** A frame opened, filled and closed is pushed as one value. */
  lemma BracketCloses(st: State, open: Event, empty: Container, body: seq<Event>, frame: Container, close: Event)
    requires Step(st, open) == Open(st, empty) && Run(Open(st, empty), body) == Open(st, frame)
    requires close == MapEnd || close == StructEnd || close == ListEnd || close == SetEnd
    ensures Run(st, [open] + body + [close]) == Push(st, Closed(frame))
  {
    RunBracketed(st, open, body, close);
    CloseOpened(st, frame);
  }

  lemma {:induction false} ListEventsPush(st: State, items: seq<Value>, open: Event, frame: Container, close: Event)
    requires frame == ListFrame([]) || frame == SetFrame([])
    requires Step(st, open) == Open(st, frame)
    requires close == ListEnd || close == SetEnd
    ensures Run(st, [open] + ItemEvents(items) + [close]) == Push(st, Array(ItemsJson(items)))
    decreases items, 1
  {
    ItemEventsFill(st, items, frame);
    BracketCloses(st, open, frame, ItemEvents(items), frame.(items := ItemsJson(items)), close);
  }

  lemma {:induction false} MemberEventsFill(st: State, members: seq<Member>)
    ensures Run(Open(st, StructFrame(map[], None)), MemberEvents(members))
         == Open(st, StructFrame(MembersJson(members), None))
    decreases members, 0
  {
    if members == [] { return; }
    var n := |members| - 1;
    var front := members[..n];
    RunConcat(Open(st, StructFrame(map[], None)), MemberEvents(front), OneMemberEvents(members[n]));
    MemberEventsFill(st, front);
    OneMemberFill(st, StructFrame(MembersJson(front), None), members[n]);
  }

  lemma {:induction false} OneMemberFill(st: State, frame: Container, m: Member)
    requires frame.StructFrame?
    ensures Run(Open(st, frame), OneMemberEvents(m))
         == Open(st, StructFrame(frame.fields[FieldKey(FieldName(m.id)) := MemberJson(m)], None))
    decreases m, 0
  {
    var named := frame.(currentField := FieldName(m.id));
    RunBracketed(Open(st, frame), FieldBegin(m.id), Events(m.value), FieldEnd);
    BeginFieldOpened(st, frame, m.id);
    EventsPushTranslation(Open(st, named), m.value);
    PushOpened(st, named, ToJson(m.value));
  }

  lemma BeginFieldOpened(st: State, frame: Container, id: FieldId)
    requires frame.StructFrame?
    ensures BeginField(Open(st, frame), id) == Open(st, frame.(currentField := FieldName(id)))
  {
    assert (st.stack + [frame])[..|st.stack|] == st.stack;
  }

  lemma {:induction false} ItemEventsFill(st: State, items: seq<Value>, frame: Container)
    requires frame == ListFrame([]) || frame == SetFrame([])
    ensures Run(Open(st, frame), ItemEvents(items)) == Open(st, frame.(items := ItemsJson(items)))
    decreases items, 0
  {
    if items == [] { return; }
    var n := |items| - 1;
    var front, v := items[..n], items[n];
    RunConcat(Open(st, frame), ItemEvents(front), Events(v));
    ItemEventsFill(st, front, frame);
    var filled := frame.(items := ItemsJson(front));
    EventsPushTranslation(Open(st, filled), v);
    PushOpened(st, filled, ToJson(v));
  }

  /** Map entries arrive as alternating keys and values, of any shape. */
  lemma {:induction false} EntryEventsFill(st: State, entries: seq<Entry>) returns (pairs: seq<(Json, Json)>)
    ensures Run(Open(st, MapFrame([], None)), EntryEvents(entries)) == Open(st, MapFrame(pairs, None))
    ensures PairArrays(pairs) == EntriesJson(entries)
    decreases entries, 0
  {
    if entries == [] { return []; }
    var n := |entries| - 1;
    var front := entries[..n];
    RunConcat(Open(st, MapFrame([], None)), EntryEvents(front), OneEntryEvents(entries[n]));
    var before := EntryEventsFill(st, front);
    OneEntryFill(st, before, entries[n]);
    pairs := before + [(ToJson(entries[n].key), ToJson(entries[n].value))];
    assert PairArrays(pairs) == PairArrays(before) + [EntryJson(entries[n])];
  }

  lemma {:induction false} OneEntryFill(st: State, pairs: seq<(Json, Json)>, e: Entry)
    ensures Run(Open(st, MapFrame(pairs, None)), OneEntryEvents(e))
         == Open(st, MapFrame(pairs + [(ToJson(e.key), ToJson(e.value))], None))
    decreases e, 0
  {
    var filled := Open(st, MapFrame(pairs, None));
    RunConcat(filled, Events(e.key), Events(e.value));
    EventsPushTranslation(filled, e.key);
    PushOpened(st, MapFrame(pairs, None), ToJson(e.key));
    var keyed := MapFrame(pairs, Some(ToJson(e.key)));
    EventsPushTranslation(Open(st, keyed), e.value);
    PushOpened(st, keyed, ToJson(e.value));
  }

  // ---------------------------------------------------------------------
  // Unique ids
  // ---------------------------------------------------------------------

  /** Lower-case hexadecimal digits of `n`, padded to `width`. */
  function HexFixed(n: nat, width: nat): (s: string)
    ensures |s| == width
  {
    if width == 0 then "" else HexFixed(n / 16, width - 1) + ["0123456789abcdef"[n % 16]]
  }

  function AsU64(v: int): (u: nat)
    requires I64_MIN <= v <= I64_MAX
  {
    if v < 0 then v + 0x1_0000_0000_0000_0000 else v
  }

  function FormatUuid(hi: int, lo: int): string
    requires I64_MIN <= hi <= I64_MAX && I64_MIN <= lo <= I64_MAX
  {
    var h, l := AsU64(hi), AsU64(lo);
    HexFixed(h / 0x1_0000_0000, 8)
    + ("-" + HexFixed(h / 0x1_0000 % 0x1_0000, 4)
       + ("-" + HexFixed(h % 0x1_0000, 4)
          + ("-" + HexFixed(l / 0x1_0000_0000_0000, 4)
             + ("-" + HexFixed(l % 0x1_0000_0000_0000, 12)))))
  }

  /** Present exactly for a two-field object whose `hi` and `lo` are 64-bit integers. */
  function MaybeUuid(fields: map<string, Json>): Option<string> {
    if |fields| != 2 || "hi" !in fields || "lo" !in fields then None
    else
      var hi, lo := AsI64(fields["hi"]), AsI64(fields["lo"]);
      if hi.Some? && lo.Some? then Some(FormatUuid(hi.value, lo.value)) else None
  }

  function AsI64(j: Json): (r: Option<int>)
    ensures r.Some? ==> I64_MIN <= r.value <= I64_MAX
  {
    if j.Int? && I64_MIN <= j.i <= I64_MAX then Some(j.i) else None
  }

  /** Children first, then the object itself. */
  function RewriteUniqueIds(j: Json): Json {
    match j
    case Object(fields) =>
      var children := map k | k in fields :: RewriteUniqueIds(fields[k]);
      var uuid := MaybeUuid(children);
      if uuid.Some? then Str(uuid.value) else Object(children)
    case Array(items) => Array(seq(|items|, i requires 0 <= i < |items| => RewriteUniqueIds(items[i])))
    case _ => j
  }

  /** No object anywhere in the tree still looks like a unique id. */
  ghost predicate NoUniqueIds(j: Json) {
    match j
    case Object(fields) => MaybeUuid(fields).None? && forall k :: k in fields ==> NoUniqueIds(fields[k])
    case Array(items) => forall i :: 0 <= i < |items| ==> NoUniqueIds(items[i])
    case _ => true
  }

  lemma {:induction false} RewriteRemovesUniqueIds(j: Json)
    ensures NoUniqueIds(RewriteUniqueIds(j))
  {
    match j
    case Object(fields) =>
      forall k | k in fields
        ensures NoUniqueIds(RewriteUniqueIds(fields[k]))
      {
        RewriteRemovesUniqueIds(fields[k]);
      }
    case Array(items) =>
      forall i | 0 <= i < |items|
        ensures NoUniqueIds(RewriteUniqueIds(items[i]))
      {
        RewriteRemovesUniqueIds(items[i]);
      }
    case _ =>
  }

  /** A tree without unique ids is left alone. */
  lemma {:induction false} RewriteFixpoint(j: Json)
    requires NoUniqueIds(j)
    ensures RewriteUniqueIds(j) == j
  {
    match j
    case Object(fields) =>
      var children := map k | k in fields :: RewriteUniqueIds(fields[k]);
      forall k | k in fields
        ensures children[k] == fields[k]
      {
        RewriteFixpoint(fields[k]);
      }
      assert children == fields;
    case Array(items) =>
      forall i | 0 <= i < |items|
        ensures RewriteUniqueIds(items[i]) == items[i]
      {
        RewriteFixpoint(items[i]);
      }
      assert RewriteUniqueIds(j).items == items;
    case _ =>
  }

  /** The rewrite changes a tree exactly when the tree holds a unique id, and once is enough. */
  lemma RewriteIdempotent(j: Json)
    ensures RewriteUniqueIds(RewriteUniqueIds(j)) == RewriteUniqueIds(j)
    ensures RewriteUniqueIds(j) == j <==> NoUniqueIds(j)
  {
    RewriteRemovesUniqueIds(j);
    RewriteFixpoint(RewriteUniqueIds(j));
    if NoUniqueIds(j) {
      RewriteFixpoint(j);
    }
  }

  function DigitOfHex(c: char): nat {
    if '0' <= c <= '9' then (c - '0') as nat else if 'a' <= c <= 'f' then (c - 'a') as nat + 10 else 0
  }

  predicate IsHex(s: string) {
    forall i :: 0 <= i < |s| ==> '0' <= s[i] <= '9' || 'a' <= s[i] <= 'f'
  }

  /** The number a hexadecimal text spells. */
  function HexValue(s: string): nat {
    if s == "" then 0 else 16 * HexValue(s[..|s| - 1]) + DigitOfHex(s[|s| - 1])
  }

  function Pow16(e: nat): (p: nat)
    ensures p > 0
  {
    if e == 0 then 1 else 16 * Pow16(e - 1)
  }

  /** A 64-bit word read as a signed number. */
  function AsSigned(u: nat): int {
    if u < 0x8000_0000_0000_0000 then u else u - 0x1_0000_0000_0000_0000
  }

  /** The layout of a UUID text: five dashed groups whose digits are `hi` and then `lo`. */
  ghost predicate SpellsUuid(s: string, hi: int, lo: int) {
    && |s| == 36 && s[8] == '-' && s[13] == '-' && s[18] == '-' && s[23] == '-'
    && var high, low := s[..8] + s[9..13] + s[14..18], s[19..23] + s[24..];
       IsHex(high) && IsHex(low) && AsSigned(HexValue(high)) == hi && AsSigned(HexValue(low)) == lo
  }

  lemma OneHexDigit(n: nat)
    requires n < 16
    ensures var c := "0123456789abcdef"[n]; IsHex([c]) && DigitOfHex(c) == n
  {
  }

  lemma {:induction false} HexReadsBack(n: nat, width: nat)
    requires n < Pow16(width)
    ensures IsHex(HexFixed(n, width)) && HexValue(HexFixed(n, width)) == n
  {
    if width > 0 {
      HexReadsBack(n / 16, width - 1);
      OneHexDigit(n % 16);
      var s, front := HexFixed(n, width), HexFixed(n / 16, width - 1);
      assert s[..width - 1] == front && [s[width - 1]] == ["0123456789abcdef"[n % 16]];
      assert forall i :: 0 <= i < width - 1 ==> s[i] == front[i];
    }
  }

  lemma {:induction false} HexJoin(a: string, b: string)
    ensures HexValue(a + b) == HexValue(a) * Pow16(|b|) + HexValue(b)
  {
    if b == "" {
      assert a + b == a;
    } else {
      var front := b[..|b| - 1];
      HexJoin(a, front);
      assert (a + b)[..|a + b| - 1] == a + front;
      TimesSixteen(HexValue(a), Pow16(|front|), HexValue(front), DigitOfHex(b[|b| - 1]));
    }
  }

  lemma TimesSixteen(v: nat, p: nat, x: nat, d: nat)
    ensures 16 * (v * p + x) + d == v * (16 * p) + (16 * x + d)
  {
  }

  lemma UuidGroups(a: string, b: string, c: string, d: string, e: string, s: string)
    requires |a| == 8 && |b| == 4 && |c| == 4 && |d| == 4 && |e| == 12
    requires s == a + ("-" + b + ("-" + c + ("-" + d + ("-" + e))))
    ensures |s| == 36 && s[8] == '-' && s[13] == '-' && s[18] == '-' && s[23] == '-'
    ensures s[..8] == a && s[9..13] == b && s[14..18] == c && s[19..23] == d && s[24..] == e
  {
  }

  /** A text followed by four more digits. */
  lemma JoinFour(a: string, x: nat, y: nat, b: string)
    requires IsHex(a) && HexValue(a) == x && y < 0x1_0000 && b == HexFixed(y, 4)
    ensures IsHex(a + b) && HexValue(a + b) == x * 0x1_0000 + y
  {
    Pow16Values();
    HexReadsBack(y, 4);
    HexJoin(a, b);
  }

  lemma HighDigits(h: nat, a: string, b: string, c: string)
    requires h < 0x1_0000_0000_0000_0000 && a == HexFixed(h / 0x1_0000_0000, 8)
    requires b == HexFixed(h / 0x1_0000 % 0x1_0000, 4) && c == HexFixed(h % 0x1_0000, 4)
    ensures IsHex(a + b + c) && HexValue(a + b + c) == h
  {
    Pow16Values();
    var x, y, z := SplitWord(h);
    HexReadsBack(x, 8);
    JoinFour(a, x, y, b);
    JoinFour(a + b, x * 0x1_0000 + y, z, c);
  }

  lemma SplitWord(h: nat) returns (x: nat, y: nat, z: nat)
    requires h < 0x1_0000_0000_0000_0000
    ensures x == h / 0x1_0000_0000 && y == h / 0x1_0000 % 0x1_0000 && z == h % 0x1_0000
    ensures h == (x * 0x1_0000 + y) * 0x1_0000 + z && x < 0x1_0000_0000 && y < 0x1_0000 && z < 0x1_0000
  {
    x, y, z := h / 0x1_0000_0000, h / 0x1_0000 % 0x1_0000, h % 0x1_0000;
    assert h / 0x1_0000 / 0x1_0000 == x;
  }

  lemma LowDigits(l: nat, d: string, e: string)
    requires l < 0x1_0000_0000_0000_0000
    requires d == HexFixed(l / 0x1_0000_0000_0000, 4) && e == HexFixed(l % 0x1_0000_0000_0000, 12)
    ensures IsHex(d + e) && HexValue(d + e) == l
  {
    Pow16Values();
    HexReadsBack(l / 0x1_0000_0000_0000, 4);
    HexReadsBack(l % 0x1_0000_0000_0000, 12);
    HexJoin(d, e);
  }

  /** The digits of a UUID text, read back, are `hi` and then `lo`. */
  lemma UuidReadsBack(hi: int, lo: int)
    requires I64_MIN <= hi <= I64_MAX && I64_MIN <= lo <= I64_MAX
    ensures SpellsUuid(FormatUuid(hi, lo), hi, lo)
  {
    var h, l := AsU64(hi), AsU64(lo);
    var a, b, c := HexFixed(h / 0x1_0000_0000, 8), HexFixed(h / 0x1_0000 % 0x1_0000, 4), HexFixed(h % 0x1_0000, 4);
    var d, e := HexFixed(l / 0x1_0000_0000_0000, 4), HexFixed(l % 0x1_0000_0000_0000, 12);
    UuidGroups(a, b, c, d, e, FormatUuid(hi, lo));
    HighDigits(h, a, b, c);
    LowDigits(l, d, e);
  }

  /** An object is a unique id exactly when it holds two 64-bit integers `hi` and `lo` and nothing else, and its text spells them. */
  lemma UniqueIdExactly(fields: map<string, Json>)
    ensures MaybeUuid(fields).Some? <==>
            exists hi, lo :: I64_MIN <= hi <= I64_MAX && I64_MIN <= lo <= I64_MAX && fields == map["hi" := Int(hi), "lo" := Int(lo)]
    ensures MaybeUuid(fields).Some? ==>
            fields["hi"].Int? && fields["lo"].Int? && SpellsUuid(MaybeUuid(fields).value, fields["hi"].i, fields["lo"].i)
  {
    if MaybeUuid(fields).Some? {
      var hi, lo := fields["hi"].i, fields["lo"].i;
      UuidReadsBack(hi, lo);
      OnlyTwoKeys(fields);
      assert fields == map["hi" := Int(hi), "lo" := Int(lo)];
    }
  }

  lemma OnlyTwoKeys(fields: map<string, Json>)
    requires |fields| == 2 && "hi" in fields && "lo" in fields
    ensures fields.Keys == {"hi", "lo"}
  {
    var rest := fields.Keys - {"hi", "lo"};
    assert "hi" != "lo" by {
      assert "hi"[0] != "lo"[0];
    }
    assert |fields.Keys| == 2 && fields.Keys == {"hi", "lo"} + rest;
    assert |{"hi", "lo"}| == 2;
  }

  /** Different unique ids get different UUID texts. */
  lemma UuidInjective(hi: int, lo: int, hi': int, lo': int)
    requires I64_MIN <= hi <= I64_MAX && I64_MIN <= lo <= I64_MAX
    requires I64_MIN <= hi' <= I64_MAX && I64_MIN <= lo' <= I64_MAX
    requires FormatUuid(hi, lo) == FormatUuid(hi', lo')
    ensures hi == hi' && lo == lo'
  {
    UuidReadsBack(hi, lo);
    UuidReadsBack(hi', lo');
  }

  lemma Pow16Values()
    ensures Pow16(4) == 0x1_0000 && Pow16(8) == 0x1_0000_0000 && Pow16(12) == 0x1_0000_0000_0000
  {
    assert Pow16(4) == 16 * Pow16(3) == 0x1_0000;
    assert Pow16(8) == 16 * (16 * (16 * (16 * Pow16(4))));
    assert Pow16(12) == 16 * (16 * (16 * (16 * Pow16(8))));
  }

  /**
   The whole pipeline: a fresh protocol fed the events of any value ends with that value's
   translation as its root and nothing left open, and the published tree has no unique-id object.
   */
  lemma NamedJsonOf(v: Value)
    ensures Run(State([], None), Events(v)) == State([], Some(ToJson(v)))
    ensures NoUniqueIds(RewriteUniqueIds(ToJson(v)))
  {
    EventsPushTranslation(State([], None), v);
    RewriteRemovesUniqueIds(ToJson(v));
  }

  /** Serialize a value and publish its tree, as `thrift_named_json` does before printing it. */
  method ThriftNamedJson(v: Value) returns (j: Json)
    ensures j == RewriteUniqueIds(ToJson(v)) && NoUniqueIds(j)
  {
    var protocol := new NamedJsonOutputProtocol();
    var events := Events(v);
    for i := 0 to |events|
      invariant protocol.Abs() == Run(State([], None), events[..i])
    {
      protocol.Emit(events[i]);
      assert events[..i + 1][..i] == events[..i];
    }
    assert events[..|events|] == events;
    NamedJsonOf(v);
    j := RewriteUniqueIds(if protocol.root.Some? then protocol.root.value else Null);
  }
}
