/**
 The MySQL text of a row of a columnar array, appended piece by piece while the offsets are
 followed; and INSERT to text end to end.
 */
module ContainerText {
  import opened Common
  import opened DecimalText
  import opened LiteralColumns
  import opened LiteralBuild

  // ---------------------------------------------------------------------
  // The text of a value
  // ---------------------------------------------------------------------

  function Escaped(s: string): string {
    if s == "" then "" else (if s[0] == '"' || s[0] == '\\' then ['\\', s[0]] else [s[0]]) + Escaped(s[1..])
  }

  function Quoted(s: string): string {
    "\"" + Escaped(s) + "\""
  }

  function Render(v: Value): string
    decreases v, 0
  {
    match v
    case NullValue => "null"
    case IntValue(i) => PrintInt(i)
    case StringValue(s) => Quoted(s)
    case ListValue(items) => "[" + RenderItems(items) + "]"
    case StructValue(members) => "{" + RenderMembers(members) + "}"
    case MapValue(pairs) => "{" + RenderPairs(pairs) + "}"
  }

  function RenderItems(items: seq<Value>): string {
    if items == [] then "" else Separated(RenderItems(items[..|items| - 1]), |items|) + Render(items[|items| - 1])
  }

  function RenderMembers(members: seq<Named>): string {
    if members == [] then ""
    else Separated(RenderMembers(members[..|members| - 1]), |members|) + RenderMember(members[|members| - 1])
  }

  function RenderMember(m: Named): string {
    Quoted(m.name) + ":" + Render(m.value)
  }

  function RenderPairs(pairs: seq<Pair>): string {
    if pairs == [] then ""
    else Separated(RenderPairs(pairs[..|pairs| - 1]), |pairs|) + RenderPair(pairs[|pairs| - 1])
  }

  function RenderPair(p: Pair): string {
    Render(p.key) + ":" + Render(p.value)
  }

  /** A comma goes before every element but the first. */
  function Separated(before: string, count: nat): string {
    if count > 1 then before + "," else before
  }

  // ---------------------------------------------------------------------
  // Formatting a row
  // ---------------------------------------------------------------------

  method Quote(s: string) returns (out: string)
    ensures out == Quoted(s)
  {
    out := "\"";
    for k := 0 to |s|
      invariant out == "\"" + Escaped(s[..k])
    {
      EscapedSnoc(s, k);
      if s[k] == '"' || s[k] == '\\' {
        out := out + ['\\'];
      }
      out := out + [s[k]];
    }
    assert s[..|s|] == s;
    out := out + "\"";
  }

  lemma {:induction false} EscapedSnoc(s: string, k: nat)
    requires k < |s|
    ensures Escaped(s[..k + 1]) == Escaped(s[..k]) + (if s[k] == '"' || s[k] == '\\' then ['\\', s[k]] else [s[k]])
  {
    if k == 0 {
      assert s[..1] == [s[0]];
    } else {
      EscapedSnoc(s[1..], k - 1);
      assert s[..k + 1][1..] == s[1..][..k] && s[..k][1..] == s[1..][..k - 1];
    }
  }

  lemma {:induction false} RangeSnoc(a: Array, n: nat, from: nat, to: nat)
    requires WellFormed(a, n) && from <= to < n
    ensures WalkRange(a, n, from, to + 1) == WalkRange(a, n, from, to) + [Walk(a, n, to)]
    decreases n - from
  {
    if from < to {
      RangeSnoc(a, n, from + 1, to);
    }
  }

  lemma {:induction false} PairsSnoc(a: Array, n: nat, from: nat, to: nat)
    requires a.MapArray? && WellFormed(a, n) && from <= to < a.offsets[n]
    ensures WalkPairs(a, n, from, to + 1) ==
            WalkPairs(a, n, from, to) + [Pair(Walk(a.keys, a.offsets[n], to), Walk(a.values, a.offsets[n], to))]
    decreases a.offsets[n] - from
  {
    if from < to {
      PairsSnoc(a, n, from + 1, to);
    }
  }

  lemma {:induction false} MembersFrom(a: Array, n: nat, row: nat, k: nat)
    requires a.StructArray? && WellFormed(a, n) && row < n && k <= |a.children|
    ensures |WalkMembers(a, n, row, k)| == |a.children| - k
    ensures forall d :: 0 <= d < |a.children| - k ==>
              WalkMembers(a, n, row, k)[d] == Named(a.names[k + d], Walk(a.children[k + d], n, row))
    decreases |a.children| - k
  {
    if k < |a.children| {
      MembersFrom(a, n, row, k + 1);
    }
  }

  /** The text of a row is the text of the value the row holds. */
  method Format(a: Array, n: nat, row: nat) returns (out: string)
    requires WellFormed(a, n) && row < n
    ensures out == Render(Walk(a, n, row))
    decreases a, 2
  {
    match a
    case IntArray(ints) =>
      out := if ints[row].Some? then PrintInt(ints[row].value) else "null";
    case StringArray(strings) =>
      if strings[row].None? {
        return "null";
      }
      out := Quote(strings[row].value);
    case ListArray(offsets, valid, values) =>
      if !valid[row] {
        return "null";
      }
      out := FormatList(values, offsets[n], offsets[row], offsets[row + 1]);
    case StructArray(_, valid, _) =>
      if !valid[row] {
        return "null";
      }
      out := FormatStruct(a, n, row);
    case MapArray(offsets, valid, _, _) =>
      if !valid[row] {
        return "null";
      }
      out := FormatMap(a, n, offsets[row], offsets[row + 1]);
  }

  lemma ItemTextStep(items: seq<Value>, v: Value)
    ensures RenderItems(items + [v]) == Separated(RenderItems(items), |items| + 1) + Render(v)
  {
    assert (items + [v])[..|items|] == items;
  }

  lemma PairTextStep(pairs: seq<Pair>, p: Pair)
    ensures RenderPairs(pairs + [p]) == Separated(RenderPairs(pairs), |pairs| + 1) + RenderPair(p)
  {
    assert (pairs + [p])[..|pairs|] == pairs;
  }

  lemma MemberTextStep(members: seq<Named>, k: nat)
    requires k < |members|
    ensures RenderMembers(members[..k + 1]) == Separated(RenderMembers(members[..k]), k + 1) + RenderMember(members[k])
  {
    assert members[..k + 1][..k] == members[..k];
  }

  /** Appending a separator and a piece to an opened text. */
  lemma AppendText(open: string, before: string, count: nat, text: string)
    ensures (if count > 1 then open + before + "," else open + before) + text == open + (Separated(before, count) + text)
  {
  }

  /** The text of a list up to its item at `i`. */
  ghost function ListText(values: Array, n: nat, from: nat, i: nat): string
    requires WellFormed(values, n) && from <= i <= n
  {
    "[" + RenderItems(WalkRange(values, n, from, i))
  }

  lemma {:induction false} RangeLength(a: Array, n: nat, from: nat, to: nat)
    requires WellFormed(a, n) && from <= to <= n
    ensures |WalkRange(a, n, from, to)| == to - from
    decreases n - from
  {
    if from < to {
      RangeLength(a, n, from + 1, to);
    }
  }

  lemma ListTextStep(values: Array, n: nat, from: nat, i: nat, out: string, text: string)
    requires WellFormed(values, n) && from <= i < n && out == ListText(values, n, from, i) && text == Render(Walk(values, n, i))
    ensures ListText(values, n, from, i + 1) == (if i > from then out + "," else out) + text
  {
    var items := WalkRange(values, n, from, i);
    RangeSnoc(values, n, from, i);
    RangeLength(values, n, from, i);
    ItemTextStep(items, Walk(values, n, i));
    AppendText("[", RenderItems(items), |items| + 1, text);
  }

  method FormatList(values: Array, n: nat, from: nat, to: nat) returns (out: string)
    requires WellFormed(values, n) && from <= to <= n
    ensures out == "[" + RenderItems(WalkRange(values, n, from, to)) + "]"
    decreases values, 3
  {
    out := "[";
    for i := from to to
      invariant out == ListText(values, n, from, i)
    {
      var text := Format(values, n, i);
      ListTextStep(values, n, from, i, out, text);
      out := (if i > from then out + "," else out) + text;
    }
    out := out + "]";
  }

  /** The text of a map up to its entry at `i`. */
  ghost function MapText(a: Array, n: nat, from: nat, i: nat): string
    requires a.MapArray? && WellFormed(a, n) && from <= i <= a.offsets[n]
  {
    "{" + RenderPairs(WalkPairs(a, n, from, i))
  }

  lemma {:induction false} PairsLength(a: Array, n: nat, from: nat, to: nat)
    requires a.MapArray? && WellFormed(a, n) && from <= to <= a.offsets[n]
    ensures |WalkPairs(a, n, from, to)| == to - from
    decreases a.offsets[n] - from
  {
    if from < to {
      PairsLength(a, n, from + 1, to);
    }
  }

  lemma MapTextStep(a: Array, n: nat, from: nat, i: nat, out: string, text: string)
    requires a.MapArray? && WellFormed(a, n) && from <= i < a.offsets[n] && out == MapText(a, n, from, i)
    requires text == RenderPair(PairAt(a, n, i))
    ensures MapText(a, n, from, i + 1) == (if i > from then out + "," else out) + text
  {
    var pairs := WalkPairs(a, n, from, i);
    PairsSnoc(a, n, from, i);
    PairsLength(a, n, from, i);
    PairTextStep(pairs, PairAt(a, n, i));
    AppendText("{", RenderPairs(pairs), |pairs| + 1, text);
  }

  method FormatMap(a: Array, n: nat, from: nat, to: nat) returns (out: string)
    requires a.MapArray? && WellFormed(a, n) && from <= to <= a.offsets[n]
    ensures out == "{" + RenderPairs(WalkPairs(a, n, from, to)) + "}"
    decreases a, 1
  {
    out := "{";
    for i := from to to
      invariant out == MapText(a, n, from, i)
    {
      var text := FormatEntry(a, n, i);
      MapTextStep(a, n, from, i, out, text);
      out := (if i > from then out + "," else out) + text;
    }
    out := out + "}";
  }

  ghost function PairAt(a: Array, n: nat, i: nat): Pair
    requires a.MapArray? && WellFormed(a, n) && i < a.offsets[n]
  {
    Pair(Walk(a.keys, a.offsets[n], i), Walk(a.values, a.offsets[n], i))
  }

  method FormatEntry(a: Array, n: nat, i: nat) returns (out: string)
    requires a.MapArray? && WellFormed(a, n) && i < a.offsets[n]
    ensures out == RenderPair(PairAt(a, n, i))
    decreases a, 0
  {
    var key := Format(a.keys, a.offsets[n], i);
    var value := Format(a.values, a.offsets[n], i);
    out := key + ":" + value;
  }

  method FormatStruct(a: Array, n: nat, row: nat) returns (out: string)
    requires a.StructArray? && WellFormed(a, n) && row < n
    ensures out == "{" + RenderMembers(WalkMembers(a, n, row, 0)) + "}"
    decreases a, 1
  {
    MembersFrom(a, n, row, 0);
    ghost var members := WalkMembers(a, n, row, 0);
    out := "{";
    for k := 0 to |a.children|
      invariant out == "{" + RenderMembers(members[..k])
    {
      MemberTextStep(members, k);
      var name := Quote(a.names[k]);
      var value := Format(a.children[k], n, row);
      AppendText("{", RenderMembers(members[..k]), k + 1, name + ":" + value);
      out := (if k > 0 then out + "," else out) + (name + ":" + value);
    }
    assert members[..|a.children|] == members;
    out := out + "}";
  }
}
