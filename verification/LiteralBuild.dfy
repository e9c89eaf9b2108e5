/** The recursive array builder for INSERT literals, and what it accepts. */
module LiteralBuild {
  import opened Common
  import opened Sequences
  import opened LiteralColumns

  // ---------------------------------------------------------------------
  // Offsets
  // ---------------------------------------------------------------------

  /** Offset `i` is the number of values before part `i`. */
  ghost predicate StartsAt<T>(parts: seq<seq<T>>, offsets: seq<nat>) {
    |offsets| == |parts| + 1 && forall i :: 0 <= i <= |parts| ==> offsets[i] == |Concat(parts[..i])|
  }

  /** Offsets and values of the first `k` parts. */
  ghost predicate PartsShred<T>(parts: seq<seq<T>>, k: nat, offsets: seq<nat>, flattened: seq<T>)
    requires k <= |parts|
  {
    StartsAt(parts[..k], offsets) && flattened == Concat(parts[..k])
  }

  lemma PartsStep<T>(parts: seq<seq<T>>, k: nat, offsets: seq<nat>, flattened: seq<T>, offsets': seq<nat>, flattened': seq<T>)
    requires k < |parts| && PartsShred(parts, k, offsets, flattened)
    requires flattened' == flattened + parts[k] && offsets' == offsets + [|flattened'|]
    ensures PartsShred(parts, k + 1, offsets', flattened')
  {
    ConcatStep(parts, k);
    forall i | 0 <= i <= k ensures parts[..k + 1][..i] == parts[..k][..i] {
    }
    assert parts[..k + 1][..k + 1] == parts[..k + 1];
  }

  lemma LengthsGrow<T>(parts: seq<seq<T>>, i: nat, j: nat)
    requires i <= j <= |parts|
    ensures |Concat(parts[..i])| <= |Concat(parts[..j])|
  {
    ConcatPrefix(parts[..j], i);
    assert parts[..j][..i] == parts[..i];
  }

  lemma StartsAreOffsets<T>(parts: seq<seq<T>>, offsets: seq<nat>)
    requires StartsAt(parts, offsets)
    ensures Offsets(offsets, |parts|, |Concat(parts)|)
  {
    TakeAll(parts);
    forall i, j | 0 <= i <= j <= |parts| ensures offsets[i] <= offsets[j] {
      LengthsGrow(parts, i, j);
    }
  }

  /** The values between two neighbouring offsets are one part. */
  lemma PartAt<T>(parts: seq<seq<T>>, offsets: seq<nat>, r: nat)
    requires StartsAt(parts, offsets) && r < |parts|
    ensures offsets[r] <= offsets[r + 1] <= |Concat(parts)| && Concat(parts)[offsets[r]..offsets[r + 1]] == parts[r]
  {
    ConcatPrefix(parts, r + 1);
    ConcatStep(parts, r);
    var upto := Concat(parts[..r + 1]);
    assert Concat(parts)[offsets[r]..offsets[r + 1]] == upto[offsets[r]..];
  }

  // ---------------------------------------------------------------------
  // Lists
  // ---------------------------------------------------------------------

  function Items(l: Literal): seq<Literal> {
    if l.ArrayLit? then l.items else []
  }

  function ListParts(rows: seq<Literal>): (parts: seq<seq<Literal>>)
    ensures |parts| == |rows| && forall i :: 0 <= i < |rows| ==> parts[i] == Items(rows[i])
  {
    seq(|rows|, i requires 0 <= i < |rows| => Items(rows[i]))
  }

  predicate ListFits(l: Literal) {
    l.NullLit? || l.ArrayLit?
  }

  ghost predicate ListsOnly(rows: seq<Literal>) {
    forall i :: 0 <= i < |rows| ==> ListFits(rows[i])
  }

  datatype Shredded<T> = Shredded(offsets: seq<nat>, valid: seq<bool>, flattened: seq<T>)

  /** Offsets, null bits and values of the first `k` rows of a list column. */
  ghost predicate ListShred(rows: seq<Literal>, k: nat, s: Shredded<Literal>)
    requires k <= |rows|
  {
    && PartsShred(ListParts(rows), k, s.offsets, s.flattened)
    && |s.valid| == k && forall i :: 0 <= i < k ==> s.valid[i] == rows[i].ArrayLit?
  }

  lemma ListStep(rows: seq<Literal>, k: nat, s: Shredded<Literal>, t: Shredded<Literal>)
    requires k < |rows| && ListShred(rows, k, s)
    requires t.flattened == s.flattened + Items(rows[k]) && t.offsets == s.offsets + [|t.flattened|] && t.valid == s.valid + [rows[k].ArrayLit?]
    ensures ListShred(rows, k + 1, t)
  {
    PartsStep(ListParts(rows), k, s.offsets, s.flattened, t.offsets, t.flattened);
  }

  method FlattenLists(rows: seq<Literal>) returns (r: Result<Shredded<Literal>, BuildError>)
    ensures r.Ok? <==> ListsOnly(rows) && |Concat(ListParts(rows))| <= I32_MAX
    ensures r.Ok? ==> ListShred(rows, |rows|, r.value)
  {
    var s: Shredded<Literal>, k := Shredded([0], [], []), 0;
    while k < |rows|
      invariant 0 <= k <= |rows| && ListShred(rows, k, s) && |s.flattened| <= I32_MAX
      invariant forall i :: 0 <= i < k ==> ListFits(rows[i])
    {
      if !ListFits(rows[k]) {
        return Err(WrongLiteral);
      }
      var flattened := s.flattened + (if rows[k].ArrayLit? then rows[k].items else []);
      if |flattened| > I32_MAX {
        ConcatStep(ListParts(rows), k);
        ConcatPrefix(ListParts(rows), k + 1);
        return Err(TooManyValues);
      }
      var t := Shredded(s.offsets + [|flattened|], s.valid + [rows[k].ArrayLit?], flattened);
      ListStep(rows, k, s, t);
      s, k := t, k + 1;
    }
    TakeAll(ListParts(rows));
    r := Ok(s);
  }

  /** Walking a stretch of a child array gives the converted literals of that stretch. */
  lemma {:induction false} RangeWalks(a: Array, f: Field, rows: seq<Literal>, from: nat, to: nat)
    requires Represents(a, f.fieldType, f.nullable, rows) && from <= to <= |rows|
    ensures ConvertAll(f, rows[from..to]) == Ok(WalkRange(a, |rows|, from, to))
    decreases |rows| - from
  {
    if from < to {
      RangeWalks(a, f, rows, from + 1, to);
      assert rows[from..to][1..] == rows[from + 1..to];
    }
  }

  lemma ListRepresents(item: Field, nullable: bool, rows: seq<Literal>, s: Shredded<Literal>, child: Array)
    requires ListsOnly(rows) && ListShred(rows, |rows|, s) && Represents(child, item.fieldType, item.nullable, s.flattened)
    ensures Represents(ListArray(s.offsets, s.valid, child), ListOf(item), nullable, rows)
  {
    var a, parts := ListArray(s.offsets, s.valid, child), ListParts(rows);
    TakeAll(parts);
    StartsAreOffsets(parts, s.offsets);
    forall r | 0 <= r < |rows| ensures WellFormed(a, |rows|) && Convert(ListOf(item), nullable, rows[r]) == Ok(Walk(a, |rows|, r)) {
      PartAt(parts, s.offsets, r);
      RangeWalks(child, item, s.flattened, s.offsets[r], s.offsets[r + 1]);
    }
  }

  lemma {:induction false} AllConverts(f: Field, items: seq<Literal>, k: nat)
    requires ConvertAll(f, items).Ok? && k < |items|
    ensures Convert(f.fieldType, f.nullable, items[k]).Ok?
  {
    if k > 0 {
      AllConverts(f, items[1..], k - 1);
    }
  }

  /** A convertible list column has only lists and convertible items. */
  lemma {:induction false} ItemsConvertible(item: Field, nullable: bool, rows: seq<Literal>)
    requires Convertible(ListOf(item), nullable, rows)
    ensures ListsOnly(rows) && Convertible(item.fieldType, item.nullable, Concat(ListParts(rows)))
  {
    forall i | 0 <= i < |rows| ensures ListFits(rows[i]) {
      assert Convert(ListOf(item), nullable, rows[i]).Ok?;
    }
    forall j | 0 <= j < |Concat(ListParts(rows))| ensures Convert(item.fieldType, item.nullable, Concat(ListParts(rows))[j]).Ok? {
      var i, k := PartOf(ListParts(rows), j);
      assert Convert(ListOf(item), nullable, rows[i]).Ok?;
      AllConverts(item, rows[i].items, k);
    }
  }

  // ---------------------------------------------------------------------
  // Maps
  // ---------------------------------------------------------------------

  function MapEntries(l: Literal): seq<Entry> {
    if l.MapLit? then Keyed(l.entries) else []
  }

  function MapParts(rows: seq<Literal>): (parts: seq<seq<Entry>>)
    ensures |parts| == |rows| && forall i :: 0 <= i < |rows| ==> parts[i] == MapEntries(rows[i])
  {
    seq(|rows|, i requires 0 <= i < |rows| => MapEntries(rows[i]))
  }

  function Keys(entries: seq<Entry>): (keys: seq<Literal>)
    ensures |keys| == |entries| && forall i :: 0 <= i < |entries| ==> keys[i] == entries[i].key
  {
    seq(|entries|, i requires 0 <= i < |entries| => entries[i].key)
  }

  function Values(entries: seq<Entry>): (values: seq<Literal>)
    ensures |values| == |entries| && forall i :: 0 <= i < |entries| ==> values[i] == entries[i].value
  {
    seq(|entries|, i requires 0 <= i < |entries| => entries[i].value)
  }

  predicate MapFits(l: Literal) {
    l.NullLit? || l.MapLit?
  }

  ghost predicate MapsOnly(rows: seq<Literal>) {
    forall i :: 0 <= i < |rows| ==> MapFits(rows[i])
  }

  ghost predicate MapShred(rows: seq<Literal>, k: nat, offsets: seq<nat>, valid: seq<bool>, flat: seq<Entry>)
    requires k <= |rows|
  {
    && PartsShred(MapParts(rows), k, offsets, flat)
    && |valid| == k && forall i :: 0 <= i < k ==> valid[i] == rows[i].MapLit?
  }

  lemma {:induction false} KeyedSplit(entries: seq<Entry>, k: nat)
    requires k < |entries|
    ensures Keyed(entries[..k + 1]) == Keyed(entries[..k]) + (if entries[k].key.NullLit? then [] else [entries[k]])
  {
    if k > 0 {
      KeyedSplit(entries[1..], k - 1);
      assert entries[..k + 1][1..] == entries[1..][..k] && entries[..k][1..] == entries[1..][..k - 1];
    }
  }

  lemma KeysSnoc(entries: seq<Entry>, e: Entry)
    ensures Keys(entries + [e]) == Keys(entries) + [e.key] && Values(entries + [e]) == Values(entries) + [e.value]
  {
  }

  /** Push the entries whose key is not NULL onto the two flat lists. */
  method PushKeyed(entries: seq<Entry>, keys0: seq<Literal>, values0: seq<Literal>, ghost flat: seq<Entry>)
    returns (keys: seq<Literal>, values: seq<Literal>)
    requires keys0 == Keys(flat) && values0 == Values(flat)
    ensures keys == Keys(flat + Keyed(entries)) && values == Values(flat + Keyed(entries))
  {
    keys, values := keys0, values0;
    var k := 0;
    ghost var kept := flat;
    assert flat + Keyed(entries[..0]) == flat;
    while k < |entries|
      invariant 0 <= k <= |entries| && kept == flat + Keyed(entries[..k])
      invariant keys == Keys(kept) && values == Values(kept)
    {
      KeyedSplit(entries, k);
      if !entries[k].key.NullLit? {
        KeysSnoc(kept, entries[k]);
        Assoc(flat, Keyed(entries[..k]), [entries[k]]);
        kept := kept + [entries[k]];
        keys, values := keys + [entries[k].key], values + [entries[k].value];
      }
      k := k + 1;
    }
    TakeAll(entries);
  }

  lemma MapStep(rows: seq<Literal>, k: nat, offsets: seq<nat>, valid: seq<bool>, flat: seq<Entry>, flat': seq<Entry>)
    requires k < |rows| && MapShred(rows, k, offsets, valid, flat) && flat' == flat + MapEntries(rows[k])
    ensures MapShred(rows, k + 1, offsets + [|flat'|], valid + [rows[k].MapLit?], flat')
  {
    PartsStep(MapParts(rows), k, offsets, flat, offsets + [|flat'|], flat');
  }

  datatype MapColumns = MapColumns(offsets: seq<nat>, valid: seq<bool>, keys: seq<Literal>, values: seq<Literal>)

  ghost predicate MapProgress(rows: seq<Literal>, k: nat, c: MapColumns, flat: seq<Entry>)
    requires k <= |rows|
  {
    MapShred(rows, k, c.offsets, c.valid, flat) && c.keys == Keys(flat) && c.values == Values(flat)
  }

  /** One row of a map column. */
  method PushMap(rows: seq<Literal>, k: nat, c: MapColumns, ghost flat: seq<Entry>) returns (d: MapColumns)
    requires k < |rows| && MapFits(rows[k]) && MapProgress(rows, k, c, flat)
    ensures MapProgress(rows, k + 1, d, flat + MapEntries(rows[k]))
  {
    var keys, values := c.keys, c.values;
    if rows[k].MapLit? {
      keys, values := PushKeyed(rows[k].entries, keys, values, flat);
    } else {
      assert flat + MapEntries(rows[k]) == flat;
    }
    MapStep(rows, k, c.offsets, c.valid, flat, flat + MapEntries(rows[k]));
    d := MapColumns(c.offsets + [|keys|], c.valid + [rows[k].MapLit?], keys, values);
  }

  method FlattenMaps(rows: seq<Literal>) returns (r: Result<MapColumns, BuildError>)
    ensures r.Ok? <==> MapsOnly(rows) && |Concat(MapParts(rows))| <= I32_MAX
    ensures r.Ok? ==> MapProgress(rows, |rows|, r.value, Concat(MapParts(rows)))
  {
    var c, k := MapColumns([0], [], [], []), 0;
    ghost var flat: seq<Entry> := [];
    MapStart(rows);
    while k < |rows|
      invariant 0 <= k <= |rows| && MapProgress(rows, k, c, flat) && |flat| <= I32_MAX
      invariant forall i :: 0 <= i < k ==> MapFits(rows[i])
    {
      if !MapFits(rows[k]) {
        return Err(WrongLiteral);
      }
      c := PushMap(rows, k, c, flat);
      flat := flat + MapEntries(rows[k]);
      MapBound(rows, k + 1, c, flat);
      if |c.keys| > I32_MAX {
        return Err(TooManyValues);
      }
      k := k + 1;
    }
    MapBound(rows, k, c, flat);
    r := Ok(c);
  }

  lemma MapStart(rows: seq<Literal>)
    ensures MapProgress(rows, 0, MapColumns([0], [], [], []), [])
  {
  }

  /** What is collected so far is a prefix of all entries. */
  lemma MapBound(rows: seq<Literal>, k: nat, c: MapColumns, flat: seq<Entry>)
    requires k <= |rows| && MapProgress(rows, k, c, flat)
    ensures |c.keys| == |flat| <= |Concat(MapParts(rows))| && (k == |rows| ==> flat == Concat(MapParts(rows)))
  {
    ConcatPrefix(MapParts(rows), k);
    TakeAll(MapParts(rows));
  }

  /** Walking a stretch of a map's entries gives the converted entries of that stretch. */
  lemma {:induction false} PairsWalk(a: Array, n: nat, t: Type, flat: seq<Entry>, from: nat, to: nat)
    requires a.MapArray? && t.MapOf? && WellFormed(a, n) && a.offsets[n] == |flat| && from <= to <= |flat|
    requires Represents(a.keys, t.key.fieldType, t.key.nullable, Keys(flat))
    requires Represents(a.values, t.value.fieldType, t.value.nullable, Values(flat))
    ensures ConvertEntries(t, flat[from..to]) == Ok(WalkPairs(a, n, from, to))
    decreases |flat| - from
  {
    if from < to {
      PairsWalk(a, n, t, flat, from + 1, to);
      assert flat[from..to][1..] == flat[from + 1..to];
      assert Keys(flat)[from] == flat[from].key && Values(flat)[from] == flat[from].value;
    }
  }

  lemma MapRepresents(t: Type, nullable: bool, rows: seq<Literal>, c: MapColumns, keys: Array, values: Array, flat: seq<Entry>)
    requires t.MapOf? && MapsOnly(rows) && flat == Concat(MapParts(rows)) && MapProgress(rows, |rows|, c, flat)
    requires Represents(keys, t.key.fieldType, t.key.nullable, Keys(flat))
    requires Represents(values, t.value.fieldType, t.value.nullable, Values(flat))
    ensures Represents(MapArray(c.offsets, c.valid, keys, values), t, nullable, rows)
  {
    var a, parts := MapArray(c.offsets, c.valid, keys, values), MapParts(rows);
    TakeAll(parts);
    StartsAreOffsets(parts, c.offsets);
    forall r | 0 <= r < |rows| ensures WellFormed(a, |rows|) && Convert(t, nullable, rows[r]) == Ok(Walk(a, |rows|, r)) {
      PartAt(parts, c.offsets, r);
      PairsWalk(a, |rows|, t, flat, c.offsets[r], c.offsets[r + 1]);
      MapRowWalks(t, nullable, rows[r], a, |rows|, r);
    }
  }

  lemma MapRowWalks(t: Type, nullable: bool, l: Literal, a: Array, n: nat, r: nat)
    requires t.MapOf? && MapFits(l) && a.MapArray? && WellFormed(a, n) && r < n && a.valid[r] == l.MapLit?
    requires l.MapLit? ==> ConvertEntries(t, Keyed(l.entries)) == Ok(WalkPairs(a, n, a.offsets[r], a.offsets[r + 1]))
    ensures Convert(t, nullable, l) == Ok(Walk(a, n, r))
  {
  }

  lemma {:induction false} EntriesConvert(t: Type, entries: seq<Entry>, k: nat)
    requires t.MapOf? && ConvertEntries(t, entries).Ok? && k < |entries|
    ensures Convert(t.key.fieldType, t.key.nullable, entries[k].key).Ok? && Convert(t.value.fieldType, t.value.nullable, entries[k].value).Ok?
  {
    if k > 0 {
      EntriesConvert(t, entries[1..], k - 1);
    }
  }

  lemma EntriesConvertible(t: Type, nullable: bool, rows: seq<Literal>)
    requires t.MapOf? && Convertible(t, nullable, rows)
    ensures MapsOnly(rows)
    ensures Convertible(t.key.fieldType, t.key.nullable, Keys(Concat(MapParts(rows))))
    ensures Convertible(t.value.fieldType, t.value.nullable, Values(Concat(MapParts(rows))))
  {
    forall i | 0 <= i < |rows| ensures MapFits(rows[i]) {
      assert Convert(t, nullable, rows[i]).Ok?;
    }
    var flat := Concat(MapParts(rows));
    forall j | 0 <= j < |flat|
      ensures Convert(t.key.fieldType, t.key.nullable, flat[j].key).Ok? && Convert(t.value.fieldType, t.value.nullable, flat[j].value).Ok?
    {
      var i, k := PartOf(MapParts(rows), j);
      assert Convert(t, nullable, rows[i]).Ok?;
      EntriesConvert(t, Keyed(rows[i].entries), k);
    }
  }

  // ---------------------------------------------------------------------
  // Structs
  // ---------------------------------------------------------------------

  /** A struct literal's member; a NULL struct has NULL members. */
  function Member(l: Literal, k: nat): Literal {
    if l.StructLit? && k < |l.members| then l.members[k] else NullLit
  }

  function Column(rows: seq<Literal>, k: nat): (column: seq<Literal>)
    ensures |column| == |rows| && forall i :: 0 <= i < |rows| ==> column[i] == Member(rows[i], k)
  {
    seq(|rows|, i requires 0 <= i < |rows| => Member(rows[i], k))
  }

  predicate StructFits(l: Literal, n: nat) {
    l.NullLit? || (l.StructLit? && |l.members| == n)
  }

  ghost predicate StructsOnly(rows: seq<Literal>, n: nat) {
    forall i :: 0 <= i < |rows| ==> StructFits(rows[i], n)
  }

  /** The child rows after the first `k` rows. */
  ghost predicate Split(rows: seq<Literal>, k: nat, columns: seq<seq<Literal>>)
    requires k <= |rows|
  {
    forall c :: 0 <= c < |columns| ==> columns[c] == Column(rows, c)[..k]
  }

  /** Push one row's members onto the child rows. */
  method PushMembers(rows: seq<Literal>, k: nat, columns0: seq<seq<Literal>>) returns (columns: seq<seq<Literal>>)
    requires k < |rows| && StructFits(rows[k], |columns0|) && Split(rows, k, columns0)
    ensures |columns| == |columns0| && Split(rows, k + 1, columns)
  {
    columns := columns0;
    for c := 0 to |columns0|
      invariant |columns| == |columns0|
      invariant forall d :: c <= d < |columns| ==> columns[d] == Column(rows, d)[..k]
      invariant forall d :: 0 <= d < c ==> columns[d] == Column(rows, d)[..k + 1]
    {
      TakeSnoc(Column(rows, c), k);
      columns := columns[c := columns[c] + [if rows[k].StructLit? then rows[k].members[c] else NullLit]];
    }
  }

  method SplitStructs(rows: seq<Literal>, n: nat) returns (r: Result<(seq<bool>, seq<seq<Literal>>), BuildError>)
    ensures r.Ok? <==> StructsOnly(rows, n)
    ensures r.Ok? ==> var (valid, columns) := r.value;
              && |valid| == |rows| && (forall i :: 0 <= i < |rows| ==> valid[i] == rows[i].StructLit?)
              && |columns| == n && forall c :: 0 <= c < n ==> columns[c] == Column(rows, c)
  {
    var valid: seq<bool>, columns: seq<seq<Literal>>, k := [], seq(n, _ => []), 0;
    while k < |rows|
      invariant 0 <= k <= |rows| && |valid| == k && |columns| == n && Split(rows, k, columns)
      invariant forall i :: 0 <= i < k ==> StructFits(rows[i], n) && valid[i] == rows[i].StructLit?
    {
      if !StructFits(rows[k], n) {
        return Err(WrongLiteral);
      }
      columns := PushMembers(rows, k, columns);
      valid := valid + [rows[k].StructLit?];
      k := k + 1;
    }
    forall c | 0 <= c < n ensures columns[c] == Column(rows, c) {
      TakeAll(Column(rows, c));
    }
    r := Ok((valid, columns));
  }

  /** The children of a struct array each represent their own column. */
  ghost predicate ChildrenRepresent(t: Type, rows: seq<Literal>, children: seq<Array>)
    requires t.StructOf? && |children| <= |t.fields|
  {
    forall c :: 0 <= c < |children| ==> Represents(children[c], t.fields[c].fieldType, t.fields[c].nullable, Column(rows, c))
  }

  function Names(fields: seq<Field>): (names: seq<string>)
    ensures |names| == |fields| && forall i :: 0 <= i < |fields| ==> names[i] == fields[i].name
  {
    seq(|fields|, i requires 0 <= i < |fields| => fields[i].name)
  }

  /** Walking child `k` gives what member `k` means, under the field's name. */
  ghost predicate MemberWalks(a: Array, n: nat, t: Type, members: seq<Literal>, row: nat, k: nat)
    requires t.StructOf? && a.StructArray? && WellFormed(a, n) && |a.children| == |t.fields| == |members| && row < n && k < |members|
  {
    && a.names[k] == t.fields[k].name
    && Convert(t.fields[k].fieldType, t.fields[k].nullable, members[k]) == Ok(Walk(a.children[k], n, row))
  }

  lemma {:induction false} MembersWalk(a: Array, n: nat, t: Type, members: seq<Literal>, row: nat, k: nat)
    requires t.StructOf? && a.StructArray? && WellFormed(a, n) && |a.children| == |t.fields| == |members| && row < n && k <= |members|
    requires forall c :: 0 <= c < |members| ==> MemberWalks(a, n, t, members, row, c)
    ensures ConvertMembers(t, members, k) == Ok(WalkMembers(a, n, row, k))
    decreases |members| - k
  {
    if k < |members| {
      assert MemberWalks(a, n, t, members, row, k);
      MembersWalk(a, n, t, members, row, k + 1);
    }
  }

  lemma ChildWalks(a: Array, t: Type, rows: seq<Literal>, row: nat, k: nat)
    requires t.StructOf? && a.StructArray? && WellFormed(a, |rows|) && |a.children| == |t.fields| && a.names == Names(t.fields)
    requires ChildrenRepresent(t, rows, a.children) && row < |rows| && k < |t.fields|
    requires rows[row].StructLit? && |rows[row].members| == |t.fields|
    ensures MemberWalks(a, |rows|, t, rows[row].members, row, k)
  {
    assert Column(rows, k)[row] == rows[row].members[k];
    assert Represents(a.children[k], t.fields[k].fieldType, t.fields[k].nullable, Column(rows, k));
  }

  lemma StructRepresents(t: Type, nullable: bool, rows: seq<Literal>, valid: seq<bool>, children: seq<Array>)
    requires t.StructOf? && StructsOnly(rows, |t.fields|) && |children| == |t.fields| && ChildrenRepresent(t, rows, children)
    requires |valid| == |rows| && forall i :: 0 <= i < |rows| ==> valid[i] == rows[i].StructLit?
    ensures Represents(StructArray(Names(t.fields), valid, children), t, nullable, rows)
  {
    var a := StructArray(Names(t.fields), valid, children);
    assert WellFormed(a, |rows|);
    forall r | 0 <= r < |rows| ensures Convert(t, nullable, rows[r]) == Ok(Walk(a, |rows|, r)) {
      if rows[r].StructLit? {
        forall k | 0 <= k < |t.fields| ensures MemberWalks(a, |rows|, t, rows[r].members, r, k) {
          ChildWalks(a, t, rows, r, k);
        }
        MembersWalk(a, |rows|, t, rows[r].members, r, 0);
      }
    }
  }

  lemma {:induction false} MembersConvert(t: Type, members: seq<Literal>, from: nat, k: nat)
    requires t.StructOf? && |members| == |t.fields| && from <= k < |members| && ConvertMembers(t, members, from).Ok?
    ensures Convert(t.fields[k].fieldType, t.fields[k].nullable, members[k]).Ok?
    decreases k - from
  {
    if from < k {
      MembersConvert(t, members, from + 1, k);
    }
  }

  lemma NullConverts(t: Type, nullable: bool)
    requires !t.OtherType?
    ensures Convert(t, nullable, NullLit) == Ok(NullValue)
  {
  }

  lemma ColumnsConvertible(t: Type, nullable: bool, rows: seq<Literal>, c: nat)
    requires t.StructOf? && Convertible(t, nullable, rows) && c < |t.fields| && !t.fields[c].fieldType.OtherType?
    ensures StructsOnly(rows, |t.fields|) && Convertible(t.fields[c].fieldType, t.fields[c].nullable, Column(rows, c))
  {
    forall i | 0 <= i < |rows|
      ensures StructFits(rows[i], |t.fields|) && Convert(t.fields[c].fieldType, t.fields[c].nullable, Member(rows[i], c)).Ok?
    {
      assert Convert(t, nullable, rows[i]).Ok?;
      if rows[i].StructLit? {
        MembersConvert(t, rows[i].members, 0, c);
      } else {
        NullConverts(t.fields[c].fieldType, t.fields[c].nullable);
      }
    }
  }

  lemma StructsConvertible(t: Type, nullable: bool, rows: seq<Literal>)
    requires t.StructOf? && Convertible(t, nullable, rows)
    ensures StructsOnly(rows, |t.fields|)
  {
    forall i | 0 <= i < |rows| ensures StructFits(rows[i], |t.fields|) {
      assert Convert(t, nullable, rows[i]).Ok?;
    }
  }

  // ---------------------------------------------------------------------
  // Scalars
  // ---------------------------------------------------------------------

  method BuildInts(w: Width, nullable: bool, rows: seq<Literal>) returns (r: Result<Array, BuildError>)
    ensures r.Ok? <==> Convertible(IntType(w), nullable, rows)
    ensures r.Ok? ==> Represents(r.value, IntType(w), nullable, rows)
  {
    var ints: seq<Option<int>>, k := [], 0;
    while k < |rows|
      invariant 0 <= k <= |rows| && |ints| == k
      invariant forall i :: 0 <= i < k ==> ConvertInt(w, nullable, rows[i]) == Ok(ints[i])
    {
      var v := ConvertInt(w, nullable, rows[k]);
      if v.Err? {
        assert Convert(IntType(w), nullable, rows[k]).Err?;
        return Err(v.error);
      }
      ints, k := ints + [v.value], k + 1;
    }
    r := Ok(IntArray(ints));
  }

  method BuildStrings(nullable: bool, rows: seq<Literal>) returns (r: Result<Array, BuildError>)
    ensures r.Ok? <==> Convertible(Utf8, nullable, rows)
    ensures r.Ok? ==> Represents(r.value, Utf8, nullable, rows)
  {
    var strings: seq<Option<string>>, k := [], 0;
    while k < |rows|
      invariant 0 <= k <= |rows| && |strings| == k
      invariant forall i :: 0 <= i < k ==> ConvertString(rows[i]) == Ok(strings[i])
    {
      var v := ConvertString(rows[k]);
      if v.Err? {
        assert Convert(Utf8, nullable, rows[k]).Err?;
        return Err(v.error);
      }
      strings, k := strings + [v.value], k + 1;
    }
    r := Ok(StringArray(strings));
  }

  // ---------------------------------------------------------------------
  // The builder
  // ---------------------------------------------------------------------

  /** No list or map column anywhere below holds more than 2^31 - 1 values. */
  ghost predicate Fits(t: Type, rows: seq<Literal>)
    decreases t
  {
    match t
    case ListOf(item) => var flat := Concat(ListParts(rows)); |flat| <= I32_MAX && Fits(item.fieldType, flat)
    case StructOf(fields) => forall c :: 0 <= c < |fields| ==> Fits(fields[c].fieldType, Column(rows, c))
    case MapOf(key, value) =>
      var flat := Concat(MapParts(rows)); |flat| <= I32_MAX && Fits(key.fieldType, Keys(flat)) && Fits(value.fieldType, Values(flat))
    case _ => true
  }

  ghost predicate Acceptable(t: Type, nullable: bool, rows: seq<Literal>) {
    Supported(t) && Convertible(t, nullable, rows) && Fits(t, rows)
  }

  /**
   The builder accepts exactly the supported types whose rows all convert and fit, and walking any
   row of its result gives what that row's literal means.
   */
  method BuildArray(t: Type, nullable: bool, rows: seq<Literal>) returns (r: Result<Array, BuildError>)
    ensures r.Ok? <==> Acceptable(t, nullable, rows)
    ensures r.Ok? ==> Represents(r.value, t, nullable, rows)
    decreases t, 2
  {
    match t
    case IntType(w) => r := BuildInts(w, nullable, rows);
    case Utf8 => r := BuildStrings(nullable, rows);
    case ListOf(item) => r := BuildList(t, nullable, rows);
    case StructOf(fields) => r := BuildStruct(t, nullable, rows);
    case MapOf(key, value) => r := BuildMap(t, nullable, rows);
    case OtherType => r := Err(UnsupportedType);
  }

  method BuildList(t: Type, nullable: bool, rows: seq<Literal>) returns (r: Result<Array, BuildError>)
    requires t.ListOf?
    ensures r.Ok? <==> Acceptable(t, nullable, rows)
    ensures r.Ok? ==> Represents(r.value, t, nullable, rows)
    decreases t, 1
  {
    if Convertible(t, nullable, rows) {
      ItemsConvertible(t.item, nullable, rows);
    }
    var lists := FlattenLists(rows);
    if lists.Err? {
      return Err(lists.error);
    }
    TakeAll(ListParts(rows));
    var s := lists.value;
    var child := BuildArray(t.item.fieldType, t.item.nullable, s.flattened);
    if child.Err? {
      return Err(child.error);
    }
    ListRepresents(t.item, nullable, rows, s, child.value);
    r := Ok(ListArray(s.offsets, s.valid, child.value));
  }

  method BuildMap(t: Type, nullable: bool, rows: seq<Literal>) returns (r: Result<Array, BuildError>)
    requires t.MapOf?
    ensures r.Ok? <==> Acceptable(t, nullable, rows)
    ensures r.Ok? ==> Represents(r.value, t, nullable, rows)
    decreases t, 1
  {
    if Convertible(t, nullable, rows) {
      EntriesConvertible(t, nullable, rows);
    }
    var maps := FlattenMaps(rows);
    if maps.Err? {
      return Err(maps.error);
    }
    var c := maps.value;
    var keys := BuildArray(t.key.fieldType, t.key.nullable, c.keys);
    if keys.Err? {
      return Err(keys.error);
    }
    var values := BuildArray(t.value.fieldType, t.value.nullable, c.values);
    if values.Err? {
      return Err(values.error);
    }
    MapRepresents(t, nullable, rows, c, keys.value, values.value, Concat(MapParts(rows)));
    r := Ok(MapArray(c.offsets, c.valid, keys.value, values.value));
  }

  ghost predicate ColumnAcceptable(t: Type, rows: seq<Literal>, c: nat)
    requires t.StructOf? && c < |t.fields|
  {
    Acceptable(t.fields[c].fieldType, t.fields[c].nullable, Column(rows, c))
  }

  lemma ColumnsAcceptable(t: Type, nullable: bool, rows: seq<Literal>)
    requires t.StructOf? && Acceptable(t, nullable, rows)
    ensures forall c :: 0 <= c < |t.fields| ==> ColumnAcceptable(t, rows, c)
  {
    forall c | 0 <= c < |t.fields| ensures ColumnAcceptable(t, rows, c) {
      assert Supported(t.fields[c].fieldType);
      ColumnsConvertible(t, nullable, rows, c);
    }
  }

  lemma RepresentedConverts(a: Array, t: Type, nullable: bool, rows: seq<Literal>)
    requires Represents(a, t, nullable, rows)
    ensures Convertible(t, nullable, rows)
  {
    forall r | 0 <= r < |rows| ensures Convert(t, nullable, rows[r]).Ok? {
      assert Convert(t, nullable, rows[r]) == Ok(Walk(a, |rows|, r));
    }
  }

  lemma StructAcceptable(t: Type, nullable: bool, rows: seq<Literal>, a: Array)
    requires t.StructOf? && Represents(a, t, nullable, rows)
    requires forall c :: 0 <= c < |t.fields| ==> ColumnAcceptable(t, rows, c)
    ensures Acceptable(t, nullable, rows)
  {
    RepresentedConverts(a, t, nullable, rows);
    forall c | 0 <= c < |t.fields| ensures Supported(t.fields[c].fieldType) && Fits(t.fields[c].fieldType, Column(rows, c)) {
      assert ColumnAcceptable(t, rows, c);
    }
  }

  method BuildChildren(t: Type, rows: seq<Literal>, columns: seq<seq<Literal>>) returns (r: Result<seq<Array>, BuildError>)
    requires t.StructOf? && |columns| == |t.fields| && forall c :: 0 <= c < |columns| ==> columns[c] == Column(rows, c)
    ensures r.Ok? <==> forall c :: 0 <= c < |t.fields| ==> ColumnAcceptable(t, rows, c)
    ensures r.Ok? ==> |r.value| == |t.fields| && ChildrenRepresent(t, rows, r.value)
    decreases t, 0
  {
    var children: seq<Array> := [];
    while |children| < |t.fields|
      invariant |children| <= |t.fields| && ChildrenRepresent(t, rows, children)
      invariant forall c :: 0 <= c < |children| ==> ColumnAcceptable(t, rows, c)
      decreases |t.fields| - |children|
    {
      var c := |children|;
      var child := BuildArray(t.fields[c].fieldType, t.fields[c].nullable, columns[c]);
      if child.Err? {
        assert !ColumnAcceptable(t, rows, c);
        return Err(child.error);
      }
      children := children + [child.value];
    }
    r := Ok(children);
  }

  method BuildStruct(t: Type, nullable: bool, rows: seq<Literal>) returns (r: Result<Array, BuildError>)
    requires t.StructOf?
    ensures r.Ok? <==> Acceptable(t, nullable, rows)
    ensures r.Ok? ==> Represents(r.value, t, nullable, rows)
    decreases t, 1
  {
    if Acceptable(t, nullable, rows) {
      StructsConvertible(t, nullable, rows);
      ColumnsAcceptable(t, nullable, rows);
    }
    var split := SplitStructs(rows, |t.fields|);
    if split.Err? {
      return Err(split.error);
    }
    var (valid, columns) := split.value;
    var children := BuildChildren(t, rows, columns);
    if children.Err? {
      return Err(children.error);
    }
    StructRepresents(t, nullable, rows, valid, children.value);
    StructAcceptable(t, nullable, rows, StructArray(Names(t.fields), valid, children.value));
    r := Ok(StructArray(Names(t.fields), valid, children.value));
  }
}
