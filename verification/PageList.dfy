/**
 The recency list of the page cache, threaded through the hash map by previous and next keys.
 */
module PageList {
  import opened Common
  import opened PageRecency

  datatype Entry<K, P> = Entry(page: P, charge: nat, prev: Option<K>, next: Option<K>)

  datatype List<K, P> = List(entries: map<K, Entry<K, P>>, head: Option<K>, tail: Option<K>)

  function PrevOf<K, P>(items: seq<Item<K, P>>, i: nat): Option<K>
    requires i < |items|
  {
    if i == 0 then None else Some(items[i - 1].key)
  }

  function NextOf<K, P>(items: seq<Item<K, P>>, i: nat): Option<K>
    requires i < |items|
  {
    if i + 1 == |items| then None else Some(items[i + 1].key)
  }

  ghost predicate Holds<K, P>(l: List<K, P>, items: seq<Item<K, P>>, i: nat)
    requires i < |items|
  {
    && items[i].key in l.entries
    && l.entries[items[i].key] == Entry(items[i].page, items[i].charge, PrevOf(items, i), NextOf(items, i))
  }

  ghost predicate Ends<K, P>(l: List<K, P>, items: seq<Item<K, P>>) {
    && l.head == (if items == [] then None else Some(items[0].key))
    && l.tail == (if items == [] then None else Some(items[|items| - 1].key))
  }

  /** Head, tail, previous and next keys spell out exactly `items`. */
  ghost predicate Threaded<K, P>(l: List<K, P>, items: seq<Item<K, P>>) {
    && Distinct(items) && Ends(l, items)
    && forall i :: 0 <= i < |items| ==> Holds(l, items, i)
  }

  /** ... and the map holds nothing else. */
  ghost predicate Represents<K, P>(l: List<K, P>, items: seq<Item<K, P>>) {
    && Threaded(l, items)
    && forall k :: k in l.entries ==> HasKey(items, k)
  }

  function SetNext<K, P>(entries: map<K, Entry<K, P>>, at: Option<K>, next: Option<K>): map<K, Entry<K, P>> {
    if at.Some? && at.value in entries then entries[at.value := entries[at.value].(next := next)] else entries
  }

  function SetPrev<K, P>(entries: map<K, Entry<K, P>>, at: Option<K>, prev: Option<K>): map<K, Entry<K, P>> {
    if at.Some? && at.value in entries then entries[at.value := entries[at.value].(prev := prev)] else entries
  }

  /** Join the neighbours of `key`, moving head or tail when it is at an end. */
  function Unlink<K, P>(l: List<K, P>, key: K): List<K, P>
    requires key in l.entries
  {
    var prev, next := l.entries[key].prev, l.entries[key].next;
    List(SetPrev(SetNext(l.entries, prev, next), next, prev),
         if prev.Some? then l.head else next,
         if next.Some? then l.tail else prev)
  }

  /** Put `key` behind the current tail. */
  function Append<K, P>(l: List<K, P>, key: K): List<K, P>
    requires key in l.entries
  {
    var entries := l.entries[key := l.entries[key].(prev := l.tail, next := None)];
    List(SetNext(entries, l.tail, Some(key)), if l.tail.Some? then l.head else Some(key), Some(key))
  }

  lemma DistinctWithout<K, P>(items: seq<Item<K, P>>, i: nat)
    requires Distinct(items) && i < |items|
    ensures Distinct(Without(items, i)) && !HasKey(Without(items, i), items[i].key)
  {
    var rest := Without(items, i);
    forall j | 0 <= j < |rest|
      ensures rest[j] == items[if j < i then j else j + 1]
    {
    }
  }

  lemma UnlinkHolds<K, P>(l: List<K, P>, items: seq<Item<K, P>>, i: nat, j: nat)
    requires Threaded(l, items) && i < |items| && j < |items| - 1
    ensures items[i].key in l.entries && Holds(Unlink(l, items[i].key), Without(items, i), j)
  {
    var rest := Without(items, i);
    var from := if j < i then j else j + 1;
    assert Holds(l, items, i) && Holds(l, items, from);
    assert rest[j] == items[from];
    if i > 0 {
      assert Holds(l, items, i - 1);
    }
    if i + 1 < |items| {
      assert Holds(l, items, i + 1);
    }
    assert j > 0 ==> rest[j - 1] == items[if j - 1 < i then j - 1 else j];
    assert j + 1 < |rest| ==> rest[j + 1] == items[if j + 1 < i then j + 1 else j + 2];
  }

  /** Unlinking removes exactly one element from the spelled-out sequence. */
  lemma UnlinkThreaded<K, P>(l: List<K, P>, items: seq<Item<K, P>>, i: nat)
    requires Threaded(l, items) && i < |items|
    ensures items[i].key in l.entries
    ensures Threaded(Unlink(l, items[i].key), Without(items, i))
    ensures Unlink(l, items[i].key).entries.Keys == l.entries.Keys
    ensures Unlink(l, items[i].key).entries[items[i].key] == l.entries[items[i].key]
  {
    assert Holds(l, items, i);
    DistinctWithout(items, i);
    UnlinkEnds(l, items, i);
    UnlinkSame(l, items, i);
    forall j | 0 <= j < |items| - 1
      ensures Holds(Unlink(l, items[i].key), Without(items, i), j)
    {
      UnlinkHolds(l, items, i, j);
    }
  }

  lemma UnlinkSame<K, P>(l: List<K, P>, items: seq<Item<K, P>>, i: nat)
    requires Threaded(l, items) && i < |items|
    ensures items[i].key in l.entries
    ensures Unlink(l, items[i].key).entries.Keys == l.entries.Keys
    ensures Unlink(l, items[i].key).entries[items[i].key] == l.entries[items[i].key]
  {
    assert Holds(l, items, i);
    if i > 0 {
      assert Holds(l, items, i - 1);
    }
    if i + 1 < |items| {
      assert Holds(l, items, i + 1);
    }
  }

  lemma UnlinkEnds<K, P>(l: List<K, P>, items: seq<Item<K, P>>, i: nat)
    requires Threaded(l, items) && i < |items|
    ensures items[i].key in l.entries && Ends(Unlink(l, items[i].key), Without(items, i))
  {
    assert Holds(l, items, i);
    var rest := Without(items, i);
    if rest != [] {
      assert rest[0] == items[if i == 0 then 1 else 0];
      assert rest[|rest| - 1] == items[if i == |items| - 1 then i - 1 else |items| - 1];
    }
  }

  lemma ThreadedSame<K, P>(l: List<K, P>, l': List<K, P>, items: seq<Item<K, P>>)
    requires Threaded(l, items) && l'.head == l.head && l'.tail == l.tail
    requires forall i :: 0 <= i < |items| ==> items[i].key in l.entries && items[i].key in l'.entries && l'.entries[items[i].key] == l.entries[items[i].key]
    ensures Threaded(l', items)
  {
    assert Ends(l', items);
    forall i | 0 <= i < |items| ensures Holds(l', items, i) {
      assert Holds(l, items, i);
    }
  }

  /** Entries outside the sequence do not matter to it. */
  lemma ThreadedOutside<K, P>(l: List<K, P>, items: seq<Item<K, P>>, key: K, e: Entry<K, P>)
    requires Threaded(l, items) && !HasKey(items, key)
    ensures Threaded(l.(entries := l.entries[key := e]), items)
    ensures Threaded(l.(entries := l.entries - {key}), items)
  {
    forall i | 0 <= i < |items| ensures items[i].key in l.entries && items[i].key != key {
      assert Holds(l, items, i);
    }
    ThreadedSame(l, l.(entries := l.entries[key := e]), items);
    ThreadedSame(l, l.(entries := l.entries - {key}), items);
  }

  /** Appending adds exactly one element at the recent end. */
  lemma AppendThreaded<K, P>(l: List<K, P>, items: seq<Item<K, P>>, x: Item<K, P>)
    requires Threaded(l, items) && !HasKey(items, x.key)
    requires x.key in l.entries && l.entries[x.key].page == x.page && l.entries[x.key].charge == x.charge
    ensures Threaded(Append(l, x.key), items + [x])
    ensures Append(l, x.key).entries.Keys == l.entries.Keys
  {
    var items', l' := items + [x], Append(l, x.key);
    var n := |items|;
    if n > 0 {
      assert Holds(l, items, n - 1);
    }
    forall i | 0 <= i < |items'|
      ensures Holds(l', items', i)
    {
      if i < n {
        assert Holds(l, items, i);
        assert items'[i] == items[i];
      }
    }
  }
}
