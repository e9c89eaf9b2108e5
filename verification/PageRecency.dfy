/**
 The page cache seen from outside: one sequence of resident pages, least recently used first.
 `P` identifies a page's data; `pins` are the pages some handle still holds.
 */
module PageRecency {

  datatype Item<K, P> = Item(key: K, page: P, charge: nat)

  function Total<K, P>(items: seq<Item<K, P>>): nat {
    if items == [] then 0 else Total(items[..|items| - 1]) + items[|items| - 1].charge
  }

  ghost predicate Distinct<K, P>(items: seq<Item<K, P>>) {
    forall i, j :: 0 <= i < j < |items| ==> items[i].key != items[j].key
  }

  ghost predicate HasKey<K, P>(items: seq<Item<K, P>>, key: K) {
    exists i :: 0 <= i < |items| && items[i].key == key
  }

  /** Where `key` sits, or the length of the sequence. */
  ghost function IndexOf<K, P>(items: seq<Item<K, P>>, key: K): (i: nat)
    ensures i <= |items|
    ensures i < |items| ==> items[i].key == key
    ensures forall j :: 0 <= j < i ==> items[j].key != key
  {
    if items == [] || items[0].key == key then 0 else 1 + IndexOf(items[1..], key)
  }

  function Without<K, P>(items: seq<Item<K, P>>, i: nat): seq<Item<K, P>>
    requires i < |items|
  {
    items[..i] + items[i + 1..]
  }

  lemma {:induction false} TotalConcat<K, P>(a: seq<Item<K, P>>, b: seq<Item<K, P>>)
    ensures Total(a + b) == Total(a) + Total(b)
  {
    if b == [] {
      assert a + b == a;
    } else {
      TotalConcat(a, b[..|b| - 1]);
      assert (a + b)[..|a + b| - 1] == a + b[..|b| - 1];
    }
  }

  lemma TotalSnoc<K, P>(items: seq<Item<K, P>>, x: Item<K, P>)
    ensures Total(items + [x]) == Total(items) + x.charge
  {
    assert (items + [x])[..|items|] == items;
  }

  lemma SplitAround<T>(s: seq<T>, i: nat)
    requires i < |s|
    ensures s == s[..i] + [s[i]] + s[i + 1..]
  {
  }

  lemma TotalWithout<K, P>(items: seq<Item<K, P>>, i: nat)
    requires i < |items|
    ensures Total(items) == Total(Without(items, i)) + items[i].charge
  {
    var a, b := items[..i], items[i + 1..];
    SplitAround(items, i);
    TotalConcat(a + [items[i]], b);
    TotalSnoc(a, items[i]);
    TotalConcat(a, b);
  }

  // ---------------------------------------------------------------------
  // Eviction
  // ---------------------------------------------------------------------

  /** The least recently used page nobody holds, or the length of the sequence. */
  ghost function FirstFree<K, P>(items: seq<Item<K, P>>, pins: set<P>): (i: nat)
    ensures i <= |items|
    ensures i < |items| ==> items[i].page !in pins
    ensures forall j :: 0 <= j < i ==> items[j].page in pins
  {
    if items == [] || items[0].page !in pins then 0 else 1 + FirstFree(items[1..], pins)
  }

  datatype Outcome<K, P> = Outcome(items: seq<Item<K, P>>, fits: bool)

  /** Evict one page at a time until `need` more fits, or no page can go. */
  ghost function EvictPass<K, P>(items: seq<Item<K, P>>, pins: set<P>, need: nat, capacity: nat): Outcome<K, P>
    decreases |items|
  {
    if Total(items) + need <= capacity then Outcome(items, true)
    else
      var i := FirstFree(items, pins);
      if i == |items| then Outcome(items, false)
      else EvictPass(Without(items, i), pins, need, capacity)
  }

  /** What is left once the `m` least recently used unheld pages are gone. */
  ghost function DropFree<K, P>(items: seq<Item<K, P>>, pins: set<P>, m: nat): seq<Item<K, P>> {
    if items == [] || m == 0 then items
    else if items[0].page in pins then [items[0]] + DropFree(items[1..], pins, m)
    else DropFree(items[1..], pins, m - 1)
  }

  ghost function FreeCount<K, P>(items: seq<Item<K, P>>, pins: set<P>): nat {
    if items == [] then 0 else (if items[0].page in pins then 0 else 1) + FreeCount(items[1..], pins)
  }

  lemma {:induction false} FreeCountWithout<K, P>(items: seq<Item<K, P>>, pins: set<P>)
    requires FirstFree(items, pins) < |items|
    ensures FreeCount(items, pins) == 1 + FreeCount(Without(items, FirstFree(items, pins)), pins)
  {
    if items[0].page !in pins {
      assert Without(items, 0) == items[1..];
    } else {
      var i := FirstFree(items, pins);
      FreeCountWithout(items[1..], pins);
      assert Without(items, i) == [items[0]] + Without(items[1..], i - 1);
      assert Without(items, i)[1..] == Without(items[1..], i - 1);
    }
  }

  lemma {:induction false} NoneFree<K, P>(items: seq<Item<K, P>>, pins: set<P>)
    ensures FirstFree(items, pins) == |items| <==> FreeCount(items, pins) == 0
  {
    if items != [] {
      NoneFree(items[1..], pins);
    }
  }

  /** Evicting the first free page and then `m` more is evicting `m + 1`. */
  lemma {:induction false} DropFreeStep<K, P>(items: seq<Item<K, P>>, pins: set<P>, m: nat)
    requires FirstFree(items, pins) < |items|
    ensures DropFree(items, pins, m + 1) == DropFree(Without(items, FirstFree(items, pins)), pins, m)
  {
    var i := FirstFree(items, pins);
    if items[0].page !in pins {
      assert Without(items, 0) == items[1..];
    } else {
      DropFreeStep(items[1..], pins, m);
      var rest := Without(items[1..], i - 1);
      assert Without(items, i) == [items[0]] + rest;
      assert Without(items, i)[1..] == rest;
      if m == 0 {
        assert DropFree(rest, pins, 0) == rest;
      }
    }
  }

  /** Fewer than `m` victims do not make room. */
  ghost predicate Short<K, P>(items: seq<Item<K, P>>, pins: set<P>, need: nat, capacity: nat, m: nat) {
    forall k :: 0 <= k < m ==> Total(DropFree(items, pins, k)) + need > capacity
  }

  lemma ShortStep<K, P>(items: seq<Item<K, P>>, pins: set<P>, need: nat, capacity: nat, m: nat)
    requires FirstFree(items, pins) < |items| && Total(items) + need > capacity
    requires Short(Without(items, FirstFree(items, pins)), pins, need, capacity, m)
    ensures Short(items, pins, need, capacity, m + 1)
  {
    forall k | 0 <= k < m + 1
      ensures Total(DropFree(items, pins, k)) + need > capacity
    {
      if k == 0 {
        assert DropFree(items, pins, 0) == items;
      } else {
        DropFreeStep(items, pins, k - 1);
      }
    }
  }

  /**
   The victims of a pass are the `m` least recently used unheld pages: the shortest run of them
   that makes room, or all of them if even all do not.
   */
  ghost predicate Victims<K, P>(items: seq<Item<K, P>>, pins: set<P>, need: nat, capacity: nat, m: nat) {
    && m <= FreeCount(items, pins) && Short(items, pins, need, capacity, m)
    && var out := EvictPass(items, pins, need, capacity);
       && out.items == DropFree(items, pins, m)
       && (out.fits <==> Total(out.items) + need <= capacity)
       && (!out.fits ==> m == FreeCount(items, pins))
  }

  lemma VictimsNone<K, P>(items: seq<Item<K, P>>, pins: set<P>, need: nat, capacity: nat)
    requires Total(items) + need <= capacity || FirstFree(items, pins) == |items|
    ensures Victims(items, pins, need, capacity, 0)
  {
    NoneFree(items, pins);
  }

  lemma VictimsStep<K, P>(items: seq<Item<K, P>>, pins: set<P>, need: nat, capacity: nat, n: nat, rest: seq<Item<K, P>>)
    requires Total(items) + need > capacity && FirstFree(items, pins) < |items| && rest == Without(items, FirstFree(items, pins))
    requires Victims(rest, pins, need, capacity, n)
    ensures Victims(items, pins, need, capacity, n + 1)
  {
    FreeCountWithout(items, pins);
    DropFreeStep(items, pins, n);
    ShortStep(items, pins, need, capacity, n);
    assert EvictPass(items, pins, need, capacity) == EvictPass(rest, pins, need, capacity);
  }

  lemma {:induction false} EvictPassVictims<K, P>(items: seq<Item<K, P>>, pins: set<P>, need: nat, capacity: nat) returns (m: nat)
    ensures Victims(items, pins, need, capacity, m)
    decreases |items|
  {
    if Total(items) + need <= capacity || FirstFree(items, pins) == |items| {
      VictimsNone(items, pins, need, capacity);
      m := 0;
    } else {
      var rest := Without(items, FirstFree(items, pins));
      var n := EvictPassVictims(rest, pins, need, capacity);
      VictimsStep(items, pins, need, capacity, n, rest);
      m := n + 1;
    }
  }

  /** After a failed pass only held pages are left. */
  lemma {:induction false} FailedPassAllPinned<K, P>(items: seq<Item<K, P>>, pins: set<P>, need: nat, capacity: nat)
    requires !EvictPass(items, pins, need, capacity).fits
    ensures var left := EvictPass(items, pins, need, capacity).items;
            && Total(left) + need > capacity
            && forall i :: 0 <= i < |left| ==> left[i].page in pins
    decreases |items|
  {
    if FirstFree(items, pins) < |items| {
      FailedPassAllPinned(Without(items, FirstFree(items, pins)), pins, need, capacity);
    }
  }

  lemma {:induction false} PassFits<K, P>(items: seq<Item<K, P>>, pins: set<P>, need: nat, capacity: nat)
    ensures var out := EvictPass(items, pins, need, capacity);
            && Total(out.items) <= Total(items)
            && (out.fits ==> Total(out.items) + need <= capacity)
    decreases |items|
  {
    var i := FirstFree(items, pins);
    if Total(items) + need > capacity && i < |items| {
      TotalWithout(items, i);
      PassFits(Without(items, i), pins, need, capacity);
    }
  }

  /** A pass never removes a held page and never reorders what stays. */
  lemma {:induction false} PassKeepsPinned<K, P>(items: seq<Item<K, P>>, pins: set<P>, need: nat, capacity: nat, x: Item<K, P>)
    requires x in items && x.page in pins
    ensures x in EvictPass(items, pins, need, capacity).items
    decreases |items|
  {
    var i := FirstFree(items, pins);
    if Total(items) + need > capacity && i < |items| {
      assert x in items[..i] || x in items[i + 1..] by {
        var j :| 0 <= j < |items| && items[j] == x;
        assert j != i;
        if j > i {
          assert items[i + 1..][j - i - 1] == x;
        }
      }
      PassKeepsPinned(Without(items, i), pins, need, capacity, x);
    }
  }

  /** A pass adds nothing. */
  lemma {:induction false} PassSubset<K, P>(items: seq<Item<K, P>>, pins: set<P>, need: nat, capacity: nat)
    ensures forall x :: x in EvictPass(items, pins, need, capacity).items ==> x in items
    decreases |items|
  {
    var i := FirstFree(items, pins);
    if Total(items) + need > capacity && i < |items| {
      PassSubset(Without(items, i), pins, need, capacity);
    }
  }
}
