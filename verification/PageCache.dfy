/**
 The page cache's mutable state behind its lock: a hash map whose entries form a recency list,
 charges against a capacity, and pages pinned by outstanding handles.
 */
module PageCache {
  import opened Common
  import opened PageRecency
  import opened PageList
  import opened PageInsert

  function SaturatingAdd(a: nat, b: nat): nat {
    if a + b > USIZE_MAX then USIZE_MAX else a + b
  }

  /** A cached value and how many handles hold it. */
  class Page<V> {
    const value: V
    var pinCount: nat

    constructor (value: V)
      ensures this.value == value && pinCount == 0
    {
      this.value := value;
      pinCount := 0;
    }

    /** The atomic increment behind a new or cloned handle. */
    method Pin()
      modifies this`pinCount
      ensures pinCount == (old(pinCount) + 1) % (USIZE_MAX + 1)
    {
      pinCount := if pinCount >= USIZE_MAX then (pinCount + 1) % (USIZE_MAX + 1) else pinCount + 1;
    }

    /** The atomic decrement behind a dropped handle; it would wrap below zero. */
    method Unpin()
      modifies this`pinCount
      ensures pinCount == if old(pinCount) == 0 then USIZE_MAX else old(pinCount) - 1
    {
      pinCount := if pinCount == 0 then USIZE_MAX else pinCount - 1;
    }
  }

  class CacheInner<K(==), V> {
    var entries: map<K, Entry<K, Page<V>>>
    var head: Option<K>
    var tail: Option<K>
    var size: nat
    var capacity: nat
    var evictProbability: nat

    /** Resident pages, least recently used first. */
    ghost var items: seq<Item<K, Page<V>>>

    ghost function Links(): List<K, Page<V>>
      reads this
    {
      List(entries, head, tail)
    }

    ghost predicate Valid()
      reads this
    {
      && Represents(Links(), items)
      && size == Total(items) <= USIZE_MAX
      && 1 <= capacity <= USIZE_MAX
      && evictProbability <= 100
    }

    /** Adding `charge` to the size can be told apart from the capacity by saturating addition. */
    ghost predicate Countable(charge: nat)
      reads this`capacity, this`size
    {
      capacity < USIZE_MAX || size + charge <= USIZE_MAX
    }

    /** Among the resident pages, `pins` are those some handle holds. */
    ghost predicate PinsAre(pins: set<Page<V>>)
      reads this, set i | 0 <= i < |items| :: items[i].page
    {
      forall i :: 0 <= i < |items| ==> (items[i].page in pins <==> items[i].page.pinCount > 0)
    }

    constructor (capacity: nat, evictProbability: nat)
      requires capacity <= USIZE_MAX
      ensures Valid() && items == []
      ensures this.capacity == if capacity == 0 then 1 else capacity
    {
      entries := map[];
      head, tail := None, None;
      size := 0;
      this.capacity := if capacity == 0 then 1 else capacity;
      this.evictProbability := if evictProbability > 100 then 100 else evictProbability;
      items := [];
    }

    method Detach(key: K)
      requires Threaded(Links(), items) && IndexOf(items, key) < |items|
      modifies this`entries, this`head, this`tail, this`items
      ensures items == Without(old(items), IndexOf(old(items), key)) && Threaded(Links(), items)
      ensures entries.Keys == old(entries.Keys) && !HasKey(items, key)
      ensures key in entries && key in old(entries)
      ensures entries[key].page == old(entries[key].page) && entries[key].charge == old(entries[key].charge)
    {
      ghost var i := IndexOf(items, key);
      ghost var before := Links();
      UnlinkThreaded(before, items, i);
      DistinctWithout(items, i);
      var prev, next := entries[key].prev, entries[key].next;
      entries := SetNext(entries, prev, next);
      if prev.None? {
        head := next;
      }
      entries := SetPrev(entries, next, prev);
      if next.None? {
        tail := prev;
      }
      assert Links() == Unlink(before, key);
      items := Without(items, i);
      ThreadedOutside(Links(), items, key, entries[key].(prev := None, next := None));
      entries := entries[key := entries[key].(prev := None, next := None)];
    }

    method AttachTail(key: K, ghost x: Item<K, Page<V>>)
      requires Threaded(Links(), items) && !HasKey(items, key) && x.key == key
      requires key in entries && entries[key].page == x.page && entries[key].charge == x.charge
      modifies this`entries, this`head, this`tail, this`items
      ensures items == old(items) + [x] && Threaded(Links(), items)
      ensures entries.Keys == old(entries.Keys)
    {
      ghost var before := Links();
      AppendThreaded(before, items, x);
      entries := entries[key := entries[key].(prev := tail, next := None)];
      entries := SetNext(entries, tail, Some(key));
      if tail.None? {
        head := Some(key);
      }
      tail := Some(key);
      assert Links() == Append(before, key);
      items := items + [x];
    }

    /** Touch a resident key: it becomes the most recently used. */
    method MoveToTail(key: K)
      requires Represents(Links(), items) && IndexOf(items, key) < |items|
      modifies this`entries, this`head, this`tail, this`items
      ensures var i := IndexOf(old(items), key);
              items == Without(old(items), i) + [old(items)[i]] && Represents(Links(), items)
      ensures entries.Keys == old(entries.Keys)
    {
      ghost var i := IndexOf(items, key);
      ghost var x := items[i];
      assert Holds(Links(), items, i);
      if tail == Some(key) {
        LastIndex(items, i);
        return;
      }
      ghost var before := items;
      Detach(key);
      AttachTail(key, x);
      KeysKept(before, i, items);
    }

    /** Unlink first, then forget the entry and give back its charge. */
    method RemoveEntry(key: K)
      requires Valid() && IndexOf(items, key) < |items|
      modifies this`entries, this`head, this`tail, this`items, this`size
      ensures Valid() && items == Without(old(items), IndexOf(old(items), key))
    {
      ghost var i := IndexOf(items, key);
      ghost var before, all := Links(), items;
      UnlinkThreaded(before, items, i);
      DistinctWithout(items, i);
      TotalWithout(items, i);
      assert Holds(before, items, i);
      var prev, next, charge := entries[key].prev, entries[key].next, entries[key].charge;
      entries := SetNext(entries, prev, next);
      if prev.None? {
        head := next;
      }
      entries := SetPrev(entries, next, prev);
      if next.None? {
        tail := prev;
      }
      assert Links() == Unlink(before, key);
      items := Without(items, i);
      ThreadedOutside(Links(), items, key, entries[key]);
      entries := entries - {key};
      size := SaturatingSub(size, charge);
      KeysLeft(all, i);
    }

    /** Walk from the head past pinned pages. */
    method FindVictim(ghost pins: set<Page<V>>) returns (victim: Option<K>)
      requires Valid() && PinsAre(pins)
      ensures var i := FirstFree(items, pins);
              victim == if i < |items| then Some(items[i].key) else None
    {
      victim := head;
      ghost var i := 0;
      while victim.Some?
        invariant 0 <= i <= |items|
        invariant victim == if i < |items| then Some(items[i].key) else None
        invariant forall j :: 0 <= j < i ==> items[j].page in pins
        decreases |items| - i
      {
        assert Holds(Links(), items, i);
        if entries[victim.value].page.pinCount == 0 {
          break;
        }
        victim := entries[victim.value].next;
        i := i + 1;
      }
      FirstUnpinned(items, pins, i);
    }

    /** Remove the least recently used unpinned page, if there is one. */
    method EvictOne(ghost pins: set<Page<V>>) returns (evicted: bool)
      requires Valid() && PinsAre(pins)
      modifies this`entries, this`head, this`tail, this`items, this`size
      ensures Valid() && PinsAre(pins)
      ensures evicted <==> FirstFree(old(items), pins) < |old(items)|
      ensures items == if evicted then Without(old(items), FirstFree(old(items), pins)) else old(items)
    {
      var victim := FindVictim(pins);
      if victim.None? {
        return false;
      }
      ghost var i, all := FirstFree(items, pins), items;
      IndexUnique(items, i);
      RemoveEntry(victim.value);
      assert forall j :: 0 <= j < |items| ==> items[j] == all[if j < i then j else j + 1];
      return true;
    }

    /** Evict until `needed` more fits; false when a pass runs out of unpinned pages. */
    method EvictUntilFits(needed: nat, ghost pins: set<Page<V>>) returns (ok: bool)
      requires Valid() && PinsAre(pins) && Countable(needed)
      modifies this`entries, this`head, this`tail, this`items, this`size
      ensures Valid() && PinsAre(pins)
      ensures Outcome(items, ok) == EvictPass(old(items), pins, needed, capacity)
    {
      while SaturatingAdd(size, needed) > capacity
        invariant Valid() && PinsAre(pins) && Countable(needed)
        invariant EvictPass(items, pins, needed, capacity) == EvictPass(old(items), pins, needed, capacity)
        decreases |items|
      {
        var evicted := EvictOne(pins);
        if !evicted {
          return false;
        }
      }
      return true;
    }

    method MaybeEvict(needed: nat, probability: Option<nat>, roll: nat, ghost pins: set<Page<V>>) returns (ok: bool)
      requires Valid() && PinsAre(pins) && Countable(needed) && Total(items) + needed > capacity
      modifies this`entries, this`head, this`tail, this`items, this`size
      ensures Valid() && PinsAre(pins)
      ensures Outcome(items, ok) == MakeRoom(old(items), pins, needed, capacity, RollAllows(EffectiveProbability(probability), roll))
    {
      var p := EffectiveProbability(probability);
      if p == 0 {
        return false;
      }
      if p < 100 {
        if roll >= p {
          return false;
        }
      }
      ok := EvictUntilFits(needed, pins);
    }

    function EffectiveProbability(probability: Option<nat>): nat
      reads this`evictProbability
    {
      var p := if probability.Some? then probability.value else evictProbability;
      if p > 100 then 100 else p
    }

    /** Move a resident key behind the tail; nothing else about the cache changes. */
    method Touch(key: K)
      requires Valid() && IndexOf(items, key) < |items|
      modifies this`entries, this`head, this`tail, this`items
      ensures Valid() && var i := IndexOf(old(items), key); items == Without(old(items), i) + [old(items)[i]]
    {
      TouchTotal(items, IndexOf(items, key));
      MoveToTail(key);
    }

    /** A hit pins the page for the caller and makes it the most recently used. */
    method Lookup(key: K) returns (handle: Option<Page<V>>)
      requires Valid()
      modifies this`entries, this`head, this`tail, this`items, (set i | 0 <= i < |items| :: items[i].page)`pinCount
      ensures Valid()
      ensures var i := IndexOf(old(items), key);
              if i == |old(items)| then handle == None && items == old(items)
              else handle == Some(old(items)[i].page) && items == Without(old(items), i) + [old(items)[i]]
      ensures forall i :: 0 <= i < |old(items)| ==>
                var p := old(items)[i].page;
                p.pinCount == if handle == Some(p) then (old(p.pinCount) + 1) % (USIZE_MAX + 1) else old(p.pinCount)
    {
      ResidentIndex(Links(), items, key);
      if key !in entries {
        return None;
      }
      ghost var i := IndexOf(items, key);
      assert Holds(Links(), items, i);
      var page := entries[key].page;
      page.Pin();
      Touch(key);
      handle := Some(page);
    }

    /** Give a resident key another page and charge where it stands. */
    method Overwrite(key: K, page: Page<V>, charge: nat)
      requires Valid() && IndexOf(items, key) < |items|
      requires Total(Without(items, IndexOf(items, key))) + charge <= USIZE_MAX
      modifies this`entries, this`items, this`size
      ensures Valid() && items == old(items)[IndexOf(old(items), key) := Item(key, page, charge)]
    {
      ghost var i, x := IndexOf(items, key), Item(key, page, charge);
      assert Holds(Links(), items, i);
      ReplaceRepresents(Links(), items, i, x);
      ReplaceTotal(items, i, x);
      size := SaturatingAdd(SaturatingSub(size, entries[key].charge), charge);
      entries := entries[key := entries[key].(charge := charge, page := page)];
      items := items[i := x];
    }

    /** Overwrite a resident key where it stands, then make it the most recently used. */
    method OverwriteAndTouch(key: K, page: Page<V>, charge: nat)
      requires Valid() && IndexOf(items, key) < |items|
      requires Total(Without(items, IndexOf(items, key))) + charge <= USIZE_MAX
      modifies this`entries, this`head, this`tail, this`items, this`size
      ensures Valid() && items == Without(old(items), IndexOf(old(items), key)) + [Item(key, page, charge)]
    {
      TouchReplaced(items, IndexOf(items, key), Item(key, page, charge));
      Overwrite(key, page, charge);
      Touch(key);
    }

    /** Replace a resident key's page and charge, and touch it. */
    method Replace(key: K, value: V, charge: nat)
      requires Valid() && IndexOf(items, key) < |items|
      requires Total(Without(items, IndexOf(items, key))) + charge <= USIZE_MAX
      modifies this`entries, this`head, this`tail, this`items, this`size
      ensures Valid() && size == Total(Without(old(items), IndexOf(old(items), key))) + charge
      ensures StoredBehind(Without(old(items), IndexOf(old(items), key)), key, value, charge)
      ensures fresh(items[|items| - 1].page)
    {
      ghost var front := Without(items, IndexOf(items, key));
      var page := new Page(value);
      OverwriteAndTouch(key, page, charge);
      TakeSnoc(front, Item(key, page, charge));
      TotalSnoc(front, Item(key, page, charge));
    }

    /** The most recently used item is a new, unpinned page with this key, value and charge, behind `front`. */
    ghost predicate StoredBehind(front: seq<Item<K, Page<V>>>, key: K, value: V, charge: nat)
      reads this, set i | 0 <= i < |items| :: items[i].page
    {
      && |items| == |front| + 1 && items[..|front|] == front
      && var x := items[|front|];
         x.key == key && x.charge == charge && x.page.value == value && x.page.pinCount == 0
    }

    /** Enter a page in the map and the list, leaving the size alone. */
    method FilePage(key: K, page: Page<V>, charge: nat)
      requires Represents(Links(), items) && IndexOf(items, key) == |items|
      modifies this`entries, this`head, this`tail, this`items
      ensures Represents(Links(), items) && items == old(items) + [Item(key, page, charge)]
    {
      ghost var all, x := items, Item(key, page, charge);
      AbsentKey(items, key);
      ThreadedOutside(Links(), items, key, Entry(page, charge, None, None));
      entries := entries[key := Entry(page, charge, None, None)];
      AttachTail(key, x);
      KeysOfSnoc(all, x);
    }

    /** File a page under an absent key, behind the tail. */
    method StorePage(key: K, page: Page<V>, charge: nat)
      requires Valid() && IndexOf(items, key) == |items| && Total(items) + charge <= USIZE_MAX
      modifies this`entries, this`head, this`tail, this`items, this`size
      ensures Valid() && items == old(items) + [Item(key, page, charge)]
    {
      ghost var all, x := items, Item(key, page, charge);
      FilePage(key, page, charge);
      TotalSnoc(all, x);
      size := SaturatingAdd(size, charge);
    }

    /** Add an absent key behind the tail. */
    method StoreAbsent(key: K, value: V, charge: nat)
      requires Valid() && IndexOf(items, key) == |items| && Total(items) + charge <= USIZE_MAX
      modifies this`entries, this`head, this`tail, this`items, this`size
      ensures Valid() && size == old(size) + charge && StoredBehind(old(items), key, value, charge)
      ensures fresh(items[|items| - 1].page)
    {
      ghost var front := items;
      var page := new Page(value);
      StorePage(key, page, charge);
      TakeSnoc(front, Item(key, page, charge));
      TotalSnoc(front, Item(key, page, charge));
    }

    /** Make room for `need` more unless there already is. */
    method EnsureRoom(need: nat, probability: Option<nat>, roll: nat, ghost pins: set<Page<V>>) returns (ok: bool)
      requires Valid() && PinsAre(pins) && Countable(need)
      modifies this`entries, this`head, this`tail, this`items, this`size
      ensures Valid() && PinsAre(pins) && size <= old(size) && (ok ==> size + need <= capacity)
      ensures Outcome(items, ok) == MakeRoom(old(items), pins, need, capacity, RollAllows(EffectiveProbability(probability), roll))
      ensures OnlyOf(items, old(items))
    {
      PassFits(items, pins, need, capacity);
      PassSubset(items, pins, need, capacity);
      if SaturatingAdd(size, need) > capacity {
        ok := MaybeEvict(need, probability, roll, pins);
      } else {
        ok := true;
      }
    }

    /** Store an absent key, making room first. */
    method InsertAbsent(key: K, value: V, charge: nat, probability: Option<nat>, roll: nat, ghost pins: set<Page<V>>) returns (ok: bool)
      requires Valid() && PinsAre(pins) && Countable(charge) && IndexOf(items, key) == |items| && charge <= capacity
      modifies this`entries, this`head, this`tail, this`items, this`size
      ensures Valid() && (old(size) <= capacity ==> size <= capacity)
      ensures var plan := StoreNew(old(items), pins, capacity, charge, RollAllows(EffectiveProbability(probability), roll));
              && ok == plan.Stored?
              && (!ok ==> items == plan.left)
              && (ok ==> StoredBehind(plan.front, key, value, charge) && fresh(items[|plan.front|].page))
    {
      ok := EnsureRoom(charge, probability, roll, pins);
      if ok {
        StillAbsent(old(items), items, key);
        StoreAbsent(key, value, charge);
      }
    }

    /** Make room for a resident key to grow; it may evict the key itself. */
    method GrowRoom(key: K, charge: nat, probability: Option<nat>, roll: nat, ghost pins: set<Page<V>>) returns (ok: bool)
      requires Valid() && PinsAre(pins) && Countable(charge) && IndexOf(items, key) < |items|
      modifies this`entries, this`head, this`tail, this`items, this`size
      ensures Valid() && PinsAre(pins) && size <= old(size)
      ensures Outcome(items, ok) == GrowOutcome(old(items), pins, capacity, IndexOf(old(items), key), charge, RollAllows(EffectiveProbability(probability), roll))
      ensures var j := IndexOf(items, key);
              ok && j < |items| ==>
                && Total(Without(items, j)) + charge <= USIZE_MAX
                && (old(size) <= capacity ==> Total(Without(items, j)) + charge <= capacity)
    {
      ghost var i := IndexOf(items, key);
      assert Holds(Links(), items, i);
      var resident := entries[key].charge;
      if charge <= resident {
        TotalWithout(items, i);
        return true;
      }
      ok := EvictForGrowth(key, resident, charge, probability, roll, pins);
    }

    /** The eviction before a resident key grows from `resident` to `charge`. */
    method EvictForGrowth(key: K, resident: nat, charge: nat, probability: Option<nat>, roll: nat, ghost pins: set<Page<V>>) returns (ok: bool)
      requires Valid() && PinsAre(pins) && Countable(charge) && resident < charge
      requires var i := IndexOf(items, key); i < |items| && items[i].charge == resident
      modifies this`entries, this`head, this`tail, this`items, this`size
      ensures Valid() && PinsAre(pins) && size <= old(size)
      ensures Outcome(items, ok) == MakeRoom(old(items), pins, charge - resident, capacity, RollAllows(EffectiveProbability(probability), roll))
      ensures var j := IndexOf(items, key);
              ok && j < |items| ==> Total(Without(items, j)) + charge <= capacity
    {
      ok := EnsureRoom(charge - resident, probability, roll, pins);
      ghost var j := IndexOf(items, key);
      if ok && j < |items| {
        GrownTotal(old(items), items, IndexOf(old(items), key), j, resident, charge);
      }
    }

    /**
     Insert or replace a page. A page that fits beside the others is always stored; one that does
     not costs the shortest run of least recently used unheld pages that makes room, and is refused
     only if the roll says no or every page left is held.
     */
    method Insert(key: K, value: V, charge: nat, probability: Option<nat>, roll: nat, rollAgain: nat,
                  ghost pins: set<Page<V>>) returns (ok: bool)
      requires Valid() && PinsAre(pins) && Countable(charge)
      modifies this`entries, this`head, this`tail, this`items, this`size
      ensures Valid() && (old(size) <= capacity ==> size <= capacity)
      ensures !(0 < charge <= capacity) ==> !ok && items == old(items)
      ensures 0 < charge <= capacity && Fits(old(items), key, charge, capacity) ==> ok
      ensures ok ==> items != [] && StoredBehind(items[..|items| - 1], key, value, charge) && fresh(items[|items| - 1].page)
      ensures ok ==> Inserted(old(items), pins, capacity, key, charge, items[..|items| - 1])
      ensures 0 < charge <= capacity && !ok ==> Refused(old(items), pins, capacity, key, charge, items)
      ensures 0 < charge <= capacity && !ok ==>
                var p := if probability.Some? then probability.value else evictProbability;
                AllHeld(items, pins) || p == 0 || (p < 100 && (roll >= p || rollAgain >= p))
    {
      if charge == 0 || charge > capacity {
        return false;
      }
      ResidentIndex(Links(), items, key);
      ghost var p := EffectiveProbability(probability);
      PlanAchieves(items, pins, capacity, key, charge, RollAllows(p, roll), RollAllows(p, rollAgain));
      if key in entries {
        ok := InsertResident(key, value, charge, probability, roll, rollAgain, pins);
      } else {
        ok := InsertAbsent(key, value, charge, probability, rollAgain, pins);
      }
    }

    /** Grow or shrink a resident key, storing it anew if making room evicted it. */
    method InsertResident(key: K, value: V, charge: nat, probability: Option<nat>, roll: nat, rollAgain: nat,
                          ghost pins: set<Page<V>>) returns (ok: bool)
      requires Valid() && PinsAre(pins) && Countable(charge) && IndexOf(items, key) < |items| && charge <= capacity
      modifies this`entries, this`head, this`tail, this`items, this`size
      ensures Valid() && (old(size) <= capacity ==> size <= capacity)
      ensures var p := EffectiveProbability(probability);
              var grown := GrowOutcome(old(items), pins, capacity, IndexOf(old(items), key), charge, RollAllows(p, roll));
              var plan := GrownPlan(grown, pins, capacity, key, charge, RollAllows(p, rollAgain));
              && ok == plan.Stored?
              && (!ok ==> items == plan.left)
              && (ok ==> StoredBehind(plan.front, key, value, charge) && fresh(items[|plan.front|].page))
    {
      ok := GrowRoom(key, charge, probability, roll, pins);
      if ok {
        ok := StoreGrown(key, value, charge, probability, rollAgain, pins);
      }
    }

    /** With room made, replace the key where it is, or store it anew if it was evicted. */
    method StoreGrown(key: K, value: V, charge: nat, probability: Option<nat>, rollAgain: nat, ghost pins: set<Page<V>>)
      returns (ok: bool)
      requires Valid() && PinsAre(pins) && Countable(charge) && charge <= capacity
      requires var j := IndexOf(items, key); j < |items| ==> Total(Without(items, j)) + charge <= USIZE_MAX
      modifies this`entries, this`head, this`tail, this`items, this`size
      ensures Valid()
      ensures var j := IndexOf(old(items), key);
              old(size) <= capacity && (j < |old(items)| ==> Total(Without(old(items), j)) + charge <= capacity) ==> size <= capacity
      ensures var plan := GrownPlan(Outcome(old(items), true), pins, capacity, key, charge, RollAllows(EffectiveProbability(probability), rollAgain));
              && ok == plan.Stored?
              && (!ok ==> items == plan.left)
              && (ok ==> StoredBehind(plan.front, key, value, charge) && fresh(items[|plan.front|].page))
    {
      ResidentIndex(Links(), items, key);
      if key in entries {
        Replace(key, value, charge);
        ok := true;
      } else {
        ok := InsertAbsent(key, value, charge, probability, rollAgain, pins);
      }
    }

    /** Lower the limit and evict down to it; a failure leaves only pinned pages. */
    method SetCapacity(newCapacity: nat, ghost pins: set<Page<V>>) returns (ok: bool)
      requires Valid() && PinsAre(pins) && newCapacity <= USIZE_MAX
      modifies this`entries, this`head, this`tail, this`items, this`size, this`capacity
      ensures Valid() && PinsAre(pins) && capacity == if newCapacity == 0 then 1 else newCapacity
      ensures Outcome(items, ok) == EvictPass(old(items), pins, 0, capacity)
      ensures ok <==> size <= capacity
      ensures !ok ==> forall i :: 0 <= i < |items| ==> items[i].page.pinCount > 0
    {
      capacity := if newCapacity == 0 then 1 else newCapacity;
      PassFits(items, pins, 0, capacity);
      ghost var before := items;
      ok := EvictUntilFits(0, pins);
      if !ok {
        FailedPassAllPinned(before, pins, 0, capacity);
      }
    }
  }

  /** The map knows a key exactly when the recency sequence does. */
  lemma ResidentIndex<K, P>(l: List<K, P>, items: seq<Item<K, P>>, key: K)
    requires Represents(l, items)
    ensures key in l.entries <==> IndexOf(items, key) < |items|
  {
    var i := IndexOf(items, key);
    if i < |items| {
      assert Holds(l, items, i);
    }
  }

  lemma AbsentKey<K, P>(items: seq<Item<K, P>>, key: K)
    requires IndexOf(items, key) == |items|
    ensures !HasKey(items, key)
  {
  }

  /** Giving one element a new page and charge leaves the links as they are. */
  lemma ReplaceRepresents<K, P>(l: List<K, P>, items: seq<Item<K, P>>, i: nat, x: Item<K, P>)
    requires Represents(l, items) && i < |items| && x.key == items[i].key
    ensures x.key in l.entries
    ensures Represents(l.(entries := l.entries[x.key := l.entries[x.key].(charge := x.charge, page := x.page)]), items[i := x])
  {
    assert Holds(l, items, i);
    var l' := l.(entries := l.entries[x.key := l.entries[x.key].(charge := x.charge, page := x.page)]);
    var items' := items[i := x];
    assert forall j :: 0 <= j < |items| ==> items'[j].key == items[j].key;
    forall j | 0 <= j < |items'|
      ensures Holds(l', items', j)
    {
      assert Holds(l, items, j);
    }
    forall k | k in l'.entries
      ensures HasKey(items', k)
    {
      assert HasKey(items, k);
      var j :| 0 <= j < |items| && items[j].key == k;
      assert items'[j].key == k;
    }
  }

  /** Nothing new appears. */
  ghost predicate OnlyOf<K, P>(some: seq<Item<K, P>>, all: seq<Item<K, P>>) {
    forall x :: x in some ==> x in all
  }

  lemma SameItem<K, P>(all: seq<Item<K, P>>, i: nat, some: seq<Item<K, P>>, j: nat)
    requires Distinct(all) && i < |all| && j < |some| && all[i].key == some[j].key
    requires OnlyOf(some, all)
    ensures some[j] == all[i]
  {
    assert some[j] in all;
  }

  /** What the other pages and a grown one weigh together. */
  lemma GrownTotal<K, P>(before: seq<Item<K, P>>, after: seq<Item<K, P>>, i: nat, j: nat, resident: nat, charge: nat)
    requires Distinct(before) && i < |before| && j < |after| && before[i].key == after[j].key && before[i].charge == resident
    requires OnlyOf(after, before)
    ensures Total(Without(after, j)) + charge == Total(after) + charge - resident
  {
    SameItem(before, i, after, j);
    TotalWithout(after, j);
  }

  lemma StillAbsent<K, P>(all: seq<Item<K, P>>, some: seq<Item<K, P>>, key: K)
    requires IndexOf(all, key) == |all| && OnlyOf(some, all)
    ensures IndexOf(some, key) == |some|
  {
    assert forall i :: 0 <= i < |some| ==> some[i] in all;
  }

  lemma TakeSnoc<T>(front: seq<T>, x: T)
    ensures (front + [x])[..|front|] == front
  {
  }

  lemma ReplaceTotal<K, P>(items: seq<Item<K, P>>, i: nat, x: Item<K, P>)
    requires i < |items|
    ensures Total(items) == Total(Without(items, i)) + items[i].charge
    ensures Total(items[i := x]) == Total(Without(items, i)) + x.charge
    ensures Without(items[i := x], i) == Without(items, i)
  {
    TotalWithout(items, i);
    TotalWithout(items[i := x], i);
    assert Without(items[i := x], i) == Without(items, i);
  }

  lemma ReplaceIndex<K, P>(items: seq<Item<K, P>>, i: nat, x: Item<K, P>)
    requires Distinct(items) && i < |items| && x.key == items[i].key
    ensures IndexOf(items[i := x], x.key) == i
  {
    assert forall j :: 0 <= j < |items| ==> items[i := x][j].key == items[j].key;
    IndexUnique(items[i := x], i);
  }

  /** Replacing an item and then touching it puts the new one behind the others. */
  lemma TouchReplaced<K, P>(items: seq<Item<K, P>>, i: nat, x: Item<K, P>)
    requires Distinct(items) && i < |items| && x.key == items[i].key
    ensures IndexOf(items[i := x], x.key) == i && items[i := x][i] == x && Without(items[i := x], i) == Without(items, i)
  {
    ReplaceIndex(items, i, x);
    ReplaceTotal(items, i, x);
  }

  lemma KeysOfSnoc<K, P>(items: seq<Item<K, P>>, x: Item<K, P>)
    ensures forall k :: HasKey(items, k) || k == x.key ==> HasKey(items + [x], k)
  {
    assert (items + [x])[|items|] == x;
    assert forall j :: 0 <= j < |items| ==> (items + [x])[j] == items[j];
  }

  lemma TouchTotal<K, P>(items: seq<Item<K, P>>, i: nat)
    requires i < |items|
    ensures Total(Without(items, i) + [items[i]]) == Total(items)
  {
    TotalWithout(items, i);
    TotalSnoc(Without(items, i), items[i]);
  }

  lemma KeysLeft<K, P>(items: seq<Item<K, P>>, i: nat)
    requires i < |items|
    ensures forall k :: HasKey(items, k) && k != items[i].key ==> HasKey(Without(items, i), k)
  {
    forall k | HasKey(items, k) && k != items[i].key
      ensures HasKey(Without(items, i), k)
    {
      var j :| 0 <= j < |items| && items[j].key == k;
      assert Without(items, i)[if j < i then j else j - 1] == items[j];
    }
  }

  lemma FirstUnpinned<K, P>(items: seq<Item<K, P>>, pins: set<P>, i: nat)
    requires i <= |items| && forall j :: 0 <= j < i ==> items[j].page in pins
    requires i < |items| ==> items[i].page !in pins
    ensures FirstFree(items, pins) == i
  {
  }

  lemma IndexUnique<K, P>(items: seq<Item<K, P>>, i: nat)
    requires Distinct(items) && i < |items|
    ensures IndexOf(items, items[i].key) == i
  {
  }

  lemma LastIndex<K, P>(items: seq<Item<K, P>>, i: nat)
    requires Distinct(items) && i < |items| && items[|items| - 1].key == items[i].key
    ensures i == |items| - 1 && Without(items, i) + [items[i]] == items
  {
  }

  lemma KeysKept<K, P>(before: seq<Item<K, P>>, i: nat, after: seq<Item<K, P>>)
    requires i < |before| && after == Without(before, i) + [before[i]]
    ensures forall k :: HasKey(before, k) ==> HasKey(after, k)
  {
    forall k | HasKey(before, k)
      ensures HasKey(after, k)
    {
      var j :| 0 <= j < |before| && before[j].key == k;
      var at := if j < i then j else if j == i then |after| - 1 else j - 1;
      assert after[at] == before[j];
    }
  }

  /** A stored page is what the next lookup of its key returns. */
  method InsertThenLookup<K(==), V>(c: CacheInner<K, V>, key: K, value: V, charge: nat, probability: Option<nat>, roll: nat,
                                    rollAgain: nat, ghost pins: set<Page<V>>) returns (ok: bool, handle: Option<Page<V>>)
    requires c.Valid() && c.PinsAre(pins) && c.Countable(charge)
    modifies c`entries, c`head, c`tail, c`items, c`size, (set i | 0 <= i < |c.items| :: c.items[i].page)`pinCount
    ensures ok ==> handle.Some? && handle.value.value == value && handle.value.pinCount == 1
  {
    ok := c.Insert(key, value, charge, probability, roll, rollAgain, pins);
    if ok {
      InsertedKeeps(old(c.items), pins, c.capacity, key, charge, c.items[..|c.items| - 1]);
      forall i | 0 <= i < |c.items| ensures fresh(c.items[i].page) || exists j :: 0 <= j < |old(c.items)| && old(c.items)[j].page == c.items[i].page {
        if i < |c.items| - 1 {
          assert c.items[..|c.items| - 1][i] in old(c.items);
        }
      }
      handle := LookupLast(c, key, value);
    } else {
      handle := None;
    }
  }

  method LookupLast<K(==), V>(c: CacheInner<K, V>, key: K, value: V) returns (handle: Option<Page<V>>)
    requires c.Valid() && c.items != []
    requires var x := c.items[|c.items| - 1]; x.key == key && x.page.value == value && x.page.pinCount == 0
    modifies c`entries, c`head, c`tail, c`items, (set i | 0 <= i < |c.items| :: c.items[i].page)`pinCount
    ensures handle.Some? && handle.value.value == value && handle.value.pinCount == 1
  {
    IndexUnique(c.items, |c.items| - 1);
    handle := c.Lookup(key);
  }

  lemma WrapsAround(n: nat)
    requires n <= USIZE_MAX
    ensures (n + 1) % (USIZE_MAX + 1) == if n == USIZE_MAX then 0 else n + 1
  {
  }

  /** Dropping the handle a lookup returned gives every pin count back; only the recency order changes. */
  method LookupThenDrop<K(==), V>(c: CacheInner<K, V>, key: K) returns (hit: bool)
    requires c.Valid() && forall i :: 0 <= i < |c.items| ==> c.items[i].page.pinCount <= USIZE_MAX
    modifies c`entries, c`head, c`tail, c`items, (set i | 0 <= i < |c.items| :: c.items[i].page)`pinCount
    ensures c.Valid() && (hit <==> IndexOf(old(c.items), key) < |old(c.items)|)
    ensures var i := IndexOf(old(c.items), key);
            c.items == if hit then Without(old(c.items), i) + [old(c.items)[i]] else old(c.items)
    ensures forall i :: 0 <= i < |old(c.items)| ==> old(c.items)[i].page.pinCount == old(c.items[i].page.pinCount)
  {
    var handle := c.Lookup(key);
    if handle.Some? {
      WrapsAround(old(handle.value.pinCount));
      handle.value.Unpin();
    }
    hit := handle.Some?;
  }
}
