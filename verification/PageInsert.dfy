/**
 What an insertion does to the recency sequence: the plan the code follows, and the outcome it
 amounts to.
 */
module PageInsert {
  import opened PageRecency

  // ---------------------------------------------------------------------
  // The plan
  // ---------------------------------------------------------------------

  /** Whether the eviction roll lets a pass start. */
  predicate RollAllows(probability: nat, roll: nat) {
    probability != 0 && (probability >= 100 || roll < probability)
  }

  /** What an insertion does to the recency sequence; the stored page goes behind `front`. */
  datatype Plan<K, P> = Rejected(left: seq<Item<K, P>>) | Stored(front: seq<Item<K, P>>)

  /** Make room for `need`, unless there already is or the roll says no. */
  ghost function MakeRoom<K, P>(items: seq<Item<K, P>>, pins: set<P>, need: nat, capacity: nat, allowed: bool): Outcome<K, P> {
    if Total(items) + need <= capacity then Outcome(items, true)
    else if !allowed then Outcome(items, false)
    else EvictPass(items, pins, need, capacity)
  }

  /** A resident key is first grown in place; if making room evicts it, it is stored anew. */
  ghost function InsertPlan<K, P>(items: seq<Item<K, P>>, pins: set<P>, capacity: nat, key: K, charge: nat,
                                  allowed: bool, allowedAgain: bool): Plan<K, P>
  {
    if charge == 0 || charge > capacity then Rejected(items)
    else
      var i := IndexOf(items, key);
      if i == |items| then StoreNew(items, pins, capacity, charge, allowedAgain)
      else
        GrownPlan(GrowOutcome(items, pins, capacity, i, charge, allowed), pins, capacity, key, charge, allowedAgain)
  }

  ghost function GrowOutcome<K, P>(items: seq<Item<K, P>>, pins: set<P>, capacity: nat, i: nat, charge: nat, allowed: bool): Outcome<K, P>
    requires i < |items|
  {
    if charge > items[i].charge then MakeRoom(items, pins, charge - items[i].charge, capacity, allowed)
    else Outcome(items, true)
  }

  ghost function GrownPlan<K, P>(grown: Outcome<K, P>, pins: set<P>, capacity: nat, key: K, charge: nat, allowed: bool): Plan<K, P> {
    var j := IndexOf(grown.items, key);
    if !grown.fits then Rejected(grown.items)
    else if j < |grown.items| then Stored(Without(grown.items, j))
    else StoreNew(grown.items, pins, capacity, charge, allowed)
  }

  ghost function StoreNew<K, P>(items: seq<Item<K, P>>, pins: set<P>, capacity: nat, charge: nat, allowed: bool): Plan<K, P> {
    var room := MakeRoom(items, pins, charge, capacity, allowed);
    if room.fits then Stored(room.items) else Rejected(room.items)
  }

  // ---------------------------------------------------------------------
  // The outcome
  // ---------------------------------------------------------------------

  /** The sequence less the key's own item, if it has one. */
  ghost function Others<K, P>(items: seq<Item<K, P>>, key: K): seq<Item<K, P>> {
    var i := IndexOf(items, key);
    if i < |items| then Without(items, i) else items
  }

  /** The page would fit beside the other pages. */
  ghost predicate Fits<K, P>(items: seq<Item<K, P>>, key: K, charge: nat, capacity: nat) {
    Total(Others(items, key)) + charge <= capacity
  }

  /** The key is new, or its charge goes up. */
  ghost predicate Grows<K, P>(items: seq<Item<K, P>>, key: K, charge: nat) {
    var i := IndexOf(items, key);
    i < |items| ==> charge > items[i].charge
  }

  /** The `m` least recently used unheld pages are the shortest run of them whose loss makes the page fit. */
  ghost predicate ShortestRun<K, P>(items: seq<Item<K, P>>, pins: set<P>, capacity: nat, key: K, charge: nat, m: nat) {
    && m <= FreeCount(items, pins) && Fits(DropFree(items, pins, m), key, charge, capacity)
    && forall k :: 0 <= k < m ==> !Fits(DropFree(items, pins, k), key, charge, capacity)
  }

  /** The page went behind the other pages that are left once the shortest run is gone. */
  ghost predicate Inserted<K, P>(items: seq<Item<K, P>>, pins: set<P>, capacity: nat, key: K, charge: nat, front: seq<Item<K, P>>) {
    if Grows(items, key, charge) then
      exists m :: ShortestRun(items, pins, capacity, key, charge, m) && front == Others(DropFree(items, pins, m), key)
    else front == Others(items, key)
  }

  /** The page did not fit, with some least recently used unheld pages gone or none. */
  ghost predicate Refused<K, P>(items: seq<Item<K, P>>, pins: set<P>, capacity: nat, key: K, charge: nat, left: seq<Item<K, P>>) {
    && Grows(items, key, charge) && !Fits(left, key, charge, capacity)
    && exists m :: 0 <= m <= FreeCount(items, pins) && left == DropFree(items, pins, m)
  }

  ghost predicate AllHeld<K, P>(items: seq<Item<K, P>>, pins: set<P>) {
    forall i :: 0 <= i < |items| ==> items[i].page in pins
  }

  // ---------------------------------------------------------------------
  // Dropping pages
  // ---------------------------------------------------------------------

  lemma {:induction false} DropMore<K, P>(items: seq<Item<K, P>>, pins: set<P>, a: nat, b: nat)
    ensures DropFree(DropFree(items, pins, a), pins, b) == DropFree(items, pins, a + b)
  {
    if items != [] && a > 0 {
      if items[0].page in pins {
        DropMore(items[1..], pins, a, b);
        var rest := DropFree(items[1..], pins, a);
        assert DropFree(items, pins, a) == [items[0]] + rest;
        assert ([items[0]] + rest)[1..] == rest;
      } else {
        DropMore(items[1..], pins, a - 1, b);
      }
    }
  }

  lemma {:induction false} DropCount<K, P>(items: seq<Item<K, P>>, pins: set<P>, m: nat)
    requires m <= FreeCount(items, pins)
    ensures FreeCount(DropFree(items, pins, m), pins) == FreeCount(items, pins) - m
  {
    if items != [] && m > 0 {
      if items[0].page in pins {
        DropCount(items[1..], pins, m);
        var rest := DropFree(items[1..], pins, m);
        assert ([items[0]] + rest)[1..] == rest;
      } else {
        DropCount(items[1..], pins, m - 1);
      }
    }
  }

  lemma {:induction false} DropSubset<K, P>(items: seq<Item<K, P>>, pins: set<P>, m: nat, x: Item<K, P>)
    requires x in DropFree(items, pins, m)
    ensures x in items
  {
    if items != [] && m > 0 {
      if items[0].page in pins {
        if x != items[0] {
          DropSubset(items[1..], pins, m, x);
        }
      } else {
        DropSubset(items[1..], pins, m - 1, x);
      }
    }
  }

  /** A key that is still there has its old item. */
  lemma KeptItem<K, P>(items: seq<Item<K, P>>, pins: set<P>, m: nat, key: K)
    requires Distinct(items)
    ensures var dropped := DropFree(items, pins, m);
            IndexOf(dropped, key) < |dropped| ==>
              IndexOf(items, key) < |items| && dropped[IndexOf(dropped, key)] == items[IndexOf(items, key)]
  {
    var dropped := DropFree(items, pins, m);
    var j := IndexOf(dropped, key);
    if j < |dropped| {
      DropSubset(items, pins, m, dropped[j]);
      var k :| 0 <= k < |items| && items[k] == dropped[j];
    }
  }

  lemma OthersTotal<K, P>(items: seq<Item<K, P>>, key: K)
    ensures var i := IndexOf(items, key); Total(Others(items, key)) == Total(items) - if i < |items| then items[i].charge else 0
  {
    var i := IndexOf(items, key);
    if i < |items| {
      TotalWithout(items, i);
    }
  }

  /** With the key absent or its charge counted, a run too short for the growth is too short for the page. */
  lemma StillTooMuch<K, P>(items: seq<Item<K, P>>, pins: set<P>, capacity: nat, key: K, charge: nat, need: nat, k: nat)
    requires Distinct(items) && Grows(items, key, charge)
    requires need == charge - (var i := IndexOf(items, key); if i < |items| then items[i].charge else 0)
    requires Total(DropFree(items, pins, k)) + need > capacity
    ensures !Fits(DropFree(items, pins, k), key, charge, capacity)
  {
    KeptItem(items, pins, k, key);
    OthersTotal(DropFree(items, pins, k), key);
  }

  ghost predicate Absent<K, P>(items: seq<Item<K, P>>, key: K) {
    IndexOf(items, key) == |items|
  }

  /** Dropping pages does not bring a key back. */
  lemma StaysAbsent<K, P>(items: seq<Item<K, P>>, pins: set<P>, m: nat, key: K)
    requires Absent(items, key)
    ensures Absent(DropFree(items, pins, m), key)
  {
    forall x | x in DropFree(items, pins, m) ensures x.key != key {
      DropSubset(items, pins, m, x);
    }
  }

  lemma AbsentRun<K, P>(items: seq<Item<K, P>>, pins: set<P>, capacity: nat, key: K, charge: nat, m: nat)
    requires Absent(items, key) && Total(DropFree(items, pins, m)) + charge > capacity
    ensures !Fits(DropFree(items, pins, m), key, charge, capacity)
  {
    StaysAbsent(items, pins, m, key);
  }

  // ---------------------------------------------------------------------
  // The plan gives the outcome
  // ---------------------------------------------------------------------

  /** The plan's outcome, in terms of the sequence before. */
  ghost predicate Achieves<K, P>(items: seq<Item<K, P>>, pins: set<P>, capacity: nat, key: K, charge: nat, freely: bool, plan: Plan<K, P>) {
    match plan
    case Stored(front) => Inserted(items, pins, capacity, key, charge, front)
    case Rejected(left) =>
      && Refused(items, pins, capacity, key, charge, left) && !Fits(items, key, charge, capacity)
      && (freely ==> AllHeld(left, pins))
  }

  /** Storing a key that is not there once `a` pages are gone, none of whose shorter runs was enough. */
  lemma StoreNewAchieves<K, P>(items: seq<Item<K, P>>, pins: set<P>, capacity: nat, key: K, charge: nat, a: nat, start: seq<Item<K, P>>, allowed: bool)
    requires Grows(items, key, charge) && a <= FreeCount(items, pins) && start == DropFree(items, pins, a) && Absent(start, key)
    requires forall k :: 0 <= k < a ==> !Fits(DropFree(items, pins, k), key, charge, capacity)
    ensures Achieves(items, pins, capacity, key, charge, allowed, StoreNew(start, pins, capacity, charge, allowed))
  {
    if Total(start) + charge <= capacity {
      assert ShortestRun(items, pins, capacity, key, charge, a);
    } else {
      StartDoesNotFit(items, pins, capacity, key, charge, a);
      if allowed {
        var b := EvictPassVictims(start, pins, charge, capacity);
        MoreRuns(items, pins, capacity, key, charge, a, start, b);
        if !EvictPass(start, pins, charge, capacity).fits {
          FailedPassAllPinned(start, pins, charge, capacity);
        }
      }
    }
  }

  lemma StartDoesNotFit<K, P>(items: seq<Item<K, P>>, pins: set<P>, capacity: nat, key: K, charge: nat, a: nat)
    requires forall k :: 0 <= k < a ==> !Fits(DropFree(items, pins, k), key, charge, capacity)
    requires !Fits(DropFree(items, pins, a), key, charge, capacity)
    ensures !Fits(items, key, charge, capacity)
  {
    assert DropFree(items, pins, 0) == items;
  }

  /** A second pass over what the first left drops `b` more pages of the same sequence. */
  lemma MoreRuns<K, P>(items: seq<Item<K, P>>, pins: set<P>, capacity: nat, key: K, charge: nat, a: nat, start: seq<Item<K, P>>, b: nat)
    requires a <= FreeCount(items, pins) && start == DropFree(items, pins, a) && Absent(start, key)
    requires b <= FreeCount(start, pins) && Short(start, pins, charge, capacity, b)
    ensures a + b <= FreeCount(items, pins) && DropFree(start, pins, b) == DropFree(items, pins, a + b)
    ensures Absent(DropFree(start, pins, b), key)
    ensures forall k :: a <= k < a + b ==> !Fits(DropFree(items, pins, k), key, charge, capacity)
  {
    DropCount(items, pins, a);
    DropMore(items, pins, a, b);
    StaysAbsent(start, pins, b, key);
    forall k | a <= k < a + b ensures !Fits(DropFree(items, pins, k), key, charge, capacity) {
      DropMore(items, pins, a, k - a);
      AbsentRun(start, pins, capacity, key, charge, k - a);
    }
  }

  lemma TooShort<K, P>(items: seq<Item<K, P>>, pins: set<P>, capacity: nat, key: K, charge: nat, need: nat, m: nat)
    requires Distinct(items) && Grows(items, key, charge) && Short(items, pins, need, capacity, m)
    requires need == charge - (var i := IndexOf(items, key); if i < |items| then items[i].charge else 0)
    ensures forall k :: 0 <= k < m ==> !Fits(DropFree(items, pins, k), key, charge, capacity)
  {
    forall k | 0 <= k < m ensures !Fits(DropFree(items, pins, k), key, charge, capacity) {
      StillTooMuch(items, pins, capacity, key, charge, need, k);
    }
  }

  /** A resident key that may not evict keeps everything. */
  lemma DeniedGrowth<K, P>(items: seq<Item<K, P>>, pins: set<P>, capacity: nat, key: K, charge: nat)
    requires Grows(items, key, charge) && !Fits(items, key, charge, capacity)
    ensures Refused(items, pins, capacity, key, charge, items)
  {
    assert DropFree(items, pins, 0) == items;
  }

  lemma AfterPass<K, P>(items: seq<Item<K, P>>, pins: set<P>, capacity: nat, key: K, charge: nat, need: nat, m: nat, allowedAgain: bool)
    requires Distinct(items) && Victims(items, pins, need, capacity, m) && !Fits(items, key, charge, capacity)
    requires var i := IndexOf(items, key); i < |items| && charge > items[i].charge && need == charge - items[i].charge
    requires forall k :: 0 <= k < m ==> !Fits(DropFree(items, pins, k), key, charge, capacity)
    ensures Achieves(items, pins, capacity, key, charge, allowedAgain,
                     GrownPlan(EvictPass(items, pins, need, capacity), pins, capacity, key, charge, allowedAgain))
  {
    var out := EvictPass(items, pins, need, capacity);
    if !out.fits {
      FailedPassAllPinned(items, pins, need, capacity);
      StillTooMuch(items, pins, capacity, key, charge, need, m);
    } else if IndexOf(out.items, key) < |out.items| {
      KeptItem(items, pins, m, key);
      OthersTotal(out.items, key);
      assert ShortestRun(items, pins, capacity, key, charge, m);
    } else {
      StoreNewAchieves(items, pins, capacity, key, charge, m, out.items, allowedAgain);
    }
  }

  /**
   An insertion with a charge in range stores the page behind the others that are left once the
   shortest run of least recently used unheld pages that makes room is gone. It is refused only if
   the page does not fit, and with rolls that allow eviction only if every page left is held.
   */
  lemma PlanAchieves<K, P>(items: seq<Item<K, P>>, pins: set<P>, capacity: nat, key: K, charge: nat, allowed: bool, allowedAgain: bool)
    requires Distinct(items) && 0 < charge <= capacity
    ensures Achieves(items, pins, capacity, key, charge, allowed && allowedAgain,
                     InsertPlan(items, pins, capacity, key, charge, allowed, allowedAgain))
  {
    var i := IndexOf(items, key);
    assert DropFree(items, pins, 0) == items;
    if i == |items| {
      StoreNewAchieves(items, pins, capacity, key, charge, 0, items, allowedAgain);
    } else if charge > items[i].charge {
      OthersTotal(items, key);
      if Total(items) + (charge - items[i].charge) <= capacity {
        assert ShortestRun(items, pins, capacity, key, charge, 0);
      } else {
        var need := charge - items[i].charge;
        DeniedGrowth(items, pins, capacity, key, charge);
        if allowed {
          var m := EvictPassVictims(items, pins, need, capacity);
          TooShort(items, pins, capacity, key, charge, need, m);
          AfterPass(items, pins, capacity, key, charge, need, m, allowedAgain);
        }
      }
    }
  }

  /** What stays in front was there before. */
  lemma InsertedKeeps<K, P>(items: seq<Item<K, P>>, pins: set<P>, capacity: nat, key: K, charge: nat, front: seq<Item<K, P>>)
    requires Inserted(items, pins, capacity, key, charge, front)
    ensures forall x :: x in front ==> x in items
  {
    if Grows(items, key, charge) {
      var m :| ShortestRun(items, pins, capacity, key, charge, m) && front == Others(DropFree(items, pins, m), key);
      forall x | x in front ensures x in items {
        DropSubset(items, pins, m, x);
      }
    }
  }
}
