/**
 Pinning under concurrency. Operations that hold the cache lock run step by step; handles are
 cloned and dropped by any thread, at any moment, without the lock.
 */
module PagePins {
  import opened Common

  /** What the lock holder is in the middle of. */
  datatype Holder<K> =
    | Unlocked
    | Fetched(page: nat)  // a lookup has found the page but not yet pinned it
    | Scanning            // an eviction is walking the list
    | Chosen(key: K)      // an eviction has seen this key unpinned and will remove it

  datatype State<K> = State(
    entries: map<K, nat>,    // resident key to page
    pinCount: map<nat, nat>, // every page ever created
    handles: map<nat, nat>,  // live handle to page
    holder: Holder<K>)

  datatype Step<K> =
    | LookupFetch(key: K)
    | LookupPin(handle: nat)
    | Store(key: K, page: nat)
    | BeginEvict
    | SkipPinned(key: K)
    | ChooseUnpinned(key: K)
    | RemoveChosen
    | EndEvict
    | CloneHandle(handle: nat, copy: nat)
    | DropHandle(handle: nat)

  function Incremented(n: nat): nat {
    if n == USIZE_MAX then 0 else n + 1
  }

  /** `fetch_sub` wraps below zero. */
  function Decremented(n: nat): nat {
    if n == 0 then USIZE_MAX else n - 1
  }

  ghost predicate Initial<K>(s: State<K>) {
    s.entries == map[] && s.pinCount == map[] && s.handles == map[] && s.holder == Unlocked
  }

  /** Fewer handles are alive than a pin counter can count. */
  ghost predicate RoomForHandle<K>(s: State<K>) {
    |s.handles| < USIZE_MAX
  }

  ghost predicate Pinned<K>(s: State<K>, s': State<K>, handle: nat, page: nat) {
    && handle !in s.handles && page in s.pinCount && RoomForHandle(s)
    && s'.handles == s.handles[handle := page]
    && s'.pinCount == s.pinCount[page := Incremented(s.pinCount[page])]
    && s'.entries == s.entries
  }

  ghost predicate Unpinned<K>(s: State<K>, s': State<K>, handle: nat) {
    && handle in s.handles && s.handles[handle] in s.pinCount
    && s'.handles == s.handles - {handle}
    && s'.pinCount == s.pinCount[s.handles[handle] := Decremented(s.pinCount[s.handles[handle]])]
    && s'.entries == s.entries
  }

  ghost predicate Next<K>(s: State<K>, step: Step<K>, s': State<K>) {
    match step
    case LookupFetch(key) =>
      s.holder == Unlocked && key in s.entries && s' == s.(holder := Fetched(s.entries[key]))
    case LookupPin(handle) =>
      s.holder.Fetched? && Pinned(s, s', handle, s.holder.page) && s'.holder == Unlocked
    case Store(key, page) =>
      && s.holder == Unlocked && page !in s.pinCount
      && s' == s.(entries := s.entries[key := page], pinCount := s.pinCount[page := 0])
    case BeginEvict => s.holder == Unlocked && s' == s.(holder := Scanning)
    case SkipPinned(key) =>
      && s.holder == Scanning && key in s.entries && s.entries[key] in s.pinCount
      && s.pinCount[s.entries[key]] > 0 && s' == s
    case ChooseUnpinned(key) =>
      && s.holder == Scanning && key in s.entries && s.entries[key] in s.pinCount
      && s.pinCount[s.entries[key]] == 0 && s' == s.(holder := Chosen(key))
    case RemoveChosen =>
      s.holder.Chosen? && s' == s.(entries := s.entries - {s.holder.key}, holder := Scanning)
    case EndEvict => s.holder == Scanning && s' == s.(holder := Unlocked)
    case CloneHandle(handle, copy) =>
      handle in s.handles && Pinned(s, s', copy, s.handles[handle]) && s'.holder == s.holder
    case DropHandle(handle) =>
      Unpinned(s, s', handle) && s'.holder == s.holder
  }

  ghost function HandlesOf(handles: map<nat, nat>, page: nat): set<nat> {
    set h | h in handles && handles[h] == page
  }

  /** Pin counts count handles, and a chosen victim has none. */
  ghost predicate Inv<K>(s: State<K>) {
    && (forall h :: h in s.handles ==> s.handles[h] in s.pinCount)
    && (forall k :: k in s.entries ==> s.entries[k] in s.pinCount)
    && (forall p :: p in s.pinCount ==> s.pinCount[p] == |HandlesOf(s.handles, p)|)
    && (s.holder.Fetched? ==> s.holder.page in s.pinCount)
    && (s.holder.Chosen? ==> s.holder.key in s.entries && HandlesOf(s.handles, s.entries[s.holder.key]) == {})
  }

  lemma HandleCountBound(handles: map<nat, nat>, page: nat)
    ensures |HandlesOf(handles, page)| <= |handles|
  {
    SubsetSize(HandlesOf(handles, page), handles.Keys);
  }

  lemma {:induction false} SubsetSize(a: set<nat>, b: set<nat>)
    requires a <= b
    ensures |a| <= |b|
  {
    if a != {} {
      var x :| x in a;
      SubsetSize(a - {x}, b - {x});
    }
  }

  lemma AddHandle(handles: map<nat, nat>, handle: nat, page: nat, p: nat)
    requires handle !in handles
    ensures |HandlesOf(handles[handle := page], p)| == |HandlesOf(handles, p)| + if p == page then 1 else 0
  {
    var after := HandlesOf(handles[handle := page], p);
    if p == page {
      assert after == HandlesOf(handles, p) + {handle};
    } else {
      assert after == HandlesOf(handles, p);
    }
  }

  lemma RemoveHandle(handles: map<nat, nat>, handle: nat, p: nat)
    requires handle in handles
    ensures |HandlesOf(handles - {handle}, p)| == |HandlesOf(handles, p)| - if p == handles[handle] then 1 else 0
  {
    var after := HandlesOf(handles - {handle}, p);
    if p == handles[handle] {
      assert handle in HandlesOf(handles, p);
      assert after == HandlesOf(handles, p) - {handle};
    } else {
      assert after == HandlesOf(handles, p);
    }
  }

  lemma PinKeepsCounts<K>(s: State<K>, s': State<K>, handle: nat, page: nat)
    requires Inv(s) && Pinned(s, s', handle, page)
    ensures forall p :: p in s'.pinCount ==> s'.pinCount[p] == |HandlesOf(s'.handles, p)|
  {
    forall p | p in s'.pinCount
      ensures s'.pinCount[p] == |HandlesOf(s'.handles, p)|
    {
      AddHandle(s.handles, handle, page, p);
      HandleCountBound(s.handles, p);
    }
  }

  lemma UnpinKeepsCounts<K>(s: State<K>, s': State<K>, handle: nat)
    requires Inv(s) && Unpinned(s, s', handle)
    ensures forall p :: p in s'.pinCount ==> s'.pinCount[p] == |HandlesOf(s'.handles, p)|
  {
    forall p | p in s'.pinCount
      ensures s'.pinCount[p] == |HandlesOf(s'.handles, p)|
    {
      RemoveHandle(s.handles, handle, p);
    }
  }

  lemma StoreKeepsCounts<K>(s: State<K>, page: nat)
    requires Inv(s) && page !in s.pinCount
    ensures HandlesOf(s.handles, page) == {}
  {
  }

  /** Every step, locked or not, keeps the invariant. */
  lemma StepKeepsInv<K>(s: State<K>, step: Step<K>, s': State<K>)
    requires Inv(s) && Next(s, step, s')
    ensures Inv(s')
  {
    match step
    case LookupPin(handle) => PinKeepsCounts(s, s', handle, s.holder.page);
    case CloneHandle(handle, copy) =>
      PinKeepsCounts(s, s', copy, s.handles[handle]);
      if s.holder.Chosen? {
        CloneSparesVictim(s, s', handle, copy);
      }
    case DropHandle(handle) => UnpinKeepsCounts(s, s', handle);
    case Store(key, page) => StoreKeepsCounts(s, page);
    case _ =>
  }

  /** A clone needs a live handle, so it cannot revive the page an eviction has chosen. */
  lemma CloneSparesVictim<K>(s: State<K>, s': State<K>, handle: nat, copy: nat)
    requires Inv(s) && s.holder.Chosen? && handle in s.handles && Pinned(s, s', copy, s.handles[handle])
    ensures HandlesOf(s'.handles, s.entries[s.holder.key]) == {}
  {
    var victim := s.entries[s.holder.key];
    assert handle !in HandlesOf(s.handles, victim);
    assert HandlesOf(s'.handles, victim) == HandlesOf(s.handles, victim);
  }

  // ---------------------------------------------------------------------
  // Whole runs
  // ---------------------------------------------------------------------

  ghost predicate Run<K>(states: seq<State<K>>, steps: seq<Step<K>>) {
    && |states| == |steps| + 1 && Initial(states[0])
    && forall i :: 0 <= i < |steps| ==> Next(states[i], steps[i], states[i + 1])
  }

  lemma {:induction false} RunKeepsInv<K>(states: seq<State<K>>, steps: seq<Step<K>>, n: nat)
    requires Run(states, steps) && n < |states|
    ensures Inv(states[n])
  {
    if n > 0 {
      RunKeepsInv(states, steps, n - 1);
      StepKeepsInv(states[n - 1], steps[n - 1], states[n]);
    }
  }

  /**
   At every moment of every interleaving, a page's pin count is the number of its live handles,
   a dropped handle finds a positive count, and a removed entry's page has no live handle.
   */
  lemma PinSafety<K>(states: seq<State<K>>, steps: seq<Step<K>>, n: nat)
    requires Run(states, steps) && n < |steps|
    ensures forall p :: p in states[n].pinCount ==> states[n].pinCount[p] == |HandlesOf(states[n].handles, p)|
    ensures steps[n].DropHandle? ==>
              var s, h := states[n], steps[n].handle;
              h in s.handles && s.handles[h] in s.pinCount && s.pinCount[s.handles[h]] > 0
    ensures forall k :: k in states[n].entries && k !in states[n + 1].entries ==>
              HandlesOf(states[n].handles, states[n].entries[k]) == {}
  {
    RunKeepsInv(states, steps, n);
    var s := states[n];
    assert Next(s, steps[n], states[n + 1]);
    if steps[n].DropHandle? {
      var h := steps[n].handle;
      assert h in HandlesOf(s.handles, s.handles[h]);
    }
  }
}
