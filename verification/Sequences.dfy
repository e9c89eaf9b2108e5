/** Sequence facts shared by the components that cut rows and bytes into pieces. */
module Sequences {
  function Concat<T>(parts: seq<seq<T>>): seq<T> {
    if parts == [] then [] else Concat(parts[..|parts| - 1]) + parts[|parts| - 1]
  }

  lemma ConcatSnoc<T>(parts: seq<seq<T>>, last: seq<T>)
    ensures Concat(parts + [last]) == Concat(parts) + last
  {
    assert (parts + [last])[..|parts|] == parts;
  }

  lemma ConcatStep<T>(parts: seq<seq<T>>, k: nat)
    requires k < |parts|
    ensures Concat(parts[..k + 1]) == Concat(parts[..k]) + parts[k]
  {
    assert parts[..k + 1][..k] == parts[..k];
  }

  lemma {:induction false} ConcatMember<T>(parts: seq<seq<T>>, k: nat, x: T)
    requires k < |parts| && x in parts[k]
    ensures x in Concat(parts)
  {
    if k < |parts| - 1 {
      ConcatMember(parts[..|parts| - 1], k, x);
    }
  }

  lemma {:induction false} ConcatPrefix<T>(parts: seq<seq<T>>, k: nat)
    requires k <= |parts|
    ensures Concat(parts[..k]) <= Concat(parts)
    decreases |parts| - k
  {
    if k < |parts| {
      ConcatPrefix(parts, k + 1);
      ConcatStep(parts, k);
    } else {
      TakeAll(parts);
    }
  }

  lemma TakeSnoc<T>(s: seq<T>, k: nat)
    requires k < |s|
    ensures s[..k + 1] == s[..k] + [s[k]]
  {
  }

  lemma TakeAll<T>(s: seq<T>)
    ensures s[..|s|] == s
  {
  }

  lemma Assoc<T>(a: seq<T>, b: seq<T>, c: seq<T>)
    ensures a + b + c == a + (b + c)
  {
  }

  /** Every flattened value comes from some part. */
  lemma {:induction false} PartOf<T>(parts: seq<seq<T>>, j: nat) returns (i: nat, k: nat)
    requires j < |Concat(parts)|
    ensures i < |parts| && k < |parts[i]| && parts[i][k] == Concat(parts)[j]
  {
    var n := |parts| - 1;
    if j < |Concat(parts[..n])| {
      i, k := PartOf(parts[..n], j);
    } else {
      i, k := n, j - |Concat(parts[..n])|;
    }
  }
}
