/**
 Writing into buffers.
 */
module Buffers {
  /** memcpy to a position in a buffer. */
  method Put<T>(a: array<T>, at: nat, src: seq<T>) returns (next: nat)
    requires at + |src| <= a.Length
    modifies a
    ensures next == at + |src|
    ensures a[..next] == old(a[..at]) + src
    ensures a[next..] == old(a[next..])
  {
    forall i | 0 <= i < |src| {
      a[at + i] := src[i];
    }
    next := at + |src|;
  }

  // ----- several parts

  /** The parts one behind the other. */
  function Flat<T>(parts: seq<seq<T>>): seq<T> {
    if parts == [] then [] else Flat(parts[..|parts| - 1]) + parts[|parts| - 1]
  }

  lemma FlatStep<T>(parts: seq<seq<T>>, i: nat)
    requires i <= |parts|
    ensures Flat(parts[..0]) == []
    ensures i < |parts| ==> Flat(parts[..i + 1]) == Flat(parts[..i]) + parts[i]
  {
    if i < |parts| {
      assert parts[..i + 1][..i] == parts[..i];
    }
  }

  lemma {:induction false} PrefixFits<T>(parts: seq<seq<T>>, k: nat)
    requires k <= |parts|
    ensures |Flat(parts[..k])| <= |Flat(parts)|
    decreases |parts| - k
  {
    hide Flat;
    if k < |parts| {
      FlatStep(parts, k);
      PrefixFits(parts, k + 1);
    } else {
      assert parts[..k] == parts;
    }
  }

  /** One memcpy behind the other. */
  method PutAll<T>(a: array<T>, parts: seq<seq<T>>) returns (next: nat)
    requires |Flat(parts)| <= a.Length
    modifies a
    ensures next == |Flat(parts)| && a[..next] == Flat(parts) && a[next..] == old(a[next..])
  {
    hide Flat;
    ghost var init := a[..];
    next := 0;
    FlatStep(parts, 0);
    for i := 0 to |parts|
      invariant next == |Flat(parts[..i])| <= a.Length && a[..next] == Flat(parts[..i])
      invariant forall j :: next <= j < a.Length ==> a[j] == init[j]
    {
      FlatStep(parts, i);
      PrefixFits(parts, i + 1);
      next := PutTail(a, next, parts[i]);
    }
    assert parts[..|parts|] == parts;
  }

  /** memcpy, with what is behind it octet by octet. */
  method PutTail<T>(a: array<T>, at: nat, src: seq<T>) returns (next: nat)
    requires at + |src| <= a.Length
    modifies a
    ensures next == at + |src| && a[..next] == old(a[..at]) + src
    ensures forall j :: next <= j < a.Length ==> a[j] == old(a[j])
  {
    forall i | 0 <= i < |src| {
      a[at + i] := src[i];
    }
    next := at + |src|;
  }

  lemma FlatMore<T>(parts: seq<seq<T>>, x: seq<T>)
    ensures Flat(parts + [x]) == Flat(parts) + x
  {
    assert (parts + [x])[..|parts|] == parts;
  }

  lemma FlatFour<T>(a: seq<T>, b: seq<T>, c: seq<T>, d: seq<T>)
    ensures Flat([a, b, c, d]) == a + b + c + d
  {
    hide Flat;
    FlatNone<T>();
    FlatMore([], a);
    FlatMore([a], b);
    FlatMore([a, b], c);
    FlatMore([a, b, c], d);
    assert [] + [a] == [a] && [a] + [b] == [a, b] && [a, b] + [c] == [a, b, c] && [a, b, c] + [d] == [a, b, c, d];
  }

  lemma FlatNone<T>()
    ensures Flat<T>([]) == []
  {
  }
}
