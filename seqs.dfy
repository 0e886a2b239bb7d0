/** Row filtering, the one sequence operation every pandas boolean mask in the model reduces to. */
module Seqs {

  /** The elements of `s` that satisfy `p`, in their original order (`df[mask]`). */
  function Filter<T>(s: seq<T>, p: T -> bool): (r: seq<T>)
    ensures |r| <= |s|
    ensures forall x :: x in r ==> x in s && p(x)
  {
    if s == [] then [] else (if p(s[0]) then [s[0]] else []) + Filter(s[1..], p)
  }

  /** The positions of `s` whose elements satisfy `p`, in increasing order. */
  function KeptIndices<T>(s: seq<T>, p: T -> bool): seq<nat>
  {
    KeptFrom(s, p, 0)
  }

  /** `KeptIndices` of a suffix that starts at position `off` of the whole sequence. */
  function KeptFrom<T>(s: seq<T>, p: T -> bool, off: nat): seq<nat>
  {
    if s == [] then []
    else (if p(s[0]) then [off] else []) + KeptFrom(s[1..], p, off + 1)
  }

  lemma {:induction false} KeptFromAt<T>(s: seq<T>, p: T -> bool, off: nat)
    ensures var idx := KeptFrom(s, p, off);
      && |Filter(s, p)| == |idx|
      && (forall k :: 0 <= k < |idx| ==> off <= idx[k] < off + |s| && Filter(s, p)[k] == s[idx[k] - off])
  {
    if s != [] {
      KeptFromAt(s[1..], p, off + 1);
      var idx := KeptFrom(s, p, off);
      var tail := KeptFrom(s[1..], p, off + 1);
      var f := Filter(s, p);
      var h := if p(s[0]) then 1 else 0;
      assert idx == (if p(s[0]) then [off] else []) + tail;
      assert f == (if p(s[0]) then [s[0]] else []) + Filter(s[1..], p);
      forall k | h <= k < |idx|
        ensures off <= idx[k] < off + |s| && f[k] == s[idx[k] - off]
      {
        assert idx[k] == tail[k - h];
        assert f[k] == Filter(s[1..], p)[k - h];
      }
    }
  }

  lemma {:induction false} KeptFromIncreasing<T>(s: seq<T>, p: T -> bool, off: nat)
    ensures var idx := KeptFrom(s, p, off);
      forall k, l :: 0 <= k < l < |idx| ==> idx[k] < idx[l]
  {
    if s != [] {
      KeptFromIncreasing(s[1..], p, off + 1);
      KeptFromAt(s[1..], p, off + 1);
      var idx := KeptFrom(s, p, off);
      var tail := KeptFrom(s[1..], p, off + 1);
      assert idx == (if p(s[0]) then [off] else []) + tail;
    }
  }

  lemma {:induction false} KeptFromBounds<T>(s: seq<T>, p: T -> bool, off: nat)
    ensures forall j :: j in KeptFrom(s, p, off) ==> off <= j < off + |s|
  {
    if s != [] {
      KeptFromBounds(s[1..], p, off + 1);
    }
  }

  lemma {:induction false} KeptFromMembers<T>(s: seq<T>, p: T -> bool, off: nat)
    ensures forall i :: 0 <= i < |s| ==> (p(s[i]) <==> off + i in KeptFrom(s, p, off))
  {
    if s != [] {
      var tail := KeptFrom(s[1..], p, off + 1);
      var head := if p(s[0]) then [off] else [];
      KeptFromMembers(s[1..], p, off + 1);
      KeptFromBounds(s[1..], p, off + 1);
      assert KeptFrom(s, p, off) == head + tail;
      forall i | 0 <= i < |s|
        ensures p(s[i]) <==> off + i in head + tail
      {
        if i > 0 {
          assert s[1..][i - 1] == s[i];
          assert off + i in tail <==> p(s[i]);
          assert off + i !in head;
        }
      }
    }
  }

  /**
   * A filter keeps exactly the elements that satisfy the predicate, in input order:
   * its k-th element is the element at the k-th kept position, the kept positions
   * increase, and a position is kept if and only if its element satisfies `p`.
   */
  lemma FilterExact<T>(s: seq<T>, p: T -> bool)
    ensures var idx := KeptIndices(s, p);
      && |Filter(s, p)| == |idx|
      && (forall k :: 0 <= k < |idx| ==> idx[k] < |s| && Filter(s, p)[k] == s[idx[k]])
      && (forall k, l :: 0 <= k < l < |idx| ==> idx[k] < idx[l])
      && (forall i :: 0 <= i < |s| ==> (p(s[i]) <==> i in idx))
  {
    KeptFromAt(s, p, 0);
    KeptFromIncreasing(s, p, 0);
    KeptFromMembers(s, p, 0);
  }

  /**
   * A filter keeps every occurrence of a satisfying element and none of the others: an element
   * occurs in the result exactly as often as in the input when it satisfies `p`, and not at all
   * otherwise.
   */
  lemma {:induction false} FilterCount<T>(s: seq<T>, p: T -> bool, x: T)
    ensures multiset(Filter(s, p))[x] == if p(x) then multiset(s)[x] else 0
  {
    if s != [] {
      FilterCount(s[1..], p, x);
      assert s == [s[0]] + s[1..];
      assert multiset(s) == multiset([s[0]]) + multiset(s[1..]);
      assert multiset(Filter(s, p)) == multiset(if p(s[0]) then [s[0]] else []) + multiset(Filter(s[1..], p));
    }
  }
}
