/** Small sequence utilities shared by the planner model. */
module Lists {
  import opened Wrappers

  /** No element occurs twice. */
  predicate NoDup<T(==)>(s: seq<T>) {
    forall i, j :: 0 <= i < j < |s| ==> s[i] != s[j]
  }

  /** Every element of `s` is a valid index below `n`. */
  predicate IndicesBelow(s: seq<nat>, n: nat) {
    forall k :: 0 <= k < |s| ==> s[k] < n
  }

  /** Position of the first occurrence of `x` in `s`. */
  function FirstIndex<T(==)>(s: seq<T>, x: T): (r: nat)
    requires x in s
    ensures r < |s| && s[r] == x && x !in s[..r]
  {
    if s[0] == x then 0 else 1 + FirstIndex(s[1..], x)
  }

  /** A duplicate-free sequence has as many distinct elements as positions. */
  lemma {:induction false} NoDupCardinality<T>(s: seq<T>)
    requires NoDup(s)
    ensures |set x | x in s| == |s|
  {
    if s != [] {
      var t := s[..|s| - 1];
      assert NoDup(t);
      NoDupCardinality(t);
      assert (set x | x in s) == (set x | x in t) + {s[|s| - 1]};
      assert s[|s| - 1] !in t;
    }
  }

  /** A prefix one element longer. */
  lemma TakeOneMore<T>(s: seq<T>, n: nat)
    requires n < |s|
    ensures s[..n + 1] == s[..n] + [s[n]]
  {
  }

  /** Two successive edits confined to position `l` are one such edit. */
  lemma OnePlaceFrame<T>(s0: seq<T>, s1: seq<T>, s2: seq<T>, l: nat)
    requires l < |s0| && |s1| == |s0| && |s2| == |s0|
    requires s1 == s0[l := s1[l]]
    requires s2 == s1[l := s2[l]]
    ensures s2 == s0[l := s2[l]]
  {
  }

  /** Two successive edits confined to positions `l` and `l + 1` are one such edit. */
  lemma TwoPlaceFrame<T>(s0: seq<T>, s1: seq<T>, s2: seq<T>, l: nat)
    requires l + 1 < |s0| && |s1| == |s0| && |s2| == |s0|
    requires s1 == s0[l := s1[l]][l + 1 := s1[l + 1]]
    requires s2 == s1[l := s2[l]][l + 1 := s2[l + 1]]
    ensures s2 == s0[l := s2[l]][l + 1 := s2[l + 1]]
  {
  }

  /**
   * safeIndex: the index of the first element satisfying `f`, or None
   * when there is none.
   */
  method SafeIndex<T>(l: seq<T>, f: T -> bool) returns (r: Option<nat>)
    ensures r.Some? ==> r.value < |l| && f(l[r.value])
    ensures r.Some? ==> forall j :: 0 <= j < r.value ==> !f(l[j])
    ensures r.None? <==> forall j :: 0 <= j < |l| ==> !f(l[j])
  {
    var i := 0;
    while i < |l|
      invariant 0 <= i <= |l|
      invariant forall j :: 0 <= j < i ==> !f(l[j])
    {
      if f(l[i]) {
        return Some(i);
      }
      i := i + 1;
    }
    return None;
  }
}
