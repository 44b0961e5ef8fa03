/** Assembly of the empirical posterior of the rate difference from two
    equally long sequences of Beta draws (the draws themselves are inputs). */
module Posterior {

  /** Non-decreasing order. */
  predicate Sorted(s: seq<real>)
  {
    forall i, j :: 0 <= i < j < |s| ==> s[i] <= s[j]
  }

  /** Element-wise difference treatment - control. */
  function Differences(treatment: seq<real>, control: seq<real>): (d: seq<real>)
    requires |treatment| == |control|
    ensures |d| == |treatment|
    ensures forall i :: 0 <= i < |d| ==> d[i] == treatment[i] - control[i]
  {
    seq(|treatment|, i requires 0 <= i < |treatment| => treatment[i] - control[i])
  }

  /** Exchanges two elements of an array. */
  method Swap(a: array<real>, i: int, j: int)
    requires 0 <= i < a.Length && 0 <= j < a.Length
    modifies a
    ensures a[i] == old(a[j]) && a[j] == old(a[i])
    ensures forall k :: 0 <= k < a.Length && k != i && k != j ==> a[k] == old(a[k])
    ensures multiset(a[..]) == old(multiset(a[..]))
  {
    a[i], a[j] := a[j], a[i];
  }

  /** Sorts an array ascending in place (insertion sort). */
  method SortInPlace(a: array<real>)
    modifies a
    ensures Sorted(a[..])
    ensures multiset(a[..]) == old(multiset(a[..]))
  {
    var i := 0;
    while i < a.Length
      invariant 0 <= i <= a.Length
      invariant forall k, l :: 0 <= k < l < i ==> a[k] <= a[l]
      invariant multiset(a[..]) == old(multiset(a[..]))
    {
      var j := i;
      while j > 0 && a[j - 1] > a[j]
        invariant 0 <= j <= i
        invariant forall k, l :: 0 <= k < l <= i && k != j && l != j ==> a[k] <= a[l]
        invariant forall l :: j < l <= i ==> a[j] < a[l]
        invariant multiset(a[..]) == old(multiset(a[..]))
      {
        Swap(a, j - 1, j);
        j := j - 1;
      }
      i := i + 1;
    }
  }

  /** The posterior of the rate difference: the element-wise differences of
      the treatment and control draws, sorted ascending. */
  method AssemblePosterior(drawsControl: seq<real>, drawsTreatment: seq<real>)
    returns (posterior: seq<real>)
    requires |drawsControl| == |drawsTreatment|
    ensures |posterior| == |drawsControl|
    ensures Sorted(posterior)
    ensures multiset(posterior) == multiset(Differences(drawsTreatment, drawsControl))
  {
    var diffs := Differences(drawsTreatment, drawsControl);
    var a := new real[|diffs|](i requires 0 <= i < |diffs| => diffs[i]);
    assert a[..] == diffs;
    SortInPlace(a);
    posterior := a[..];
  }

  /** A sorted sequence is determined by its multiset of elements: the
      posterior is a function of the draws alone. */
  lemma {:induction false} SortedUnique(s: seq<real>, t: seq<real>)
    requires Sorted(s) && Sorted(t)
    requires multiset(s) == multiset(t)
    ensures s == t
  {
    if s != [] {
      assert |s| == |multiset(s)| == |t|;
      HeadIsLeast(s, t[0]);
      HeadIsLeast(t, s[0]);
      var x := s[0];
      assert x == t[0];
      assert s == [x] + s[1..] && t == [x] + t[1..];
      assert multiset(s[1..]) == multiset(s) - multiset{x};
      assert multiset(t[1..]) == multiset(t) - multiset{x};
      SortedUnique(s[1..], t[1..]);
    }
  }

  /** The head of a non-empty sorted sequence is its least element. */
  lemma HeadIsLeast(s: seq<real>, x: real)
    requires Sorted(s) && x in multiset(s)
    ensures s[0] <= x
  {
    var k :| 0 <= k < |s| && s[k] == x;
  }
}
