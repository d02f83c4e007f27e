/** Facts about sequences that several modules need. */
module Sequences {
  /** The image of every element, in order. */
  function Map<T, U>(f: T -> U, s: seq<T>): (r: seq<U>)
    ensures |r| == |s| && forall i :: 0 <= i < |s| ==> r[i] == f(s[i])
  {
    seq(|s|, i requires 0 <= i < |s| => f(s[i]))
  }

  lemma Assoc<T>(a: seq<T>, b: seq<T>, c: seq<T>)
    ensures (a + b) + c == a + (b + c)
  {
  }

  /** A slice of a slice. */
  lemma SliceOfSlice<T>(s: seq<T>, from: nat, to: nat, i: nat, j: nat)
    requires from <= to <= |s| && i <= j <= to - from
    ensures s[from..to][i..j] == s[from + i..from + j]
  {
    var t := s[from..to];
    assert forall k :: i <= k < j ==> t[k] == s[from + k];
    assert |t[i..j]| == |s[from + i..from + j]|;
    forall k | 0 <= k < j - i
      ensures t[i..j][k] == s[from + i..from + j][k]
    {
      assert t[i..j][k] == t[i + k];
    }
  }
}
