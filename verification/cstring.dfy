/** C strings in character buffers, and the library calls on them. */
module CString {
  import opened Wrappers

  const NUL: char := '\0'

  ghost predicate Terminated(b: seq<char>) { NUL in b }

  /** strlen. */
  function Length(b: seq<char>): (n: nat)
    requires Terminated(b)
    ensures n < |b| && b[n] == NUL && forall i :: 0 <= i < n ==> b[i] != NUL
  {
    if b[0] == NUL then 0 else assert b == [b[0]] + b[1..]; 1 + Length(b[1..])
  }

  /** The string a buffer holds. */
  function Text(b: seq<char>): (s: string)
    requires Terminated(b)
    ensures NUL !in s && |s| == Length(b)
  {
    b[..Length(b)]
  }

  lemma TextIs(b: seq<char>, n: nat)
    requires n < |b| && b[n] == NUL && forall i :: 0 <= i < n ==> b[i] != NUL
    ensures Terminated(b) && Length(b) == n && Text(b) == b[..n]
  {
  }

  /** Put the terminator behind the characters of s. */
  method Finish(b: array<char>, n: nat, ghost s: string)
    requires n < b.Length && n == |s| && NUL !in s && forall k :: 0 <= k < n ==> b[k] == s[k]
    modifies b
    ensures Terminated(b[..]) && Text(b[..]) == s
  {
    assert forall k :: 0 <= k < n ==> s[k] in s;
    b[n] := NUL;
    TextIs(b[..], n);
    assert b[..n] == s;
  }

  /** memmove within one buffer. */
  method MemMove(b: array<char>, dst: nat, src: nat, n: nat)
    requires dst + n <= b.Length && src + n <= b.Length
    modifies b
    ensures b[..] == old(b[..dst]) + old(b[src..src + n]) + old(b[dst + n..])
  {
    ghost var was := b[..];
    forall i | dst <= i < dst + n {
      b[i] := b[src + (i - dst)];
    }
    assert b[..] == was[..dst] + was[src..src + n] + was[dst + n..];
  }

  // ----- substrings -----

  predicate OccursAt(s: string, p: string, i: nat) {
    i + |p| <= |s| && s[i..i + |p|] == p
  }

  ghost predicate Occurs(s: string, p: string) {
    exists i: nat :: OccursAt(s, p, i)
  }

  /** strstr, from a place in s on, as an index into s. */
  function StrStr(s: string, p: string, from: nat): (r: Option<nat>)
    requires from <= |s|
    ensures r.Some? ==> from <= r.value && OccursAt(s, p, r.value)
                        && forall i: nat :: from <= i < r.value ==> !OccursAt(s, p, i)
    ensures r.None? ==> forall i: nat :: from <= i ==> !OccursAt(s, p, i)
    decreases |s| - from
  {
    if OccursAt(s, p, from) then Some(from)
    else if from == |s| then None
    else StrStr(s, p, from + 1)
  }

  predicate EndsWith(s: string, t: string) {
    |t| <= |s| && s[|s| - |t|..] == t
  }

  predicate IsAlnum(c: char) {
    '0' <= c <= '9' || 'A' <= c <= 'Z' || 'a' <= c <= 'z'
  }

  /** The characters of s that satisfy keep, in order. */
  function Filter(keep: char -> bool, s: string): (r: string)
    ensures |r| <= |s|
    ensures forall c :: c in r ==> keep(c) && c in s
    ensures (forall c :: c in s ==> keep(c)) ==> r == s
  {
    if s == [] then []
    else
      var init, last := s[..|s| - 1], s[|s| - 1];
      assert s == init + [last];
      if keep(last) then Filter(keep, init) + [last] else Filter(keep, init)
  }

  lemma {:induction false} FilterAll(keep: char -> bool, s: string)
    ensures Filter(keep, s) == s <==> forall c :: c in s ==> keep(c)
    ensures |Filter(keep, s)| == |s| ==> Filter(keep, s) == s
  {
    if s == [] {
    } else {
      var init, last := s[..|s| - 1], s[|s| - 1];
      assert s == init + [last];
      FilterAll(keep, init);
    }
  }

  lemma {:induction false} FilterConcat(keep: char -> bool, a: string, b: string)
    ensures Filter(keep, a + b) == Filter(keep, a) + Filter(keep, b)
  {
    if b == [] {
      assert a + b == a;
    } else {
      assert (a + b)[..|a + b| - 1] == a + b[..|b| - 1];
      FilterConcat(keep, a, b[..|b| - 1]);
    }
  }
}
