/** The octal numbers of a ustar header: printing with a minimum width, cutting, and reading back. */
module Octal {
  import opened Bytes
  import opened Wrappers

  function Pow8(n: nat): (p: nat)
    ensures p >= 1
  {
    if n == 0 then 1 else 8 * Pow8(n - 1)
  }

  predicate IsOctal(b: byte) { 48 <= b < 56 }

  /** "%o": the shortest octal representation, most significant digit first. */
  function Digits(v: nat): (d: seq<byte>)
    ensures |d| >= 1
    ensures forall i :: 0 <= i < |d| ==> IsOctal(d[i])
  {
    if v < 8 then [48 + v] else Digits(v / 8) + [48 + v % 8]
  }

  /** "%0<width>o": at least width digits, filled with zeros on the left. */
  function Print(v: nat, width: nat): (t: seq<byte>)
    ensures forall i :: 0 <= i < |t| ==> IsOctal(t[i])
  {
    var d := Digits(v);
    if |d| >= width then d else seq(width - |d|, _ => 48) + d
  }

  /** The number a digit string denotes. */
  function Value(d: seq<byte>): nat
    requires forall i :: 0 <= i < |d| ==> IsOctal(d[i])
  {
    if d == [] then 0 else
      assert IsOctal(d[|d| - 1]);
      8 * Value(d[..|d| - 1]) + d[|d| - 1] as int - 48
  }

  /** Digits behind others: places of value 8. */
  lemma {:induction false} ValueConcat(a: seq<byte>, b: seq<byte>)
    requires forall i :: 0 <= i < |a| ==> IsOctal(a[i])
    requires forall i :: 0 <= i < |b| ==> IsOctal(b[i])
    ensures (forall i :: 0 <= i < |a + b| ==> IsOctal((a + b)[i])) && Value([]) == 0
    ensures |b| == 1 ==> Value(a + b) == 8 * Value(a) + b[0] as int - 48
    ensures Value(a + b) == Pow8(|b|) * Value(a) + Value(b)
  {
    if b == [] {
      assert a + b == a;
    } else {
      var init := b[..|b| - 1];
      assert (a + b)[..|a + b| - 1] == a + init;
      ValueConcat(a, init);
      EightTimes(Pow8(|init|), Value(a));
    }
  }

  lemma EightTimes(p: nat, v: nat)
    ensures 8 * (p * v) == (8 * p) * v
  {
  }

  function LeadingDigits(s: seq<byte>): (d: seq<byte>)
    ensures |d| <= |s|
    ensures forall i :: 0 <= i < |d| ==> IsOctal(d[i])
  {
    if s == [] || !IsOctal(s[0]) then [] else [s[0]] + LeadingDigits(s[1..])
  }

  /** A reader's view of a numeric field: octal digits ended by a NUL or a space. */
  function Read(field: seq<byte>): Option<nat> {
    var d := LeadingDigits(field);
    if |d| < |field| && (field[|d|] == 0 || field[|d|] == 32) then Some(Value(d)) else None
  }

  // ----- lemmas -----

  lemma {:induction false} LeadingDigitsStop(d: seq<byte>, rest: seq<byte>)
    requires forall i :: 0 <= i < |d| ==> IsOctal(d[i])
    requires rest != [] && !IsOctal(rest[0])
    ensures LeadingDigits(d + rest) == d
  {
    if d == [] {
      assert d + rest == rest;
    } else {
      assert (d + rest)[1..] == d[1..] + rest;
      LeadingDigitsStop(d[1..], rest);
    }
  }

  lemma {:induction false} ValueOfDigits(v: nat)
    ensures Value(Digits(v)) == v
    ensures v > 0 ==> Digits(v)[0] != 48
  {
    if v >= 8 {
      ValueOfDigits(v / 8);
      assert Digits(v)[..|Digits(v)| - 1] == Digits(v / 8);
    } else {
      assert Value([48 + v]) == 8 * Value([]) + v by { assert [48 + v][..0] == []; }
    }
  }

  lemma {:induction false} ValueLeftPad(n: nat, d: seq<byte>)
    requires forall i :: 0 <= i < |d| ==> IsOctal(d[i])
    ensures Value(seq(n, _ => 48) + d) == Value(d)
  {
    var p: seq<byte> := seq(n, _ => 48);
    if d != [] {
      assert (p + d)[..|p + d| - 1] == p + d[..|d| - 1];
      ValueLeftPad(n, d[..|d| - 1]);
    } else if n > 0 {
      assert p + d == p && p[..n - 1] == seq(n - 1, _ => 48) + d;
      ValueLeftPad(n - 1, d);
    }
  }

  /** Cutting digits off the right of a nonzero number makes it smaller. */
  lemma {:induction false} ValueOfCut(d: seq<byte>, w: nat)
    requires forall i :: 0 <= i < |d| ==> IsOctal(d[i])
    requires 1 <= w < |d| && d[0] != 48
    ensures 1 <= Value(d[..w]) < Value(d)
    decreases |d|
  {
    var init := d[..|d| - 1];
    assert init[..w] == d[..w];
    if w == |d| - 1 {
      ValuePositive(init);
    } else {
      ValueOfCut(init, w);
    }
  }

  lemma {:induction false} ValuePositive(d: seq<byte>)
    requires forall i :: 0 <= i < |d| ==> IsOctal(d[i])
    requires d != [] && d[0] != 48
    ensures Value(d) >= 1
  {
    if |d| == 1 {
    } else {
      ValuePositive(d[..|d| - 1]);
    }
  }

  lemma {:induction false} DigitCount(v: nat, w: nat)
    requires w >= 1
    ensures |Digits(v)| <= w <==> v < Pow8(w)
  {
    if v >= 8 && w > 1 {
      DigitCount(v / 8, w - 1);
    } else if w == 1 {
      assert Pow8(1) == 8 * Pow8(0);
    } else {
      assert Pow8(w) == 8 * Pow8(w - 1);
    }
  }

  lemma {:induction false} ValueBound(d: seq<byte>)
    requires forall i :: 0 <= i < |d| ==> IsOctal(d[i])
    ensures Value(d) < Pow8(|d|)
  {
    if d == [] {
    } else {
      ValueBound(d[..|d| - 1]);
    }
  }

  lemma {:induction false} Pow8Monotone(m: nat, n: nat)
    requires m <= n
    ensures Pow8(m) <= Pow8(n)
  {
    if m >= n {
    } else {
      Pow8Monotone(m, n - 1);
    }
  }

  /** A reader takes the digits that fitted. */
  lemma FieldText(text: seq<byte>, w: nat)
    requires w >= 1 && forall i :: 0 <= i < |text| ==> IsOctal(text[i])
    ensures var r := Read(SnPrintF(Zeros(w + 1), text)); r == Some(Value(Take(text, w))) && r.value < Pow8(w)
  {
    var t := Take(text, w);
    var rest := [0] + Zeros(w + 1)[|t| + 1..];
    assert SnPrintF(Zeros(w + 1), text) == t + rest;
    LeadingDigitsStop(t, rest);
    ValueBound(t);
    Pow8Monotone(|t|, w);
  }

  lemma ValueOfPrint(v: nat, w: nat)
    ensures Value(Print(v, w)) == v
  {
    ValueOfDigits(v);
    if |Digits(v)| < w {
      ValueLeftPad(w - |Digits(v)|, Digits(v));
    }
  }

  /** What a reader gets from a zero-filled field of w+1 bytes that "%0<w>o" was printed into: a number,
      and the one that was printed exactly when it has at most w octal digits. */
  lemma FieldReadsBack(v: nat, w: nat)
    requires w >= 1
    ensures var r := Read(SnPrintF(Zeros(w + 1), Print(v, w))); r.Some? && r.value < Pow8(w)
    ensures Read(SnPrintF(Zeros(w + 1), Print(v, w))) == Some(v) <==> v < Pow8(w)
  {
    hide Read, SnPrintF;
    FieldText(Print(v, w), w);
    DigitCount(v, w);
    if |Digits(v)| <= w {
      ValueOfPrint(v, w);
    } else {
      ValueOfDigits(v);
      ValueOfCut(Digits(v), w);
    }
  }
}
