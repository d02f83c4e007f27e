/** Bytes, C strings and the fixed-width fields of a C struct, as sequences. */
module Bytes {

  type byte = x: int | 0 <= x < 256

  /** The bytes of a C string, without its terminator. */
  type cstring = s: seq<byte> | 0 !in s

  function Zeros(n: nat): (z: seq<byte>)
    ensures |z| == n && forall i :: 0 <= i < n ==> z[i] == 0
  {
    seq(n, _ => 0)
  }

  function Take(s: seq<byte>, n: nat): seq<byte> {
    if |s| <= n then s else s[..n]
  }

  /** strncpy into a field: at most n bytes of src, zero filled up to n; the rest of the field stays. */
  function StrNCpy(field: seq<byte>, src: cstring, n: nat): (r: seq<byte>)
    requires n <= |field|
    ensures |r| == |field|
  {
    Take(src, n) + Zeros(n - |Take(src, n)|) + field[n..]
  }

  /** snprintf into a field: cut to leave room for the terminator; the rest of the field stays. */
  function SnPrintF(field: seq<byte>, text: seq<byte>): (r: seq<byte>)
    requires |field| > 0
    ensures |r| == |field|
  {
    var t := Take(text, |field| - 1);
    t + [0] + field[|t| + 1..]
  }

  /** A reader's view of a character field: everything before the first NUL. */
  function CutNul(field: seq<byte>): (s: cstring)
    ensures |s| <= |field|
  {
    if field == [] || field[0] == 0 then [] else [field[0]] + CutNul(field[1..])
  }

  lemma {:induction false} CutNulAt(s: cstring, rest: seq<byte>)
    requires rest != [] ==> rest[0] == 0
    ensures CutNul(s + rest) == s
  {
    if s == [] {
      assert s + rest == rest;
    } else {
      assert (s + rest)[1..] == s[1..] + rest;
      assert s[0] in s;
      assert forall x :: x in s[1..] ==> x in s;
      CutNulAt(s[1..], rest);
    }
  }

  function Sum(s: seq<byte>): nat {
    if s == [] then 0 else Sum(s[..|s| - 1]) + s[|s| - 1]
  }

  lemma {:induction false} SumBound(s: seq<byte>)
    ensures Sum(s) <= 255 * |s|
  {
    if s == [] {
    } else {
      SumBound(s[..|s| - 1]);
    }
  }

  /** The sum is additive, and that of one byte is the byte: no other function is. */
  lemma {:induction false} SumConcat(a: seq<byte>, b: seq<byte>)
    ensures Sum(a + b) == Sum(a) + Sum(b) && Sum([]) == 0
    ensures |b| == 1 ==> Sum(b) == b[0]
  {
    if b == [] {
      assert a + b == a;
    } else {
      assert (a + b)[..|a + b| - 1] == a + b[..|b| - 1];
      SumConcat(a, b[..|b| - 1]);
    }
  }

  // ----- packing the members of a struct -----

  /** The object representation of a struct whose members are the given byte arrays. */
  function Pack(fields: seq<seq<byte>>): seq<byte> {
    if fields == [] then [] else fields[0] + Pack(fields[1..])
  }

  function Total(widths: seq<nat>): nat {
    if widths == [] then 0 else widths[0] + Total(widths[1..])
  }

  /** Cut a block into consecutive fields of the given widths. */
  function Unpack(widths: seq<nat>, block: seq<byte>): (fields: seq<seq<byte>>)
    requires |block| == Total(widths)
    ensures Fits(fields, widths)
  {
    if widths == [] then [] else [block[..widths[0]]] + Unpack(widths[1..], block[widths[0]..])
  }

  predicate Fits(fields: seq<seq<byte>>, widths: seq<nat>) {
    |fields| == |widths| && forall i :: 0 <= i < |fields| ==> |fields[i]| == widths[i]
  }

  lemma {:induction false} UnpackPack(widths: seq<nat>, fields: seq<seq<byte>>)
    requires Fits(fields, widths)
    ensures |Pack(fields)| == Total(widths)
    ensures Unpack(widths, Pack(fields)) == fields
  {
    if widths == [] {
    } else {
      UnpackPack(widths[1..], fields[1..]);
      assert Pack(fields)[..widths[0]] == fields[0];
      assert Pack(fields)[widths[0]..] == Pack(fields[1..]);
    }
  }

  /** The k-th field of a block lies behind the widths before it. */
  lemma {:induction false} UnpackAt(widths: seq<nat>, block: seq<byte>, k: nat)
    requires |block| == Total(widths) && k < |widths|
    ensures var off := Total(widths[..k]);
            off + widths[k] <= |block| && Unpack(widths, block)[k] == block[off..off + widths[k]]
  {
    if k == 0 {
      assert widths[..0] == [];
    } else {
      var rest := block[widths[0]..];
      UnpackAt(widths[1..], rest, k - 1);
      var off := Total(widths[1..][..k - 1]);
      assert widths[..k][1..] == widths[1..][..k - 1];
      assert rest[off..off + widths[k]] == block[widths[0] + off..widths[0] + off + widths[k]];
    }
  }

  lemma {:induction false} TotalSplit(widths: seq<nat>, k: nat)
    requires k <= |widths|
    ensures Total(widths) == Total(widths[..k]) + Total(widths[k..])
  {
    if k == 0 {
      assert widths[..0] == [] && widths[0..] == widths;
    } else {
      TotalSplit(widths[1..], k - 1);
      assert widths[1..][..k - 1] == widths[..k][1..];
      assert widths[1..][k - 1..] == widths[k..];
    }
  }

  lemma {:induction false} PackSplit(fields: seq<seq<byte>>, k: nat)
    requires k < |fields|
    ensures Pack(fields) == Pack(fields[..k]) + fields[k] + Pack(fields[k + 1..])
  {
    if k == 0 {
      assert fields[..0] == [];
    } else {
      PackSplit(fields[1..], k - 1);
      assert fields[1..][..k - 1] == fields[..k][1..];
      assert fields[1..][k..] == fields[k + 1..];
    }
  }

  /** Overwriting the k-th member of a struct overwrites exactly its bytes. */
  lemma {:induction false} PackUpdate(fields: seq<seq<byte>>, widths: seq<nat>, k: nat, f: seq<byte>)
    requires Fits(fields, widths) && k < |fields| && |f| == widths[k]
    ensures var off := Total(widths[..k]);
            && off + widths[k] <= |Pack(fields)|
            && Pack(fields[k := f]) == Pack(fields)[..off] + f + Pack(fields)[off + widths[k]..]
  {
    PackSplit(fields, k);
    PackSplit(fields[k := f], k);
    assert fields[k := f][..k] == fields[..k];
    assert fields[k := f][k + 1..] == fields[k + 1..];
    UnpackPack(widths[..k], fields[..k]);
  }
}
