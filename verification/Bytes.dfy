/** Octets and big-endian numbers, shared by the BER codec and the CDR file codec. */
module Bytes {

  type byte = b: int | 0 <= b < 0x100

  /** 256 to the power n. */
  function Pow256(n: nat): (p: nat)
    ensures p > 0
  {
    if n == 0 then 1 else 256 * Pow256(n - 1)
  }

  /** The number whose big-endian octets are s. */
  function BigEndian(s: seq<byte>): nat {
    if s == [] then 0 else 256 * BigEndian(s[..|s| - 1]) + s[|s| - 1]
  }

  /** The low n octets of x, most significant first; a negative x gives its two's complement. */
  function Octets(x: int, n: nat): (s: seq<byte>)
    ensures |s| == n
    decreases n
  {
    if n == 0 then [] else Octets(x / 256, n - 1) + [x % 256]
  }

  lemma {:induction false} BigEndianBound(s: seq<byte>)
    ensures BigEndian(s) < Pow256(|s|)
  {
    if s != [] {
      BigEndianBound(s[..|s| - 1]);
    }
  }

  /** Reading back n octets gives x itself, or x + 256^n when x is negative. */
  lemma {:induction false} OctetsValue(x: int, n: nat)
    requires 0 <= x + Pow256(n) && x < Pow256(n)
    ensures BigEndian(Octets(x, n)) == if x >= 0 then x else x + Pow256(n)
    decreases n
  {
    if n > 0 {
      OctetsValue(x / 256, n - 1);
      var s := Octets(x, n);
      assert s[..|s| - 1] == Octets(x / 256, n - 1);
    }
  }

  /** n octets are determined by the number they spell. */
  lemma {:induction false} OctetsOfBigEndian(s: seq<byte>)
    ensures Octets(BigEndian(s), |s|) == s
  {
    if s != [] {
      OctetsOfBigEndian(s[..|s| - 1]);
      assert s == s[..|s| - 1] + [s[|s| - 1]];
    }
  }

  /** The concatenation of a list of octet strings. */
  function Concat(parts: seq<seq<byte>>): seq<byte> {
    if parts == [] then [] else Concat(parts[..|parts| - 1]) + parts[|parts| - 1]
  }

  lemma {:induction false} ConcatAppend(a: seq<seq<byte>>, b: seq<seq<byte>>)
    ensures Concat(a + b) == Concat(a) + Concat(b)
  {
    if b == [] {
      assert a + b == a;
    } else {
      var n := |b| - 1;
      ConcatAppend(a, b[..n]);
      assert (a + b)[..|a + b| - 1] == a + b[..n] && (a + b)[|a + b| - 1] == b[n];
    }
  }

  /** Where part k lies in the concatenation, and that a shorter prefix ends before it. */
  lemma {:induction false} ConcatSlice(parts: seq<seq<byte>>, k: nat)
    requires k < |parts|
    ensures |Concat(parts[..k])| + |parts[k]| == |Concat(parts[..k + 1])| <= |Concat(parts)|
    ensures Concat(parts)[|Concat(parts[..k])|..] == parts[k] + Concat(parts[k + 1..])
  {
    ConcatAppend(parts[..k], parts[k..]);
    assert parts[..k] + parts[k..] == parts;
    ConcatAppend([parts[k]], parts[k + 1..]);
    assert [parts[k]] + parts[k + 1..] == parts[k..];
    ConcatOne(parts[k]);
    assert parts[..k + 1][..k] == parts[..k];
  }

  lemma ConcatOne(part: seq<byte>)
    ensures Concat([part]) == part
  {
    assert [part][..0] == [];
    assert Concat([part]) == Concat([]) + part;
  }
}
