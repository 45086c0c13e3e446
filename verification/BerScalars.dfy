/** Contents octets of INTEGER / ENUMERATED (section 8.3 of X.690) and BIT STRING (section 8.6). */
module BerScalars {
  import opened Bytes
  import opened Results
  import opened Words

  // ---------------------------------------------------------------- INTEGER

  predicate IsInt64(i: int) { -TWO_63 <= i < TWO_63 }

  function IntLen(i: int): (n: nat)
    ensures n >= 1
    decreases if i < 0 then -i else i
  {
    if i > 127 || i < -128 then 1 + IntLen(i / 256) else 1
  }

  function ParseInt(bytes: seq<byte>): Result<int> {
    if |bytes| > 8 then Fail(Error) else Ok(I64(BigEndian(bytes)))
  }

  /** i fits n octets of two's complement. */
  predicate FitsOctets(i: int, n: nat)
    requires n >= 1
  {
    0 <= i + 128 * Pow256(n - 1) < 256 * Pow256(n - 1)
  }

  method Int64Len(i0: int) returns (n: nat)
    requires IsInt64(i0)
    ensures n == IntLen(i0)
  {
    var i := i0;
    n := 1;
    while i > 127
      invariant n >= 1 && n + IntLen(i) == 1 + IntLen(i0)
    {
      n := n + 1;
      i := i / 256;
    }
    while i < -128
      invariant n >= 1 && i <= 127 && n + IntLen(i) == 1 + IntLen(i0)
      decreases -i
    {
      n := n + 1;
      i := i / 256;
    }
  }

  /** Writes the octets of i at start, from the last to the first. */
  method Int64Encode(i0: int, dst: array<byte>, start: nat)
    requires IsInt64(i0) && start + IntLen(i0) <= dst.Length
    modifies dst
    ensures dst[..] == old(dst[..start]) + Octets(i0, IntLen(i0)) + old(dst[start + IntLen(i0)..])
  {
    hide Octets;
    var n := Int64Len(i0);
    var i := i0;
    var j := 0;
    NoOctets(i0);
    ghost var before, tail: seq<byte> := dst[..], [];
    while j < n
      invariant 0 <= j <= n == IntLen(i0) && |tail| == j
      invariant dst[..] == before[..start + n - j] + tail + before[start + n..]
      invariant Octets(i0, n) == Octets(i, n - j) + tail
    {
      var last: byte := i % 256;
      LastOctet(i, n - j, tail);
      Prepended(before, tail, start + n - 1 - j, start + n, last);
      dst[start + n - 1 - j] := last;
      tail := [last] + tail;
      i := i / 256;
      j := j + 1;
    }
    NoOctets(i);
  }

  lemma Prepended(before: seq<byte>, tail: seq<byte>, at: nat, end: nat, b: byte)
    requires at < end <= |before| && |tail| == end - at - 1
    ensures (before[..at + 1] + tail + before[end..])[at := b] == before[..at] + ([b] + tail) + before[end..]
  {
  }

  lemma NoOctets(i: int)
    ensures Octets(i, 0) == []
  {
  }

  lemma LastOctet(i: int, n: nat, tail: seq<byte>)
    requires n > 0
    ensures Octets(i, n) + tail == Octets(i / 256, n - 1) + ([i % 256] + tail)
  {
    var init := Octets(i / 256, n - 1);
    assert Octets(i, n) == init + [i % 256];
    hide Octets;
    assert (init + [i % 256]) + tail == init + ([i % 256] + tail);
  }

  /** Shifting in one more octet, in a 64-bit word. */
  lemma NextOctet(bytes: seq<byte>, k: nat)
    requires k < |bytes| <= 8
    ensures bytes[..0] == []
    ensures I64(I64(BigEndian(bytes[..k])) * 256) + bytes[k] == I64(BigEndian(bytes[..k + 1]))
  {
    BigEndianBound(bytes[..k]);
    Pow256Upto7(k);
    assert bytes[..k + 1][..k] == bytes[..k];
    var v: int := BigEndian(bytes[..k]);
    assert BigEndian(bytes[..k + 1]) == 256 * v + bytes[k];
    hide BigEndian, Pow256;
    ShiftWord(v, bytes[k]);
  }

  lemma ShiftWord(v: nat, b: byte)
    requires v <= 0x100_0000_0000_0000
    ensures I64(I64(v) * 256) + b == I64(256 * v + b)
  {
  }

  method ParseInt64(bytes: seq<byte>) returns (r: Result<int>)
    ensures r == ParseInt(bytes)
  {
    if |bytes| > 8 {
      return Fail(Error);
    }
    var v: int := 0;
    assert I64(BigEndian(bytes[..0])) == 0;
    hide I64, BigEndian;
    for k := 0 to |bytes|
      invariant v == I64(BigEndian(bytes[..k]))
    {
      NextOctet(bytes, k);
      v := I64(v * 256);
      v := v + bytes[k];
    }
    assert bytes[..|bytes|] == bytes;
    r := Ok(v);
  }

  lemma Pow256Upto7(k: nat)
    requires k < 8
    ensures Pow256(k) <= 0x100_0000_0000_0000
  {
    assert Pow256(4) == 0x1_0000_0000 && Pow256(7) == 256 * 256 * 256 * Pow256(4);
    Pow256Monotone(k, 7);
  }

  lemma {:induction false} Pow256Monotone(m: nat, n: nat)
    requires m <= n
    ensures Pow256(m) <= Pow256(n)
  {
    if m < n {
      Pow256Monotone(m, n - 1);
    }
  }

  lemma Pow256Of8()
    ensures Pow256(8) == TWO_64 && Pow256(7) == 0x100_0000_0000_0000
  {
    assert Pow256(4) == 0x1_0000_0000 && Pow256(7) == 256 * 256 * 256 * Pow256(4);
  }

  /** The encoder's length is the least number of octets that hold i. */
  lemma {:induction false} IntLenIsLeast(i: int, n: nat)
    requires n >= 1
    ensures FitsOctets(i, n) <==> IntLen(i) <= n
    decreases n
  {
    if -128 <= i <= 127 {
      Pow256Monotone(0, n - 1);
    } else if n > 1 {
      IntLenIsLeast(i / 256, n - 1);
    }
  }

  lemma Int64FitsEight(i: int)
    requires IsInt64(i)
    ensures 1 <= IntLen(i) <= 8
  {
    Pow256Of8();
    IntLenIsLeast(i, 8);
  }

  /** parseInt64 does not extend the sign: a negative number comes back raised by 256^n unless n = 8. */
  lemma IntDecoded(i: int)
    requires IsInt64(i)
    ensures ParseInt(Octets(i, IntLen(i))) ==
            Ok(if i >= 0 || IntLen(i) == 8 then i else i + Pow256(IntLen(i)))
  {
    hide Octets, IntLen, BigEndian;
    var n := IntLen(i);
    Int64FitsEight(i);
    IntLenIsLeast(i, n);
    FitsBelow(i, n);
    OctetsValue(i, n);
    Pow256Of8();
    if n < 8 {
      Pow256Upto7(n);
      hide Pow256;
    }
  }

  lemma FitsBelow(i: int, n: nat)
    requires n >= 1 && FitsOctets(i, n)
    ensures 0 <= i + Pow256(n) && i < Pow256(n)
  {
    assert Pow256(n) == 256 * Pow256(n - 1);
  }

  /** The integers that survive: the non-negative ones and those that need all eight octets. */
  lemma IntRoundTrip(i: int)
    requires IsInt64(i)
    ensures ParseInt(Octets(i, IntLen(i))) == Ok(i) <==> i >= 0 || i < -0x80_0000_0000_0000
  {
    IntDecoded(i);
    Int64FitsEight(i);
    IntLenIsLeast(i, 7);
    assert Pow256(6) == 0x1_0000_0000_0000 by { assert Pow256(3) == 0x100_0000; }
  }

  // ---------------------------------------------------------------- BIT STRING

  function BitOctets(bits: seq<byte>, bitLength: nat): seq<byte> {
    [8 - bitLength % 8] + bits
  }

  /** The bit length parsed from contents of len octets whose first is unused; a 64-bit word. */
  function ParsedBitLength(len: nat, unused: byte): nat {
    ((len - 1) * 8 - unused) % TWO_64
  }

  /**
   * A multiple of 8 bits is announced with 8 unused bits, so a bit string survives when its
   * octets are one more than its whole octets (or when it is empty and its length is the top of the word).
   */
  lemma BitLengthRoundTrip(bits: seq<byte>, bitLength: nat)
    requires bitLength < TWO_64 && |bits| < 0x1000_0000_0000_0000
    ensures var c := BitOctets(bits, bitLength);
            ParsedBitLength(|c|, c[0]) == bitLength <==>
            |bits| == bitLength / 8 + 1 || (bits == [] && bitLength >= TWO_64 - 8)
  {
    var c := BitOctets(bits, bitLength);
    var x := |bits| * 8 - (8 - bitLength % 8);
    assert ParsedBitLength(|c|, c[0]) == x % TWO_64;
    assert bitLength == bitLength / 8 * 8 + bitLength % 8;
    if bits == [] {
      assert x % TWO_64 == x + TWO_64;
    } else {
      assert 0 <= x < TWO_64;
    }
  }
}
