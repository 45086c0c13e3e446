/** Identifier and length octets (sections 8.1.2 and 8.1.3 of X.690), written and parsed. */
module BerHeader {
  import opened Bytes
  import opened Results
  import opened Words

  datatype TagAndLen = TagAndLen(cls: nat, constructed: bool, tagNumber: nat, len: nat)

  /** A parsed header and the number of octets it took. */
  datatype Header = Header(tal: TagAndLen, size: nat)

  // ---------------------------------------------------------------- writing

  /** How many 7-bit groups the number x takes. */
  function GroupCount(x: nat): (n: nat)
    ensures n >= 1
  {
    if x <= 127 then 1 else 1 + GroupCount(x / 128)
  }

  /** The low n 7-bit groups of x, most significant first, each marked "more follow". */
  function Groups(x: nat, n: nat): (s: seq<byte>)
    ensures |s| == n
    decreases n
  {
    if n == 0 then [] else Groups(x / 128, n - 1) + [x % 128 + 128]
  }

  /** Big-endian octets of x without leading zeros. */
  function MinOctets(x: nat): seq<byte> {
    if x == 0 then [] else MinOctets(x / 256) + [x % 256]
  }

  function TagOctets(t: TagAndLen): (s: seq<byte>)
    ensures |s| >= 1
  {
    var first := t.cls % 4 * 64 + if t.constructed then 0x20 else 0;
    if t.tagNumber <= 30 then [first + t.tagNumber]
    else [first + 31] + Groups(t.tagNumber / 128, GroupCount(t.tagNumber) - 1) + [t.tagNumber % 128]
  }

  function LenOctets(len: nat): (s: seq<byte>)
    ensures |s| >= 1
  {
    if len <= 127 then [len] else [(|MinOctets(len)| % 128) + 128] + MinOctets(len)
  }

  function HeaderOctets(t: TagAndLen): (s: seq<byte>)
    ensures |s| >= 2
  {
    TagOctets(t) + LenOctets(t.len)
  }

  lemma {:induction false} MinOctetsFill(x: nat)
    ensures Octets(x, |MinOctets(x)|) == MinOctets(x)
    ensures BigEndian(MinOctets(x)) == x
  {
    if x != 0 {
      MinOctetsFill(x / 256);
      assert MinOctets(x)[..|MinOctets(x)| - 1] == MinOctets(x / 256);
    }
  }

  /** Appends the identifier octets to an empty slice: the high form is grown and then patched from the right. */
  method AppendTag(t: TagAndLen) returns (dst: seq<byte>)
    ensures dst == TagOctets(t)
  {
    var firstByte := t.cls % 4 * 64;
    if t.constructed {
      firstByte := firstByte + 0x20;
    }
    if t.tagNumber <= 30 {
      return [firstByte + t.tagNumber];
    }
    dst := [firstByte + 31];
    var offset := 1;
    var n := 1;
    var tmp := t.tagNumber;
    while tmp > 127
      invariant n >= 1
      invariant n + GroupCount(tmp) == 1 + GroupCount(t.tagNumber)
    {
      n := n + 1;
      tmp := tmp / 128;
    }
    dst := dst + seq(n, i => 0);
    dst := FillGroups(dst, offset, n, t.tagNumber);
    dst := dst[n - 1 + offset := dst[n - 1 + offset] % 128];
    assert dst == [firstByte + 31] + Groups(t.tagNumber / 128, n - 1) + [t.tagNumber % 128];
  }

  /** The patching loop of the high form: writes n groups of x at offset, from the right. */
  method FillGroups(dst0: seq<byte>, offset: nat, n: nat, x: nat) returns (dst: seq<byte>)
    requires |dst0| == offset + n
    ensures dst == dst0[..offset] + Groups(x, n)
  {
    dst := dst0;
    var tagNumber := x;
    var i := 0;
    while i < n
      invariant 0 <= i <= n && |dst| == offset + n
      invariant dst[..offset] == dst0[..offset]
      invariant Groups(x, n) == Groups(tagNumber, n - i) + dst[offset + n - i..]
    {
      ghost var before := dst;
      dst := dst[n - 1 - i + offset := tagNumber % 128 + 128];
      assert dst[offset + n - (i + 1)..] == [tagNumber % 128 + 128] + before[offset + n - i..];
      tagNumber := tagNumber / 128;
      i := i + 1;
    }
    assert dst == dst[..offset] + dst[offset..];
  }

  /** Appends a header to an empty slice. */
  method AppendTagAndLen(t: TagAndLen) returns (dst: seq<byte>)
    ensures dst == HeaderOctets(t)
  {
    dst := AppendTag(t);
    var offset := |dst|;
    if t.len <= 127 {
      return dst + [t.len];
    }
    var n := 1;
    var tmp := t.len;
    while tmp > 255
      invariant n >= 1 && tmp > 0
      invariant n + |MinOctets(tmp / 256)| == |MinOctets(t.len)|
    {
      n := n + 1;
      tmp := tmp / 256;
    }
    dst := dst + [n % 128 + 128];
    offset := offset + 1;
    dst := dst + seq(n, i => 0);
    dst := FillOctets(dst, offset, n, t.len);
    MinOctetsFill(t.len);
  }

  /** The patching loop of the long form: writes the low n octets of x at offset, from the right. */
  method FillOctets(dst0: seq<byte>, offset: nat, n: nat, x: nat) returns (dst: seq<byte>)
    requires |dst0| == offset + n
    ensures dst == dst0[..offset] + Octets(x, n)
  {
    dst := dst0;
    var len := x;
    var i := 0;
    while i < n
      invariant 0 <= i <= n && |dst| == offset + n
      invariant dst[..offset] == dst0[..offset]
      invariant Octets(x, n) == Octets(len, n - i) + dst[offset + n - i..]
    {
      ghost var before := dst;
      dst := dst[n - 1 - i + offset := len % 256];
      assert dst[offset + n - (i + 1)..] == [len % 256] + before[offset + n - i..];
      len := len / 256;
      i := i + 1;
    }
    assert dst == dst[..offset] + dst[offset..];
  }

  // ---------------------------------------------------------------- parsing

  /** The tag number read from off on, in a 64-bit word, and where it ends. */
  function ScanTag(bytes: seq<byte>, off: nat, acc: nat): (r: (nat, nat))
    ensures r.1 >= off && (off < |bytes| ==> r.1 > off)
    ensures off <= |bytes| ==> r.1 <= |bytes|
    decreases |bytes| - off
  {
    if off < |bytes| then
      var next := acc * 128 % TWO_64 + bytes[off] % 128;
      if bytes[off] < 128 then (next, off + 1) else ScanTag(bytes, off + 1, next)
    else (acc, off)
  }

  function ParseLen(bytes: seq<byte>, cls: nat, constructed: bool, tag: nat, off: nat): (r: Result<Header>)
    requires off >= 1
    ensures r.Ok? ==> off + 1 <= r.value.size <= |bytes|
  {
    if off >= |bytes| then Fail(Error)
    else if bytes[off] <= 127 then Ok(Header(TagAndLen(cls, constructed, tag, bytes[off]), off + 1))
    else
      var n := bytes[off] % 128;
      if n > 3 then Fail(Error)
      else if off + 1 + n > |bytes| then Fail(Panic)
      else Ok(Header(TagAndLen(cls, constructed, tag, BigEndian(bytes[off + 1..off + 1 + n])), off + 1 + n))
  }

  function ParseHeader(bytes: seq<byte>): (r: Result<Header>)
    ensures r.Ok? ==> 2 <= r.value.size <= |bytes|
  {
    if bytes == [] then Fail(Panic)
    else
      var cls, constructed, low := bytes[0] / 64, bytes[0] / 32 % 2 == 1, bytes[0] % 32;
      if low != 31 then ParseLen(bytes, cls, constructed, low, 1)
      else
        var (tag, off) := ScanTag(bytes, 1, 0);
        if off > 10 then Fail(Error) else ParseLen(bytes, cls, constructed, tag, off)
  }

  /** An octet string that is exactly one TLV. */
  predicate IsTlv(m: seq<byte>) {
    var r := ParseHeader(m);
    r.Ok? && r.value.size + r.value.tal.len == |m|
  }

  method ParseTagAndLength(bytes: seq<byte>) returns (r: Result<Header>)
    ensures r == ParseHeader(bytes)
  {
    if |bytes| == 0 {
      return Fail(Panic);
    }
    var off := 1;
    var cls := bytes[0] / 64;
    var constructed := bytes[0] / 32 % 2 == 1;
    var tagNumber: nat := 0;
    if bytes[0] % 32 != 31 {
      tagNumber := bytes[0] % 32;
    } else {
      while off < |bytes|
        invariant 1 <= off <= |bytes|
        invariant ScanTag(bytes, 1, 0) == ScanTag(bytes, off, tagNumber)
      {
        tagNumber := tagNumber * 128 % TWO_64;
        tagNumber := tagNumber + bytes[off] % 128;
        off := off + 1;
        if bytes[off - 1] < 128 {
          break;
        }
      }
      assert (tagNumber, off) == ScanTag(bytes, 1, 0);
      if off > 10 {
        return Fail(Error);
      }
    }
    if off >= |bytes| {
      return Fail(Error);
    }
    if bytes[off] <= 127 {
      r := Ok(Header(TagAndLen(cls, constructed, tagNumber, bytes[off]), off + 1));
    } else {
      var n := bytes[off] % 128;
      if n > 3 {
        return Fail(Error);
      }
      off := off + 1;
      if off + n > |bytes| {
        return Fail(Panic);
      }
      r := Ok(Header(TagAndLen(cls, constructed, tagNumber, BigEndian(bytes[off..off + n])), off + n));
    }
  }
}
