/** Headers survive a round trip with any data behind them, exactly within the parser's two limits. */
module BerHeaderLaws {
  import opened Bytes
  import opened Results
  import opened Words
  import opened BerHeader

  /** 128 to the power n. */
  function Pow128(n: nat): (p: nat)
    ensures p > 0
  {
    if n == 0 then 1 else 128 * Pow128(n - 1)
  }

  lemma {:induction false} GroupCountBound(x: nat, k: nat)
    requires k >= 1
    ensures GroupCount(x) <= k <==> x < Pow128(k)
  {
    if x <= 127 {
      Pow128Grows(k);
    } else if k > 1 {
      GroupCountBound(x / 128, k - 1);
    } else {
      assert Pow128(1) == 128 * Pow128(0);
    }
  }

  lemma {:induction false} Pow128Grows(k: nat)
    requires k >= 1
    ensures Pow128(k) >= 128
  {
    if k > 1 {
      Pow128Grows(k - 1);
    } else {
      assert Pow128(1) == 128 * Pow128(0);
    }
  }

  /** Tag numbers of at most nine groups are exactly those below 2^63. */
  lemma NineGroups(x: nat)
    ensures GroupCount(x) <= 9 <==> x < TWO_63
  {
    GroupCountBound(x, 9);
    assert Pow128(4) == 0x1000_0000 && Pow128(9) == 128 * 128 * 128 * 128 * 128 * Pow128(4);
  }

  lemma {:induction false} MinOctetsBound(x: nat, k: nat)
    ensures |MinOctets(x)| <= k <==> x < Pow256(k)
  {
    if x != 0 && k > 0 {
      MinOctetsBound(x / 256, k - 1);
    }
  }

  lemma ThreeOctets(x: nat)
    ensures |MinOctets(x)| <= 3 <==> x < 0x100_0000
  {
    MinOctetsBound(x, 3);
    assert Pow256(3) == 256 * Pow256(2) && Pow256(2) == 256 * Pow256(1);
  }

  /** Scanning n marked groups of x gathers x, as long as it fits the 64-bit word. */
  lemma {:induction false} ScanGroups(pre: seq<byte>, x: nat, n: nat, rest: seq<byte>)
    requires x < TWO_64 && x < Pow128(n)
    ensures var bytes := pre + Groups(x, n) + rest;
            ScanTag(bytes, |pre|, 0) == ScanTag(bytes, |pre| + n, x)
    decreases n
  {
    if n > 0 {
      var last := [(x % 128 + 128) as byte];
      assert pre + Groups(x, n) + rest == pre + Groups(x / 128, n - 1) + (last + rest);
      ScanGroups(pre, x / 128, n - 1, last + rest);
      ScanStep(pre + Groups(x, n) + rest, |pre| + n - 1, x);
    }
  }

  /** One more group shifted into the word. */
  lemma NextGroup(x: nat)
    requires x < TWO_64
    ensures x / 128 * 128 % TWO_64 + x % 128 == x && (x % 128 + 128) % 128 == x % 128
  {
    assert x == x / 128 * 128 + x % 128;
    assert 0 <= x / 128 * 128 < TWO_64;
  }

  lemma ScanStep(bytes: seq<byte>, off: nat, x: nat)
    requires off < |bytes| && bytes[off] == x % 128 + 128 && x < TWO_64
    ensures ScanTag(bytes, off, x / 128) == ScanTag(bytes, off + 1, x)
  {
    NextGroup(x);
  }

  /** A high-form tag is read back whole. */
  lemma ScanHighTag(first: byte, t: nat, rest: seq<byte>)
    requires t < TWO_64
    ensures ScanTag([first] + (Groups(t / 128, GroupCount(t) - 1) + [t % 128]) + rest, 1, 0) == (t, GroupCount(t) + 1)
  {
    var n := GroupCount(t);
    var last := [(t % 128) as byte];
    var bytes := [first] + Groups(t / 128, n - 1) + (last + rest);
    assert [first] + (Groups(t / 128, n - 1) + last) + rest == bytes;
    GroupCountBound(t, n);
    if t > 127 {
      GroupCountBound(t / 128, n - 1);
    }
    ScanGroups([first], t / 128, n - 1, last + rest);
    ScanLast(bytes, n, t);
  }

  lemma ScanLast(bytes: seq<byte>, off: nat, x: nat)
    requires off < |bytes| && bytes[off] == x % 128 && x < TWO_64
    ensures ScanTag(bytes, off, x / 128) == (x, off + 1)
  {
    NextGroup(x);
  }

  lemma ParseLenOctets(id: seq<byte>, t: TagAndLen, rest: seq<byte>)
    requires |id| >= 1 && t.len < TWO_63
    ensures ParseLen(id + LenOctets(t.len) + rest, t.cls, t.constructed, t.tagNumber, |id|) ==
            if t.len < 0x100_0000 then Ok(Header(t, |id| + |LenOctets(t.len)|)) else Fail(Error)
  {
    hide ParseLen;
    if t.len <= 127 {
      Behind(id, t.len, [], rest);
      ParseShortLen(id + LenOctets(t.len) + rest, t, |id|);
    } else {
      hide MinOctets;
      var m := MinOctets(t.len);
      EightOctets(t.len);
      var octets: seq<byte> := [|m| + 128] + m;
      assert LenOctets(t.len) == octets;
      hide LenOctets;
      Behind(id, |m| + 128, m, rest);
      ParseLongLen(id + octets + rest, t, |id|);
    }
  }

  lemma ParseShortLen(bytes: seq<byte>, t: TagAndLen, off: nat)
    requires 1 <= off < |bytes| && bytes[off] == t.len <= 127
    ensures ParseLen(bytes, t.cls, t.constructed, t.tagNumber, off) == Ok(Header(t, off + 1))
  {
  }

  lemma Behind(id: seq<byte>, first: byte, m: seq<byte>, rest: seq<byte>)
    ensures var bytes := id + ([first] + m) + rest;
            |bytes| == |id| + 1 + |m| + |rest| && bytes[|id|] == first && bytes[|id| + 1..|id| + 1 + |m|] == m
  {
  }

  lemma ParseLongLen(bytes: seq<byte>, t: TagAndLen, off: nat)
    requires off >= 1 && 127 < t.len < TWO_63
    requires var m := MinOctets(t.len);
             off + 1 + |m| <= |bytes| && bytes[off] == |m| + 128 && bytes[off + 1..off + 1 + |m|] == m
    ensures ParseLen(bytes, t.cls, t.constructed, t.tagNumber, off) ==
            if t.len < 0x100_0000 then Ok(Header(t, off + 1 + |MinOctets(t.len)|)) else Fail(Error)
  {
    hide MinOctets, BigEndian, ParseLen, Octets;
    MinOctetsFill(t.len);
    ThreeOctets(t.len);
    EightOctets(t.len);
    ParseLenForm(bytes, t.cls, t.constructed, t.tagNumber, off, |MinOctets(t.len)|);
  }

  /** The long form, whose first octet announces n more. */
  lemma ParseLenForm(bytes: seq<byte>, cls: nat, constructed: bool, tag: nat, off: nat, n: nat)
    requires off >= 1 && n < 128 && off + 1 + n <= |bytes| && bytes[off] == 128 + n
    ensures ParseLen(bytes, cls, constructed, tag, off) ==
            if n > 3 then Fail(Error) else Ok(Header(TagAndLen(cls, constructed, tag, BigEndian(bytes[off + 1..off + 1 + n])), off + 1 + n))
  {
    hide BigEndian;
    assert bytes[off] % 128 == n;
  }

  lemma EightOctets(x: nat)
    requires x < TWO_63
    ensures |MinOctets(x)| <= 8
  {
    MinOctetsBound(x, 8);
    assert Pow256(4) == 0x1_0000_0000 && Pow256(8) == 256 * 256 * 256 * 256 * Pow256(4);
  }

  /**
   * Parsing what the encoder wrote, whatever follows it, gives back the same header and its exact size
   * if the tag number is below 2^63 and the length below 2^24, and an error otherwise.
   */
  lemma HeaderRoundTrip(t: TagAndLen, rest: seq<byte>)
    requires t.cls < 4 && t.tagNumber < TWO_64 && t.len < TWO_63
    ensures ParseHeader(HeaderOctets(t) + rest) ==
            if t.tagNumber < TWO_63 && t.len < 0x100_0000 then Ok(Header(t, |HeaderOctets(t)|)) else Fail(Error)
  {
    var h := HeaderOctets(t);
    var bytes := h + rest;
    var id := TagOctets(t);
    assert bytes[0] == id[0];
    FirstOctet(t);
    assert bytes == id + LenOctets(t.len) + rest;
    ParseLenOctets(id, t, rest);
    TagScanned(t, LenOctets(t.len) + rest);
    hide LenOctets, ParseLen, ScanTag, TagOctets;
    assert bytes == id + (LenOctets(t.len) + rest);
  }

  /** A low tag is one octet; a high one is scanned whole, and is too long from 2^63 on. */
  lemma TagScanned(t: TagAndLen, rest: seq<byte>)
    requires t.tagNumber < TWO_64
    ensures var id := TagOctets(t);
            if t.tagNumber <= 30 then |id| == 1
            else ScanTag(id + rest, 1, 0) == (t.tagNumber, |id|) && (|id| > 10 <==> t.tagNumber >= TWO_63)
  {
    NineGroups(t.tagNumber);
    if t.tagNumber > 30 {
      hide ScanTag, Groups;
      var id := TagOctets(t);
      ScanHighTag(id[0], t.tagNumber, rest);
      assert id == [id[0]] + (Groups(t.tagNumber / 128, GroupCount(t.tagNumber) - 1) + [t.tagNumber % 128]);
    }
  }

  lemma FirstOctet(t: TagAndLen)
    requires t.cls < 4
    ensures var b := TagOctets(t)[0];
            b / 64 == t.cls && (b / 32 % 2 == 1 <==> t.constructed) &&
            b % 32 == if t.tagNumber <= 30 then t.tagNumber else 31
  {
    hide Groups;
    OctetFields(t.cls, if t.constructed then 1 else 0, if t.tagNumber <= 30 then t.tagNumber else 31);
  }

  lemma OctetFields(cls: nat, constructed: nat, low: nat)
    requires cls < 4 && constructed < 2 && low < 32
    ensures var b := cls * 64 + constructed * 32 + low;
            b < 256 && b / 64 == cls && b / 32 % 2 == constructed && b % 32 == low
  {
  }

  /** A complete header is not affected by what follows it. */
  lemma HeaderLocal(m: seq<byte>, rest: seq<byte>)
    requires ParseHeader(m).Ok?
    ensures ParseHeader(m + rest) == ParseHeader(m)
  {
    if m[0] % 32 == 31 {
      ScanLocal(m, rest, 1, 0);
    }
    var h := ParseHeader(m).value;
    var off := if m[0] % 32 == 31 then ScanTag(m, 1, 0).1 else 1;
    if m[off] > 127 {
      assert (m + rest)[off + 1..h.size] == m[off + 1..h.size];
    }
  }

  lemma {:induction false} ScanLocal(m: seq<byte>, rest: seq<byte>, off: nat, acc: nat)
    requires ScanTag(m, off, acc).1 < |m|
    ensures ScanTag(m + rest, off, acc) == ScanTag(m, off, acc)
    decreases |m| - off
  {
    if off < |m| && m[off] >= 128 {
      ScanLocal(m, rest, off + 1, acc * 128 % TWO_64 + m[off] % 128);
    }
  }
}
