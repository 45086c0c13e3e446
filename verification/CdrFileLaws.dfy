/** Which CDR files survive writing and reading, exactly; and re-encoding a decoded file. */
module CdrFileLaws {
  import opened Bytes
  import opened Results
  import opened Words
  import opened CdrFileTypes
  import opened CdrFileCodec

  // ---------------------------------------------------------------- words and packed octets

  lemma Pow256Words()
    ensures Pow256(1) == 0x100 && Pow256(2) == 0x1_0000 && Pow256(4) == 0x1_0000_0000
  {
    assert Pow256(2) == 256 * Pow256(1) && Pow256(4) == 256 * 256 * Pow256(2);
  }

  lemma Word4RoundTrip(x: u32)
    ensures Word4(Octets(x, 4)) == x
  {
    Pow256Words();
    OctetsValue(x, 4);
  }

  lemma Word2RoundTrip(x: u16)
    ensures Word2(Octets(x, 2)) == x
  {
    Pow256Words();
    OctetsValue(x, 2);
  }

  lemma OctetsOfWord4(s: seq<byte>)
    requires |s| == 4
    ensures Octets(Word4(s), 4) == s
  {
    hide Octets, BigEndian, Pow256;
    Pow256Words();
    BigEndianBound(s);
    OctetsOfBigEndian(s);
  }

  lemma OctetsOfWord2(s: seq<byte>)
    requires |s| == 2
    ensures Octets(Word2(s), 2) == s
  {
    hide Octets, BigEndian, Pow256;
    Pow256Words();
    BigEndianBound(s);
    OctetsOfBigEndian(s);
  }

  lemma OneOctet(b: byte)
    ensures Octets(b, 1) == [b]
  {
    assert Octets(b, 1) == Octets(b / 256, 0) + [b % 256];
  }

  /** A packed octet and its two fields. */
  lemma PackedOctet(b: byte)
    ensures Octets(PackOctet(b / 0x20, b % 0x20), 1) == [b]
  {
    PackOctetFields(b / 0x20, b % 0x20);
    OneOctet(b);
  }

  lemma UnpackedOctet(high: byte, low: byte)
    requires high < 8 && low < 0x20
    ensures var s := Octets(PackOctet(high, low), 1); s[0] / 0x20 == high && s[0] % 0x20 == low
  {
    PackOctetFields(high, low);
    OneOctet(high * 0x20 + low);
  }

  // ---------------------------------------------------------------- canonical files

  predicate HeaderInWidth(h: FileHeader) {
    && h.highRelease < 8 && h.highVersion < 0x20 && h.lowRelease < 8 && h.lowVersion < 0x20
    && TimeInWidth(h.openedAt) && TimeInWidth(h.appendedAt)
    && h.filterLength == |h.filter| && h.privateLength == |h.privateExtension|
    && (h.highRelease != 7 ==> h.highExtension == 0) && (h.lowRelease != 7 ==> h.lowExtension == 0)
  }

  predicate CdrInWidth(c: Cdr) {
    && c.hdr.release < 8 && c.hdr.version < 0x20 && c.hdr.format < 8 && c.hdr.tsNumber < 0x20
    && (c.hdr.release != 7 ==> c.hdr.releaseExtension == 0)
    && c.hdr.cdrLength == |c.bytes|
  }

  /** Fields within their bit widths, consistent lengths and count, no extension octet that is not written. */
  predicate Canonical(h: FileHeader, cs: seq<Cdr>) {
    HeaderInWidth(h) && h.numberOfCdrs == |cs| && forall k :: 0 <= k < |cs| ==> CdrInWidth(cs[k])
  }

  // ---------------------------------------------------------------- the fixed part

  function FixedOnly(h: FileHeader): FileHeader {
    h.(filter := [], privateLength := 0, privateExtension := [], highExtension := 0, lowExtension := 0)
  }

  lemma IdentifiersRead(h: FileHeader)
    requires HeaderInWidth(h)
    ensures var b := Identifiers(h);
            && Word4(b[0..4]) == h.fileLength && Word4(b[4..8]) == h.headerLength
            && b[8] / 0x20 == h.highRelease && b[8] % 0x20 == h.highVersion
            && b[9] / 0x20 == h.lowRelease && b[9] % 0x20 == h.lowVersion
  {
    var a1, a2, a3, a4 := Octets(h.fileLength, 4), Octets(h.headerLength, 4),
                          Octets(PackOctet(h.highRelease, h.highVersion), 1), Octets(PackOctet(h.lowRelease, h.lowVersion), 1);
    var b := a1 + a2 + a3 + a4;
    assert b[0..4] == a1 && b[4..8] == a2 && b[8] == a3[0] && b[9] == a4[0];
    Word4RoundTrip(h.fileLength);
    Word4RoundTrip(h.headerLength);
    UnpackedOctet(h.highRelease, h.highVersion);
    UnpackedOctet(h.lowRelease, h.lowVersion);
  }

  lemma TimesRead(h: FileHeader)
    requires HeaderInWidth(h)
    ensures var b := Times(h); UnpackTime(Word4(b[0..4])) == h.openedAt && UnpackTime(Word4(b[4..8])) == h.appendedAt
  {
    UnpackPackTime(h.openedAt);
    UnpackPackTime(h.appendedAt);
    Word4RoundTrip(PackTime(h.openedAt));
    Word4RoundTrip(PackTime(h.appendedAt));
    assert Times(h)[0..4] == Octets(PackTime(h.openedAt), 4);
    assert Times(h)[4..8] == Octets(PackTime(h.appendedAt), 4);
  }

  lemma CountsRead(h: FileHeader)
    ensures var b := Counts(h); Word4(b[0..4]) == h.numberOfCdrs && Word4(b[4..8]) == h.sequenceNumber
  {
    Word4RoundTrip(h.numberOfCdrs);
    Word4RoundTrip(h.sequenceNumber);
    assert Counts(h)[0..4] == Octets(h.numberOfCdrs, 4);
    assert Counts(h)[4..8] == Octets(h.sequenceNumber, 4);
  }

  lemma OriginRead(h: FileHeader)
    ensures var b := Origin(h);
            b[0] == h.closureReason && b[1..21] == h.nodeAddress && b[21] == h.lostCdrs && Word2(b[22..24]) == h.filterLength
  {
    Word2RoundTrip(h.filterLength);
    var b := Origin(h);
    assert b[1..21] == h.nodeAddress;
    assert b[22..24] == Octets(h.filterLength, 2);
  }

  /** Slices of the fixed part lie inside its four blocks. */
  lemma FixedBlocks(a: seq<byte>, b: seq<byte>, c: seq<byte>, e: seq<byte>, rest: seq<byte>)
    requires |a| == 10 && |b| == 8 && |c| == 8 && |e| == 24
    ensures var d := a + b + c + e + rest;
            && d[..50] == a + b + c + e
            && d[0..4] == a[0..4] && d[4..8] == a[4..8] && d[8] == a[8] && d[9] == a[9]
            && d[10..14] == b[0..4] && d[14..18] == b[4..8]
            && d[18..22] == c[0..4] && d[22..26] == c[4..8]
            && d[26] == e[0] && d[27..47] == e[1..21] && d[47] == e[21] && d[48..50] == e[22..24]
  {
  }

  lemma FixedRead(h: FileHeader, rest: seq<byte>)
    requires HeaderInWidth(h)
    ensures DecodeFixed(FixedPart(h) + rest) == FixedOnly(h)
  {
    FixedBlocks(Identifiers(h), Times(h), Counts(h), Origin(h), rest);
    IdentifiersRead(h);
    TimesRead(h);
    CountsRead(h);
    OriginRead(h);
  }

  lemma FixedWritten(d: seq<byte>)
    requires |d| >= 50
    ensures FixedPart(DecodeFixed(d)) == d[..50]
  {
    IdentifiersWritten(d);
    TimesWritten(d);
    CountsWritten(d);
    OriginWritten(d);
    FourSlices(d, 10, 18, 26, 50);
  }

  lemma FourSlices(d: seq<byte>, a: nat, b: nat, c: nat, e: nat)
    requires a <= b <= c <= e <= |d|
    ensures d[0..a] + d[a..b] + d[b..c] + d[c..e] == d[..e]
  {
  }

  lemma IdentifiersWritten(d: seq<byte>)
    requires |d| >= 50
    ensures Identifiers(DecodeFixed(d)) == d[0..10]
  {
    OctetsOfWord4(d[0..4]);
    OctetsOfWord4(d[4..8]);
    PackedOctet(d[8]);
    PackedOctet(d[9]);
    assert d[8..9] == [d[8]] && d[9..10] == [d[9]];
    FourSlices(d, 4, 8, 9, 10);
  }

  lemma CountsWritten(d: seq<byte>)
    requires |d| >= 50
    ensures Counts(DecodeFixed(d)) == d[18..26]
  {
    OctetsOfWord4(d[18..22]);
    OctetsOfWord4(d[22..26]);
    assert d[18..22] + d[22..26] == d[18..26];
  }

  lemma OriginWritten(d: seq<byte>)
    requires |d| >= 50
    ensures Origin(DecodeFixed(d)) == d[26..50]
  {
    OctetsOfWord2(d[48..50]);
    assert [d[26]] + d[27..47] + [d[47]] + d[48..50] == d[26..50];
  }

  lemma TimesWritten(d: seq<byte>)
    requires |d| >= 50
    ensures Times(DecodeFixed(d)) == d[10..18]
    ensures TimeInWidth(DecodeFixed(d).openedAt) && TimeInWidth(DecodeFixed(d).appendedAt)
  {
    OctetsOfWord4(d[10..14]);
    OctetsOfWord4(d[14..18]);
    PackUnpackTime(Word4(d[10..14]));
    PackUnpackTime(Word4(d[14..18]));
    assert d[10..14] + d[14..18] == d[10..18];
  }

  // ---------------------------------------------------------------- the header

  /** Where the extension octets begin. */
  function ExtensionsAt(h: FileHeader): nat { 52 + |h.filter| + |h.privateExtension| }

  lemma VariableBlocks(fixed: seq<byte>, filter: seq<byte>, len: seq<byte>, priv: seq<byte>, rest: seq<byte>)
    requires |fixed| == 50 && |len| == 2
    ensures var d := fixed + filter + len + priv + rest;
            var xy := 50 + |filter|;
            && d[50..xy] == filter && d[xy..xy + 2] == len && d[xy + 2..xy + 2 + |priv|] == priv
            && d[xy + 2 + |priv|..] == rest
  {
  }

  /** The low extension the decoder finds: the octet one after the place of the high extension, in
      16-bit arithmetic. */
  function LowSeen(d: seq<byte>, h: FileHeader): Result<byte> {
    if h.lowRelease == 7 then At(d, U16(ExtensionsAt(h) + 1)) else Ok(0)
  }

  /** What reading an encoded header gives: the header itself, but with the low extension that is found. */
  lemma HeaderRead(h: FileHeader, rest: seq<byte>)
    requires HeaderInWidth(h) && ExtensionsAt(h) <= 0xFFFF
    ensures var d := FileHeaderOctets(h) + rest;
            var low := LowSeen(d, h);
            DecodeHeader(d) == if low.Fail? then Fail(Panic) else Ok((h.(lowExtension := low.value), |FileHeaderOctets(h)|))
  {
    hide DecodeFixed, DecodeVariable, FixedOnly;
    var d := FileHeaderOctets(h) + rest;
    FixedOfHeader(h, rest);
    VariableOfHeader(h, rest);
    assert DecodeHeader(d) == DecodeVariable(d, FixedOnly(h));
    assert |FileHeaderOctets(h)| == ExtensionsAt(h) + |Extensions(h)|;
  }

  lemma FixedOfHeader(h: FileHeader, rest: seq<byte>)
    requires HeaderInWidth(h)
    ensures DecodeFixed(FileHeaderOctets(h) + rest) == FixedOnly(h)
  {
    hide FixedPart, DecodeFixed, FixedOnly, Octets;
    var behind := h.filter + Octets(h.privateLength, 2) + h.privateExtension + Extensions(h) + rest;
    assert FileHeaderOctets(h) + rest == FixedPart(h) + behind;
    FixedRead(h, behind);
  }

  lemma VariableOfHeader(h: FileHeader, rest: seq<byte>)
    requires HeaderInWidth(h) && ExtensionsAt(h) <= 0xFFFF
    ensures var d := FileHeaderOctets(h) + rest;
            var low := LowSeen(d, h);
            DecodeVariable(d, FixedOnly(h)) ==
            if low.Fail? then Fail(Panic) else Ok((h.(lowExtension := low.value), ExtensionsAt(h) + |Extensions(h)|))
  {
    hide FixedPart, Octets, DecodeVariable, BigEndian;
    var d := FileHeaderOctets(h) + rest;
    var lp := Octets(h.privateLength, 2);
    assert d == FixedPart(h) + h.filter + lp + h.privateExtension + (Extensions(h) + rest);
    VariableBlocks(FixedPart(h), h.filter, lp, h.privateExtension, Extensions(h) + rest);
    Word2RoundTrip(h.privateLength);
    HighExtensionAt(d, h, rest);
    HeaderFromBlocks(d, h);
  }

  lemma HighExtensionAt(d: seq<byte>, h: FileHeader, rest: seq<byte>)
    requires h.highRelease == 7 && ExtensionsAt(h) <= |d| ==> d[ExtensionsAt(h)..] == Extensions(h) + rest
    ensures h.highRelease == 7 && ExtensionsAt(h) < |d| ==> d[ExtensionsAt(h)] == h.highExtension
  {
    if h.highRelease == 7 && ExtensionsAt(h) < |d| {
      assert d[ExtensionsAt(h)] == d[ExtensionsAt(h)..][0];
    }
  }

  lemma HeaderFromBlocks(d: seq<byte>, h: FileHeader)
    requires h.filterLength == |h.filter| && h.privateLength == |h.privateExtension|
    requires h.highRelease != 7 ==> h.highExtension == 0
    requires ExtensionsAt(h) <= 0xFFFF && ExtensionsAt(h) + |Extensions(h)| <= |d|
    requires var xy := 50 + |h.filter|;
             d[50..xy] == h.filter && Word2(d[xy..xy + 2]) == h.privateLength && d[xy + 2..ExtensionsAt(h)] == h.privateExtension
    requires h.highRelease == 7 ==> d[ExtensionsAt(h)] == h.highExtension
    ensures var low := LowSeen(d, h);
            DecodeVariable(d, FixedOnly(h)) ==
            if low.Fail? then Fail(Panic) else Ok((h.(lowExtension := low.value), ExtensionsAt(h) + |Extensions(h)|))
  {
    var xy := 50 + |h.filter|;
    assert U16(50 + h.filterLength) == xy && U16(xy + 2) == xy + 2;
    assert U16(xy + 2 + h.privateLength) == ExtensionsAt(h);
  }

  /** Whether the low extension is where the decoder looks for it. */
  predicate LowExtensionFound(h: FileHeader, cs: seq<Cdr>) {
    h.lowRelease == 7 ==>
      if ExtensionsAt(h) == 0xFFFF then h.lowExtension == h.fileLength / 0x100_0000
      else h.highRelease == 7 || (cs != [] && h.lowExtension == cs[0].hdr.cdrLength / 0x100)
  }

  lemma HeaderWritten(d: seq<byte>)
    requires DecodeHeader(d).Ok?
    ensures var h := DecodeHeader(d).value.0;
            && HeaderInWidth(h) && ExtensionsAt(h) <= 0xFFFF && ExtensionsAt(h) <= |d|
            && DecodeHeader(d).value.1 == ExtensionsAt(h) + |Extensions(h)|
            && FixedPart(h) + h.filter + Octets(h.privateLength, 2) + h.privateExtension == d[..ExtensionsAt(h)]
            && (h.highRelease == 7 ==> At(d, ExtensionsAt(h)) == Ok(h.highExtension))
            && (h.lowRelease == 7 ==> At(d, U16(ExtensionsAt(h) + 1)) == Ok(h.lowExtension))
  {
    hide DecodeFixed, DecodeVariable, FixedPart, Octets;
    var h0 := DecodeFixed(d);
    FixedWritten(d);
    FixedInWidth(d);
    VariableWritten(d, h0);
    var h := DecodeHeader(d).value.0;
    CompleteKeepsFixed(h0, h);
  }

  lemma FixedInWidth(d: seq<byte>)
    requires |d| >= 50
    ensures HeaderInWidth(DecodeFixed(d).(filterLength := 0))
  {
    TimesWritten(d);
  }

  lemma CompleteKeepsFixed(h0: FileHeader, h: FileHeader)
    requires h == Complete(h0, h.filter, h.privateLength, h.privateExtension, h.highExtension, h.lowExtension)
    ensures FixedPart(h) == FixedPart(h0)
  {
    hide Octets, PackTime, PackOctet;
  }

  lemma NoWrap16(x: nat, y: nat)
    requires x <= 0xFFFF && y <= 0xFFFF
    ensures U16(x + y) >= x ==> U16(x + y) == x + y
  {
  }

  lemma VariableWritten(d: seq<byte>, h0: FileHeader)
    requires |d| >= 50 && DecodeVariable(d, h0).Ok?
    ensures var h := DecodeVariable(d, h0).value.0;
            && h == Complete(h0, h.filter, h.privateLength, h.privateExtension, h.highExtension, h.lowExtension)
            && h.filterLength == |h.filter| && h.privateLength == |h.privateExtension|
            && ExtensionsAt(h) <= 0xFFFF && ExtensionsAt(h) <= |d|
            && DecodeVariable(d, h0).value.1 == ExtensionsAt(h) + |Extensions(h)|
            && d[..50] + h.filter + Octets(h.privateLength, 2) + h.privateExtension == d[..ExtensionsAt(h)]
            && (h.highRelease == 7 ==> At(d, ExtensionsAt(h)) == Ok(h.highExtension))
            && (h.lowRelease == 7 ==> At(d, U16(ExtensionsAt(h) + 1)) == Ok(h.lowExtension))
            && (h.highRelease != 7 ==> h.highExtension == 0) && (h.lowRelease != 7 ==> h.lowExtension == 0)
  {
    hide Octets, BigEndian, U16;
    var h := DecodeVariable(d, h0).value.0;
    var xy := U16(50 + h0.filterLength);
    NoWrap16(50, h0.filterLength);
    NoWrap16(xy, 2);
    NoWrap16(xy + 2, h.privateLength);
    OctetsOfWord2(d[xy..xy + 2]);
    assert d[..50] + d[50..xy] + d[xy..xy + 2] + d[xy + 2..ExtensionsAt(h)] == d[..ExtensionsAt(h)];
  }

  // ---------------------------------------------------------------- one CDR

  lemma CdrHeaderRead(d: seq<byte>, tail: u32, h: CdrHeader, rest: seq<byte>)
    requires h.release < 8 && h.version < 0x20 && h.format < 8 && h.tsNumber < 0x20
    requires h.release != 7 ==> h.releaseExtension == 0
    requires |d| < 0x1_0000_0000 && tail <= |d| && d[tail..] == CdrHeaderOctets(h) + rest
    ensures DecodeCdrHeader(d, tail) == Ok(h)
  {
    CdrHeaderBlocks(h, rest);
    hide Octets, BigEndian, PackOctet, CdrHeaderOctets, U32;
    assert |d[tail..]| >= if h.release == 7 then 5 else 4;
    U32Same(tail + 2);
    U32Same(tail + 3);
    U32Same(tail + if h.release == 7 then 4 else 0);
    assert d[tail..tail + 2] == d[tail..][0..2] == Octets(h.cdrLength, 2);
    assert d[tail + 2] == d[tail..][2] && d[tail + 3] == d[tail..][3];
    if h.release == 7 {
      assert d[tail + 4] == d[tail..][4];
    }
  }

  lemma CdrHeaderBlocks(h: CdrHeader, rest: seq<byte>)
    requires h.release < 8 && h.version < 0x20 && h.format < 8 && h.tsNumber < 0x20
    ensures var s := CdrHeaderOctets(h) + rest;
            && s[0..2] == Octets(h.cdrLength, 2) && Word2(s[0..2]) == h.cdrLength
            && s[2] / 0x20 == h.release && s[2] % 0x20 == h.version && s[3] / 0x20 == h.format && s[3] % 0x20 == h.tsNumber
            && (h.release == 7 ==> s[4] == h.releaseExtension)
  {
    Word2RoundTrip(h.cdrLength);
    UnpackedOctet(h.release, h.version);
    UnpackedOctet(h.format, h.tsNumber);
    hide Octets, BigEndian, PackOctet;
    assert (CdrHeaderOctets(h) + rest)[0..2] == Octets(h.cdrLength, 2);
  }

  lemma CdrRead(d: seq<byte>, tail: u32, c: Cdr, rest: seq<byte>)
    requires CdrInWidth(c) && |d| < 0x1_0000_0000 && tail <= |d| && d[tail..] == CdrOctets(c) + rest
    ensures tail + |CdrOctets(c)| <= |d|
    ensures DecodeCdr(d, tail) == Ok((c, tail + |CdrOctets(c)|))
    ensures d[tail + |CdrOctets(c)|..] == rest
  {
    hide DecodeCdrHeader, CdrHeaderOctets, U32;
    var n := CdrHeaderSize(c.hdr);
    assert CdrOctets(c) + rest == CdrHeaderOctets(c.hdr) + (c.bytes + rest);
    CdrHeaderRead(d, tail, c.hdr, c.bytes + rest);
    assert |d[tail..]| == n + |c.bytes| + |rest|;
    U32Same(tail + n);
    U32Same(tail + n + |c.bytes|);
    assert d[tail + n..tail + n + |c.bytes|] == d[tail..][n..n + |c.bytes|] == c.bytes;
    assert d[tail + n + |c.bytes|..] == d[tail..][n + |c.bytes|..];
  }

  lemma {:induction false} CdrsRead(d: seq<byte>, tail: u32, cs: seq<Cdr>)
    requires forall k :: 0 <= k < |cs| ==> CdrInWidth(cs[k])
    requires |d| < 0x1_0000_0000 && tail <= |d| && d[tail..] == Concat(CdrParts(cs))
    ensures DecodeCdrs(d, tail, |cs|) == Ok((cs, |d|))
    decreases |cs|
  {
    hide DecodeCdr, CdrOctets;
    if cs == [] {
      assert |d[tail..]| == 0;
    } else {
      ConcatSlice(CdrParts(cs), 0);
      assert Concat(CdrParts(cs))[0..] == Concat(CdrParts(cs)) && CdrParts(cs)[..0] == [];
      assert CdrParts(cs)[1..] == CdrParts(cs[1..]);
      CdrRead(d, tail, cs[0], Concat(CdrParts(cs[1..])));
      CdrsRead(d, tail + |CdrOctets(cs[0])|, cs[1..]);
      assert [cs[0]] + cs[1..] == cs;
    }
  }

  lemma CdrHeaderWritten(d: seq<byte>, tail: u32)
    requires |d| < 0xFFFF_FFFF && DecodeCdrHeader(d, tail).Ok?
    ensures var h := DecodeCdrHeader(d, tail).value;
            tail + CdrHeaderSize(h) <= |d| && d[tail..tail + CdrHeaderSize(h)] == CdrHeaderOctets(h)
  {
    hide Octets, BigEndian, PackOctet;
    OctetsOfWord2(d[tail..tail + 2]);
    PackedOctet(d[tail + 2]);
    PackedOctet(d[tail + 3]);
    var n := tail + CdrHeaderSize(DecodeCdrHeader(d, tail).value);
    assert d[tail..n] == d[tail..tail + 2] + [d[tail + 2]] + [d[tail + 3]] + if n == tail + 5 then [d[tail + 4]] else [];
  }

  /** What is read as a CDR is written back as the octets it was read from. */
  lemma CdrWritten(d: seq<byte>, tail: u32)
    requires |d| < 0xFFFF_FFFF && DecodeCdr(d, tail).Ok?
    ensures var r := DecodeCdr(d, tail).value;
            tail <= r.1 <= |d| && d[tail..r.1] == CdrOctets(r.0)
  {
    hide DecodeCdrHeader, CdrHeaderOctets;
    var r := DecodeCdr(d, tail).value;
    CdrHeaderWritten(d, tail);
    var n := tail + CdrHeaderSize(r.0.hdr);
    assert d[tail..r.1] == d[tail..n] + d[n..r.1];
  }

  lemma CdrWidths(d: seq<byte>, tail: u32)
    requires DecodeCdr(d, tail).Ok?
    ensures CdrInWidth(DecodeCdr(d, tail).value.0)
  {
    hide BigEndian;
  }

  lemma {:induction false} CdrsWidths(d: seq<byte>, tail: u32, count: nat)
    requires DecodeCdrs(d, tail, count).Ok?
    ensures forall k :: 0 <= k < count ==> CdrInWidth(DecodeCdrs(d, tail, count).value.0[k])
    decreases count
  {
    hide DecodeCdr;
    if count > 0 {
      var first := DecodeCdr(d, tail).value;
      CdrWidths(d, tail);
      CdrsWidths(d, first.1, count - 1);
    }
  }

  lemma {:induction false} CdrsWritten(d: seq<byte>, tail: u32, count: nat)
    requires |d| < 0xFFFF_FFFF && tail <= |d| && DecodeCdrs(d, tail, count).Ok?
    ensures var r := DecodeCdrs(d, tail, count).value;
            tail <= r.1 <= |d| && d[tail..r.1] == Concat(CdrParts(r.0))
    decreases count
  {
    hide DecodeCdr, CdrOctets;
    if count > 0 {
      var first := DecodeCdr(d, tail).value;
      CdrWritten(d, tail);
      CdrsWritten(d, first.1, count - 1);
      var rest := DecodeCdrs(d, first.1, count - 1).value;
      assert CdrParts([first.0] + rest.0) == [CdrOctets(first.0)] + CdrParts(rest.0);
      ConcatAppend([CdrOctets(first.0)], CdrParts(rest.0));
      ConcatOne(CdrOctets(first.0));
      assert d[tail..rest.1] == d[tail..first.1] + d[first.1..rest.1];
    }
  }

  // ---------------------------------------------------------------- whole files

  /** Whatever is decoded is canonical and within the decoder's 16-bit positions. */
  lemma DecodedIsCanonical(d: seq<byte>)
    requires DecodeFile(d).Ok?
    ensures var r := DecodeFile(d).value; Canonical(r.hdr, r.cdrs) && ExtensionsAt(r.hdr) <= 0xFFFF
  {
    hide DecodeHeader, DecodeCdrs, FixedPart, Octets;
    HeaderWritten(d);
    CdrsWidths(d, DecodeHeader(d).value.1, DecodeHeader(d).value.0.numberOfCdrs);
  }

  /** Reading an encoded canonical file gives it back with the low extension the decoder finds. */
  lemma FileRead(h: FileHeader, cs: seq<Cdr>)
    requires Canonical(h, cs) && ExtensionsAt(h) <= 0xFFFF && |FileOctets(h, cs)| < 0x1_0000_0000
    ensures var d := FileOctets(h, cs);
            var low := LowSeen(d, h);
            DecodeFile(d) == if low.Fail? then Fail(Panic) else Ok(Decoded(h.(lowExtension := low.value), cs, |d|))
  {
    hide DecodeHeader, DecodeCdrs, FileHeaderOctets, LowSeen;
    var d := FileOctets(h, cs);
    HeaderRead(h, Concat(CdrParts(cs)));
    assert d[|FileHeaderOctets(h)|..] == Concat(CdrParts(cs));
    CdrsRead(d, |FileHeaderOctets(h)|, cs);
  }

  /** Where the low extension is looked for, and what is there. */
  lemma LowSeenIs(h: FileHeader, cs: seq<Cdr>)
    requires Canonical(h, cs) && ExtensionsAt(h) <= 0xFFFF
    ensures LowSeen(FileOctets(h, cs), h) == Ok(h.lowExtension) <==> LowExtensionFound(h, cs)
  {
    hide FileOctets, CdrParts, Concat, BigEndian;
    var d, at := FileOctets(h, cs), ExtensionsAt(h);
    if h.lowRelease == 7 {
      if at == 0xFFFF {
        FirstOctetOfFile(h, cs);
      } else {
        BehindExtensions(h, cs);
        FirstOctetOfCdrs(cs);
      }
    }
  }

  lemma FirstOctetOfFile(h: FileHeader, cs: seq<Cdr>)
    ensures FileOctets(h, cs) != [] && FileOctets(h, cs)[0] == h.fileLength / 0x100_0000
  {
    FirstOctet4(h.fileLength);
    hide Octets;
    assert FileOctets(h, cs)[0] == FixedPart(h)[0] == Identifiers(h)[0] == Octets(h.fileLength, 4)[0];
  }

  lemma FirstOctet4(x: u32)
    ensures Octets(x, 4)[0] == x / 0x100_0000
  {
    assert Octets(x, 4)[0] == Octets(x / 256, 3)[0] == Octets(x / 256 / 256, 2)[0];
    FirstOctet2(x / 0x1_0000);
  }

  lemma FirstOctet2(x: u16)
    ensures Octets(x, 2)[0] == x / 0x100
  {
    assert Octets(x, 2)[0] == Octets(x / 256, 1)[0];
    OneOctet(x / 256);
  }

  /** The octet the low extension is read from, when it is not wrapped around. */
  lemma BehindExtensions(h: FileHeader, cs: seq<Cdr>)
    requires h.lowRelease == 7
    ensures var d, at := FileOctets(h, cs), ExtensionsAt(h);
            At(d, at + 1) == if h.highRelease == 7 then Ok(h.lowExtension) else At(Concat(CdrParts(cs)), 0)
  {
    hide FixedPart, Octets, CdrParts, Concat;
    var d, at := FileOctets(h, cs), ExtensionsAt(h);
    var before := FixedPart(h) + h.filter + Octets(h.privateLength, 2) + h.privateExtension;
    assert |before| == at;
    assert d == before + (Extensions(h) + Concat(CdrParts(cs)));
    assert |d| > at + 1 ==> d[at + 1] == (Extensions(h) + Concat(CdrParts(cs)))[1];
  }

  lemma FirstOctetOfCdrs(cs: seq<Cdr>)
    ensures At(Concat(CdrParts(cs)), 0) == if cs == [] then Fail(Panic) else Ok(cs[0].hdr.cdrLength / 0x100)
  {
    if cs == [] {
      return;
    }
    FirstOctet2(cs[0].hdr.cdrLength);
    hide Octets, PackOctet;
    var parts := CdrParts(cs);
    ConcatSlice(parts, 0);
    assert parts[..0] == [] && Concat(parts)[0..] == Concat(parts);
    assert Concat(parts)[0] == CdrOctets(cs[0])[0] == CdrHeaderOctets(cs[0].hdr)[0] == Octets(cs[0].hdr.cdrLength, 2)[0];
  }

  /** The files that survive writing and reading: exactly the canonical ones whose variable parts fit the
      decoder's 16-bit positions and whose low release extension is where the decoder looks for it. */
  lemma FileRoundTrip(h: FileHeader, cs: seq<Cdr>)
    requires |FileOctets(h, cs)| < 0x1_0000_0000
    ensures var r := DecodeFile(FileOctets(h, cs));
            (r.Ok? && r.value.hdr == h && r.value.cdrs == cs) <==>
            Canonical(h, cs) && ExtensionsAt(h) <= 0xFFFF && LowExtensionFound(h, cs)
  {
    hide DecodeFile, FileOctets, LowSeen, LowExtensionFound;
    var d := FileOctets(h, cs);
    if DecodeFile(d).Ok? && DecodeFile(d).value.hdr == h && DecodeFile(d).value.cdrs == cs {
      DecodedIsCanonical(d);
    }
    if Canonical(h, cs) && ExtensionsAt(h) <= 0xFFFF {
      FileRead(h, cs);
      LowSeenIs(h, cs);
    }
  }

  /** Encoding what was decoded gives back the octets that were consumed, exactly when the low release
      extension was read from its own place. */
  lemma Reencoded(d: seq<byte>)
    requires |d| < 0xFFFF_FFFF && DecodeFile(d).Ok? && DecodeFile(d).value.end <= |d|
    ensures var r := DecodeFile(d).value;
            FileOctets(r.hdr, r.cdrs) == d[..r.end] <==> LowExtensionInPlace(d, r.hdr)
  {
    hide DecodeHeader, DecodeCdrs, FixedPart, Octets, CdrParts, LowExtensionInPlace, Extensions, FileOctets, Concat;
    HeaderWritten(d);
    var h, tail := DecodeHeader(d).value.0, DecodeHeader(d).value.1;
    CdrsStart(d, tail, h.numberOfCdrs);
    ExtensionsWritten(d, h);
    CdrsWritten(d, tail, h.numberOfCdrs);
    var r := DecodeCdrs(d, tail, h.numberOfCdrs).value;
    var at := ExtensionsAt(h);
    assert d[..r.1] == d[..at] + d[at..tail] + d[tail..r.1];
    FileFrom(h, r.0, d[..at], d[tail..r.1]);
    SameAround(d[..at], Extensions(h), d[at..tail], d[tail..r.1]);
  }

  lemma FileFrom(h: FileHeader, cs: seq<Cdr>, before: seq<byte>, body: seq<byte>)
    requires FixedPart(h) + h.filter + Octets(h.privateLength, 2) + h.privateExtension == before && Concat(CdrParts(cs)) == body
    ensures FileOctets(h, cs) == before + Extensions(h) + body
  {
    hide FixedPart, Octets, Extensions, Concat, CdrParts;
  }

  lemma CdrsStart(d: seq<byte>, tail: u32, count: nat)
    requires DecodeCdrs(d, tail, count).Ok? && DecodeCdrs(d, tail, count).value.1 <= |d|
    ensures tail <= |d|
  {
    hide BigEndian;
  }

  lemma ExtensionsWritten(d: seq<byte>, h: FileHeader)
    requires ExtensionsAt(h) + |Extensions(h)| <= |d|
    requires h.highRelease == 7 ==> At(d, ExtensionsAt(h)) == Ok(h.highExtension)
    ensures Extensions(h) == d[ExtensionsAt(h)..ExtensionsAt(h) + |Extensions(h)|] <==> LowExtensionInPlace(d, h)
  {
    var at := ExtensionsAt(h);
    if h.highRelease == 7 && h.lowRelease == 7 {
      assert d[at..at + 2] == [d[at], d[at + 1]];
    } else if h.highRelease == 7 || h.lowRelease == 7 {
      assert d[at..at + 1] == [d[at]];
    }
  }

  /** The low extension is the octet behind the private extension and the high extension. */
  predicate LowExtensionInPlace(d: seq<byte>, h: FileHeader) {
    h.lowRelease == 7 ==>
      At(d, ExtensionsAt(h) + if h.highRelease == 7 then 1 else 0) == Ok(h.lowExtension)
  }

  lemma SameAround(a: seq<byte>, b: seq<byte>, b': seq<byte>, c: seq<byte>)
    requires |b| == |b'|
    ensures a + b + c == a + b' + c <==> b == b'
  {
    if a + b + c == a + b' + c {
      assert b == (a + b + c)[|a|..|a| + |b|] == (a + b' + c)[|a|..|a| + |b|] == b';
    }
  }
}
