/** Where every field stands in a CDR file, octet by octet and bit by bit, and what a dumped file begins with. */
module CdrFileLayout {
  import opened Bytes
  import opened Words
  import opened CdrFileTypes
  import opened CdrFileCodec
  import opened CdrFileLaws
  import opened CdrDump

  /** Two and four octets as a number, the most significant first. */
  function Number2(d: seq<byte>, at: nat): nat
    requires at + 2 <= |d|
  {
    d[at] as int * 0x100 + d[at + 1]
  }

  function Number4(d: seq<byte>, at: nat): nat
    requires at + 4 <= |d|
  {
    d[at] as int * 0x100_0000 + d[at + 1] as int * 0x1_0000 + d[at + 2] as int * 0x100 + d[at + 3]
  }

  lemma OctetsOfNumber(x: int)
    ensures 0 <= x < 0x1_0000 ==> Number2(Octets(x, 2), 0) == x
    ensures 0 <= x < 0x1_0000_0000 ==> Number4(Octets(x, 4), 0) == x
    ensures Octets(x, 1) == [x % 256]
  {
    hide Octets, Number2, Number4;
    LowOctet(x);
    if 0 <= x < 0x1_0000 {
      TwoOctets(x);
      TwoDigits(x);
    }
    if 0 <= x < 0x1_0000_0000 {
      FourOctets(x);
      FourDigits(x);
    }
  }

  lemma LowOctet(x: int)
    ensures Octets(x, 1) == [x % 256]
  {
    assert Octets(x / 256, 0) == [];
  }

  lemma TwoDigits(x: u16)
    ensures Number2([x / 256, x % 256], 0) == x
  {
  }

  lemma FourOctets(x: int)
    ensures Octets(x, 4) == [x / 256 / 256 / 256 % 256, x / 256 / 256 % 256, x / 256 % 256, x % 256]
  {
    var a, b, c := x / 256, x / 256 / 256, x / 256 / 256 / 256;
    assert Octets(c, 1) == Octets(c / 256, 0) + [c % 256];
    assert Octets(b, 2) == Octets(c, 1) + [b % 256];
    assert Octets(a, 3) == Octets(b, 2) + [a % 256];
  }

  lemma FourDigits(x: int)
    requires 0 <= x < 0x1_0000_0000
    ensures var a, b, c, d := x / 256 / 256 / 256 % 256, x / 256 / 256 % 256, x / 256 % 256, x % 256;
            Number4([a, b, c, d], 0) == a * 0x100_0000 + b * 0x1_0000 + c * 0x100 + d == x
  {
    var p, q, r := x / 256, x / 256 / 256, x / 256 / 256 / 256;
    assert x == 256 * p + x % 256 && p == 256 * q + p % 256 && q == 256 * r + q % 256 && 0 <= r < 256;
  }

  /** The word of a time stamp: four bits of month, five of day and of hour, six of minute, one of sign, five and six of
      deviation. */
  predicate SpellsTime(word: nat, t: TimeStamp) {
    word == t.month as int * 0x1000_0000 + t.date as int * 0x80_0000 + t.hour as int * 0x4_0000 + t.minute as int * 0x1000
            + t.sign as int * 0x800 + t.hourDev as int * 0x40 + t.minuteDev
  }

  lemma TimeSpelled(t: TimeStamp)
    requires TimeInWidth(t)
    ensures PackTime(t) < 0x1_0000_0000 && SpellsTime(PackTime(t), t)
  {
    PackTimeFields(t);
    UnpackPackTime(t);
    hide PackTime, UnpackTime;
  }

  /** The first 50 octets. */
  predicate FixedLayout(d: seq<byte>, h: FileHeader)
    requires |d| >= 50
  {
    && Number4(d, 0) == h.fileLength && Number4(d, 4) == h.headerLength
    && d[8] == h.highRelease as int * 0x20 + h.highVersion && d[9] == h.lowRelease as int * 0x20 + h.lowVersion
    && SpellsTime(Number4(d, 10), h.openedAt) && SpellsTime(Number4(d, 14), h.appendedAt)
    && Number4(d, 18) == h.numberOfCdrs && Number4(d, 22) == h.sequenceNumber
    && d[26] == h.closureReason && d[27..47] == h.nodeAddress && d[47] == h.lostCdrs && Number2(d, 48) == h.filterLength
  }

  lemma NumberAt(d: seq<byte>, at: nat, part: seq<byte>)
    requires at + |part| <= |d| && d[at..at + |part|] == part
    ensures |part| == 2 ==> Number2(d, at) == Number2(part, 0)
    ensures |part| == 4 ==> Number4(d, at) == Number4(part, 0)
    ensures |part| == 1 ==> d[at] == part[0]
  {
    forall k | 0 <= k < |part| ensures d[at + k] == part[k] { assert d[at..at + |part|][k] == part[k]; }
  }

  lemma IdentifiersAt(h: FileHeader)
    requires HeaderInWidth(h)
    ensures var d := Identifiers(h);
            && Number4(d, 0) == h.fileLength && Number4(d, 4) == h.headerLength
            && d[8] == h.highRelease as int * 0x20 + h.highVersion && d[9] == h.lowRelease as int * 0x20 + h.lowVersion
  {
    OctetsOfNumber(h.fileLength);
    OctetsOfNumber(h.headerLength);
    PackOctetFields(h.highRelease, h.highVersion);
    PackOctetFields(h.lowRelease, h.lowVersion);
    OctetsOfNumber(PackOctet(h.highRelease, h.highVersion));
    OctetsOfNumber(PackOctet(h.lowRelease, h.lowVersion));
    hide PackOctet, Octets, TimeInWidth;
    var d := Identifiers(h);
    NumberAt(d, 0, Octets(h.fileLength, 4));
    NumberAt(d, 4, Octets(h.headerLength, 4));
  }

  lemma TimesAt(h: FileHeader)
    requires HeaderInWidth(h)
    ensures var d := Times(h); SpellsTime(Number4(d, 0), h.openedAt) && SpellsTime(Number4(d, 4), h.appendedAt)
  {
    hide PackTime, Octets, SpellsTime, TimeInWidth;
    TimeSpelled(h.openedAt);
    TimeSpelled(h.appendedAt);
    OctetsOfNumber(PackTime(h.openedAt));
    OctetsOfNumber(PackTime(h.appendedAt));
    NumberAt(Times(h), 0, Octets(PackTime(h.openedAt), 4));
    NumberAt(Times(h), 4, Octets(PackTime(h.appendedAt), 4));
  }

  lemma CountsAt(h: FileHeader)
    ensures var d := Counts(h); Number4(d, 0) == h.numberOfCdrs && Number4(d, 4) == h.sequenceNumber
  {
    hide Octets;
    OctetsOfNumber(h.numberOfCdrs);
    OctetsOfNumber(h.sequenceNumber);
    NumberAt(Counts(h), 0, Octets(h.numberOfCdrs, 4));
    NumberAt(Counts(h), 4, Octets(h.sequenceNumber, 4));
  }

  lemma OriginAt(h: FileHeader)
    ensures var d := Origin(h);
            d[0] == h.closureReason && d[1..21] == h.nodeAddress && d[21] == h.lostCdrs && Number2(d, 22) == h.filterLength
  {
    hide Octets;
    OctetsOfNumber(h.filterLength);
    NumberAt(Origin(h), 22, Octets(h.filterLength, 2));
  }

  /** A block of octets at an offset: its numbers stand there. */
  lemma BlockAt(d: seq<byte>, at: nat, block: seq<byte>, k: nat)
    requires at + |block| <= |d| && d[at..at + |block|] == block
    ensures k < |block| ==> d[at + k] == block[k]
    ensures k + 4 <= |block| ==> Number4(d, at + k) == Number4(block, k)
    ensures k + 2 <= |block| ==> Number2(d, at + k) == Number2(block, k)
  {
    forall j | 0 <= j < |block| ensures d[at + j] == block[j] { assert d[at..at + |block|][j] == block[j]; }
  }

  lemma FixedPartLayout(h: FileHeader)
    requires HeaderInWidth(h)
    ensures FixedLayout(FixedPart(h), h)
  {
    hide Identifiers, Times, Counts, Origin, SpellsTime, TimeInWidth, Number4, Number2;
    var d := FixedPart(h);
    assert d[0..10] == Identifiers(h) && d[10..18] == Times(h) && d[18..26] == Counts(h) && d[26..50] == Origin(h);
    IdentifiersAt(h);
    TimesAt(h);
    CountsAt(h);
    OriginAt(h);
    BlockAt(d, 0, Identifiers(h), 0);
    BlockAt(d, 0, Identifiers(h), 4);
    BlockAt(d, 0, Identifiers(h), 8);
    BlockAt(d, 0, Identifiers(h), 9);
    BlockAt(d, 10, Times(h), 0);
    BlockAt(d, 10, Times(h), 4);
    BlockAt(d, 18, Counts(h), 0);
    BlockAt(d, 18, Counts(h), 4);
    BlockAt(d, 26, Origin(h), 0);
    BlockAt(d, 26, Origin(h), 21);
    BlockAt(d, 26, Origin(h), 22);
    assert d[27..47] == d[26..50][1..21];
  }

  /** A whole file: the fixed part, the routeing filter, the private extension behind its length, the release extensions
      where there are any, and the CDRs. */
  lemma HeaderLayout(h: FileHeader, cs: seq<Cdr>)
    requires HeaderInWidth(h)
    ensures var d, f, x := FileOctets(h, cs), |h.filter|, 52 + |h.filter| + |h.privateExtension|;
            && |d| >= x && FixedLayout(d, h)
            && d[50..50 + f] == h.filter && Number2(d, 50 + f) == h.privateLength && d[52 + f..x] == h.privateExtension
            && var y := x + if h.highRelease == 7 then 1 else 0;
            && |d| >= y && (h.highRelease == 7 ==> d[x] == h.highExtension)
            && var z := y + if h.lowRelease == 7 then 1 else 0;
            && |d| >= z && (h.lowRelease == 7 ==> d[y] == h.lowExtension)
            && d[z..] == Concat(CdrParts(cs))
  {
    hide FixedPart, Octets, SpellsTime, TimeInWidth, CdrParts, Concat, Number2, Number4, HeaderInWidth, FixedLayout;
    FixedPartLayout(h);
    OctetsOfNumber(h.privateLength);
    var d, f, p := FileOctets(h, cs), |h.filter|, Octets(h.privateLength, 2);
    var high := if h.highRelease == 7 then [h.highExtension] else [];
    var low := if h.lowRelease == 7 then [h.lowExtension] else [];
    assert Extensions(h) == high + low;
    hide Extensions;
    Pieces(FixedPart(h), h.filter, p, h.privateExtension, high, low, Concat(CdrParts(cs)));
    FixedKept(FixedPart(h), d, h);
    NumberAt(d, 50 + f, p);
  }

  lemma Pieces(start: seq<byte>, filter: seq<byte>, length: seq<byte>, priv: seq<byte>, high: seq<byte>, low: seq<byte>, rest: seq<byte>)
    requires |start| == 50 && |length| == 2 && |high| <= 1 && |low| <= 1
    ensures var d := start + filter + length + priv + (high + low) + rest;
            var f, x := |filter|, 52 + |filter| + |priv|;
            && |d| >= x + |high| + |low|
            && d[..50] == start && d[50..50 + f] == filter && d[50 + f..52 + f] == length && d[52 + f..x] == priv
            && (high != [] ==> d[x] == high[0]) && (low != [] ==> d[x + |high|] == low[0])
            && d[x + |high| + |low|..] == rest
  {
  }

  lemma FixedKept(fixedPart: seq<byte>, d: seq<byte>, h: FileHeader)
    requires |fixedPart| == 50 <= |d| && d[..50] == fixedPart && FixedLayout(fixedPart, h)
    ensures FixedLayout(d, h)
  {
    hide SpellsTime;
    assert d[27..47] == d[..50][27..47];
    forall k | 0 <= k < 50 ensures d[k] == fixedPart[k] { assert d[..50][k] == d[k]; }
  }

  /** The header of a CDR: its length, release and version in one octet, format and TS number in another, and the
      release extension where there is one. */
  lemma CdrLayout(c: Cdr)
    requires CdrInWidth(c)
    ensures var release, format := c.hdr.release as int * 0x20 + c.hdr.version, c.hdr.format as int * 0x20 + c.hdr.tsNumber;
            && release < 256 && format < 256
            && CdrOctets(c) == [|c.bytes| / 256, |c.bytes| % 256, release, format]
                               + (if c.hdr.release == 7 then [c.hdr.releaseExtension] else []) + c.bytes
  {
    TwoOctets(c.hdr.cdrLength);
    PackOctetFields(c.hdr.release, c.hdr.version);
    PackOctetFields(c.hdr.format, c.hdr.tsNumber);
    OctetsOfNumber(PackOctet(c.hdr.release, c.hdr.version));
    OctetsOfNumber(PackOctet(c.hdr.format, c.hdr.tsNumber));
    hide Octets, PackOctet;
  }

  lemma TwoOctets(x: u16)
    ensures Octets(x, 2) == [x / 256, x % 256]
  {
    assert Octets(x / 256, 1) == Octets(x / 256 / 256, 0) + [x / 256 % 256];
  }

  // ---------------------------------------------------------------- what follows a file

  lemma SliceAhead(d: seq<byte>, rest: seq<byte>, lo: nat, hi: nat)
    requires Slice(d, lo, hi).Ok?
    ensures Slice(d + rest, lo, hi) == Slice(d, lo, hi)
  {
    assert (d + rest)[lo..hi] == d[lo..hi];
  }

  lemma VariableAhead(d: seq<byte>, rest: seq<byte>, h: FileHeader)
    requires DecodeVariable(d, h).Ok?
    ensures DecodeVariable(d + rest, h) == DecodeVariable(d, h)
  {
    hide Word2, U16, Slice, Complete;
    var xy := U16(50 + h.filterLength);
    SliceAhead(d, rest, xy, U16(xy + 2));
    var n := U16(U16(xy + 2) + Word2(Slice(d, xy, U16(xy + 2)).value));
    SliceAhead(d, rest, 50, xy);
    SliceAhead(d, rest, U16(xy + 2), n);
  }

  lemma FixedAhead(d: seq<byte>, rest: seq<byte>)
    requires |d| >= 50
    ensures DecodeFixed(d + rest) == DecodeFixed(d)
  {
    var e := d + rest;
    assert e[0..4] == d[0..4] && e[4..8] == d[4..8] && e[10..14] == d[10..14] && e[14..18] == d[14..18];
    assert e[18..22] == d[18..22] && e[22..26] == d[22..26] && e[27..47] == d[27..47] && e[48..50] == d[48..50];
    hide Word4, Word2, UnpackTime;
  }

  lemma CdrAhead(d: seq<byte>, rest: seq<byte>, tail: u32)
    requires DecodeCdr(d, tail).Ok?
    ensures DecodeCdr(d + rest, tail) == DecodeCdr(d, tail)
  {
    hide Word2, U32;
    var h := DecodeCdrHeader(d, tail).value;
    var from := U32(tail + CdrHeaderSize(h));
    SliceAhead(d, rest, tail, U32(tail + 2));
    SliceAhead(d, rest, from, U32(from + h.cdrLength));
  }

  lemma {:induction false} CdrsAhead(d: seq<byte>, rest: seq<byte>, tail: u32, count: nat)
    requires DecodeCdrs(d, tail, count).Ok?
    ensures DecodeCdrs(d + rest, tail, count) == DecodeCdrs(d, tail, count)
    decreases count
  {
    hide DecodeCdr;
    if count > 0 {
      CdrAhead(d, rest, tail);
      CdrsAhead(d, rest, DecodeCdr(d, tail).value.1, count - 1);
    }
  }

  /** A file that decodes does so alike with anything behind it: what follows the last CDR announced is not looked at. */
  lemma RestIgnored(d: seq<byte>, rest: seq<byte>)
    requires DecodeFile(d).Ok?
    ensures DecodeFile(d + rest) == DecodeFile(d)
  {
    FixedAhead(d, rest);
    VariableAhead(d, rest, DecodeFixed(d));
    hide DecodeFixed, DecodeVariable, DecodeCdrs;
    assert DecodeHeader(d + rest) == DecodeHeader(d);
    var h := DecodeHeader(d).value;
    hide DecodeHeader;
    CdrsAhead(d, rest, h.1, h.0.numberOfCdrs);
  }

  // ---------------------------------------------------------------- dumped files

  function Zeros(n: nat): (s: seq<byte>)
    ensures |s| == n && forall k :: 0 <= k < n ==> s[k] == 0
  {
    if n == 0 then [] else [0] + Zeros(n - 1)
  }

  /** A dumped file begins with its length, the header length 52, and zeros but for the number of CDRs; each CDR, in order,
      with the low 16 bits of its length, release and version 0 and the basic encoding rules as its format. */
  lemma DumpedOctets(parts: seq<seq<byte>>)
    requires TotalSize(parts) < TWO_32
    ensures var d := DumpFile(parts);
            && |d| == TotalSize(parts)
            && d[..52] == Octets(TotalSize(parts), 4) + [0, 0, 0, 52] + Zeros(10) + Octets(|parts|, 4) + Zeros(30)
            && d[52..] == Concat(CdrParts(Cdrs(parts)))
    ensures forall k :: 0 <= k < |parts| ==>
              CdrParts(Cdrs(parts))[k] == [|parts[k]| / 256 % 256, |parts[k]| % 256, 0, 0x20] + parts[k]
  {
    hide DumpFile, TotalSize, DumpLength, CdrParts, Cdrs, Concat, Octets, CdrOctets;
    LengthAnnounced(parts);
    DumpSize(parts);
    U32Same(|parts|);
    DumpedHeader(TotalSize(parts), |parts|);
    DumpedFile(parts);
    forall k | 0 <= k < |parts|
      ensures CdrParts(Cdrs(parts))[k] == [|parts[k]| / 256 % 256, |parts[k]| % 256, 0, 0x20] + parts[k]
    {
      DumpedCdr(parts[k]);
    }
  }

  lemma DumpedFile(parts: seq<seq<byte>>)
    requires |FileHeaderOctets(DumpHeader(DumpLength(parts), U32(|parts|)))| == 52
    ensures var d, head := DumpFile(parts), FileHeaderOctets(DumpHeader(DumpLength(parts), U32(|parts|)));
            |d| >= 52 && d[..52] == head && d[52..] == Concat(CdrParts(Cdrs(parts)))
  {
    hide FileHeaderOctets, DumpLength, CdrParts, Cdrs, Concat, DumpHeader;
  }

  lemma DumpedHeader(length: u32, count: u32)
    ensures FileHeaderOctets(DumpHeader(length, count)) ==
            Octets(length, 4) + [0, 0, 0, 52] + Zeros(10) + Octets(count, 4) + Zeros(30)
  {
    var h := DumpHeader(length, count);
    ZeroOctets();
    hide Octets, PackOctet, PackTime;
    assert Identifiers(h) == Octets(length, 4) + [0, 0, 0, 52] + [0, 0];
    assert Times(h) == Zeros(8);
    assert Counts(h) == Octets(count, 4) + [0, 0, 0, 0];
    assert Origin(h) == [0] + NO_ADDRESS + [0] + [0, 0];
    assert [0, 0] + Zeros(8) == Zeros(10);
    hide Identifiers, Times, Counts, Origin;
    assert [0, 0, 0, 0] + ([0] + NO_ADDRESS + [0] + [0, 0]) + [0, 0] == Zeros(30);
    assert FileHeaderOctets(h) == Identifiers(h) + Times(h) + Counts(h) + Origin(h) + [0, 0];
  }

  lemma ZeroOctets()
    ensures Octets(52, 4) == [0, 0, 0, 52] && Octets(0, 4) == [0, 0, 0, 0] && Octets(0, 2) == [0, 0]
    ensures PackOctet(0, 0) == 0 && Octets(0, 1) == [0] && PackTime(MIDNIGHT) == 0
  {
    hide Octets, PackOctet, PackTime;
    FourOctets(52);
    FourOctets(0);
    TwoOctets(0);
    OctetsOfNumber(0);
    PackOctetFields(0, 0);
    PackTimeFields(MIDNIGHT);
  }

  lemma DumpedCdr(bytes: seq<byte>)
    ensures CdrOctets(CdrOf(bytes)) == [|bytes| / 256 % 256, |bytes| % 256, 0, 0x20] + bytes
  {
    TwoOctets(U16(|bytes|));
    PackOctetFields(0, 0);
    PackOctetFields(1, 0);
    OctetsOfNumber(0);
    OctetsOfNumber(0x20);
    hide Octets, PackOctet;
    LowOctets(|bytes|);
  }

  lemma LowOctets(n: nat)
    ensures n % 0x1_0000 / 256 == n / 256 % 256 && n % 0x1_0000 % 256 == n % 256
  {
  }
}
