/** The CDR file of TS 32.297 section 6.1: header fields, bit packing and octet layout. */
module CdrFileTypes {
  import opened Bytes
  import opened Bits
  import opened Words

  type ip20 = s: seq<byte> | |s| == 20 witness seq(20, i => 0)

  datatype TimeStamp = TimeStamp(month: byte, date: byte, hour: byte, minute: byte, sign: byte, hourDev: byte, minuteDev: byte)

  datatype FileHeader = FileHeader(
    fileLength: u32, headerLength: u32,
    highRelease: byte, highVersion: byte, lowRelease: byte, lowVersion: byte,
    openedAt: TimeStamp, appendedAt: TimeStamp,
    numberOfCdrs: u32, sequenceNumber: u32, closureReason: byte, nodeAddress: ip20, lostCdrs: byte,
    filterLength: u16, filter: seq<byte>, privateLength: u16, privateExtension: seq<byte>,
    highExtension: byte, lowExtension: byte)

  datatype CdrHeader = CdrHeader(
    cdrLength: u16, release: byte, version: byte, format: byte, tsNumber: byte, releaseExtension: byte)

  datatype Cdr = Cdr(hdr: CdrHeader, bytes: seq<byte>)

  // ---------------------------------------------------------------- bit packing

  /** An octet holding a 3-bit and a 5-bit field; the shift drops what does not fit the octet. */
  function PackOctet(high: byte, low: byte): nat {
    BitOr(high * 0x20 % 0x100, low)
  }

  /** OR-s a field into the 32-bit word at a scale. */
  function Join(word: nat, field: byte, scale: nat): nat { BitOr(word, field * scale % 0x1_0000_0000) }

  function DatePart(t: TimeStamp): nat {
    Join(Join(t.month * 0x1000_0000 % 0x1_0000_0000, t.date, 0x80_0000), t.hour, 0x4_0000)
  }

  function ClockPart(word: nat, t: TimeStamp): nat { Join(Join(word, t.minute, 0x1000), t.sign, 0x800) }

  function DeviationPart(word: nat, t: TimeStamp): nat { BitOr(Join(word, t.hourDev, 0x40), t.minuteDev) }

  function PackTime(t: TimeStamp): nat { DeviationPart(ClockPart(DatePart(t), t), t) }

  function UnpackTime(ts: u32): TimeStamp {
    TimeStamp(ts / 0x1000_0000, ts / 0x80_0000 % 0x20, ts / 0x4_0000 % 0x20, ts / 0x1000 % 0x40,
              ts / 0x800 % 2, ts / 0x40 % 0x20, ts % 0x40)
  }

  predicate TimeInWidth(t: TimeStamp) {
    t.month < 0x10 && t.date < 0x20 && t.hour < 0x20 && t.minute < 0x40 && t.sign < 2 && t.hourDev < 0x20 && t.minuteDev < 0x40
  }

  lemma PackOctetFields(high: byte, low: byte)
    requires high < 8 && low < 0x20
    ensures PackOctet(high, low) == high * 0x20 + low < 0x100
  {
    assert high * 0x20 % 0x100 == high * 0x20;
    hide BitOr;
    OrField(high, 5, 0x20, low);
  }

  lemma JoinMonthDate(m: nat, d: byte)
    requires m < 0x10 && d < 0x20
    ensures Join(m * 0x1000_0000, d, 0x80_0000) == (m * 0x20 + d) * 0x80_0000
  {
    assert d * 0x80_0000 % 0x1_0000_0000 == d * 0x80_0000;
    OrField(m, 28, 0x1000_0000, d * 0x80_0000);
  }

  lemma JoinHour(w: nat, h: byte)
    requires w < 0x200 && h < 0x20
    ensures Join(w * 0x80_0000, h, 0x4_0000) == (w * 0x20 + h) * 0x4_0000
  {
    assert h * 0x4_0000 % 0x1_0000_0000 == h * 0x4_0000;
    OrField(w, 23, 0x80_0000, h * 0x4_0000);
  }

  lemma JoinMinute(w: nat, m: byte)
    requires w < 0x4000 && m < 0x40
    ensures Join(w * 0x4_0000, m, 0x1000) == (w * 0x40 + m) * 0x1000
  {
    assert m * 0x1000 % 0x1_0000_0000 == m * 0x1000;
    OrField(w, 18, 0x4_0000, m * 0x1000);
  }

  lemma JoinSign(w: nat, s: byte)
    requires w < 0x10_0000 && s < 2
    ensures Join(w * 0x1000, s, 0x800) == (w * 2 + s) * 0x800
  {
    assert s * 0x800 % 0x1_0000_0000 == s * 0x800;
    OrField(w, 12, 0x1000, s * 0x800);
  }

  lemma JoinHourDev(w: nat, h: byte)
    requires w < 0x20_0000 && h < 0x20
    ensures Join(w * 0x800, h, 0x40) == (w * 0x20 + h) * 0x40
  {
    assert h * 0x40 % 0x1_0000_0000 == h * 0x40;
    OrField(w, 11, 0x800, h * 0x40);
  }

  lemma DateFields(t: TimeStamp)
    requires TimeInWidth(t)
    ensures DatePart(t) == ((t.month * 0x20 + t.date) * 0x20 + t.hour) * 0x4_0000
  {
    assert t.month * 0x1000_0000 % 0x1_0000_0000 == t.month * 0x1000_0000;
    JoinMonthDate(t.month, t.date);
    JoinHour(t.month * 0x20 + t.date, t.hour);
  }

  lemma ClockFields(w: nat, t: TimeStamp)
    requires TimeInWidth(t) && w < 0x4000
    ensures ClockPart(w * 0x4_0000, t) == ((w * 0x40 + t.minute) * 2 + t.sign) * 0x800
  {
    JoinMinute(w, t.minute);
    JoinSign(w * 0x40 + t.minute, t.sign);
  }

  lemma DeviationFields(w: nat, t: TimeStamp)
    requires TimeInWidth(t) && w < 0x20_0000
    ensures DeviationPart(w * 0x800, t) == (w * 0x20 + t.hourDev) * 0x40 + t.minuteDev
  {
    JoinHourDev(w, t.hourDev);
    OrField(w * 0x20 + t.hourDev, 6, 0x40, t.minuteDev);
  }

  /** The word a time stamp spells, as a number with mixed radices. */
  function TimeWord(t: TimeStamp): nat {
    ((((((t.month * 0x20 + t.date) * 0x20 + t.hour) * 0x40 + t.minute) * 2 + t.sign) * 0x20) + t.hourDev) * 0x40 + t.minuteDev
  }

  lemma PackTimeFields(t: TimeStamp)
    requires TimeInWidth(t)
    ensures PackTime(t) == TimeWord(t)
  {
    var a := (t.month * 0x20 + t.date) * 0x20 + t.hour;
    var b := (a * 0x40 + t.minute) * 2 + t.sign;
    DateFields(t);
    ClockFields(a, t);
    DeviationFields(b, t);
  }

  lemma WordOfFields(ts: u32)
    ensures TimeInWidth(UnpackTime(ts)) && TimeWord(UnpackTime(ts)) == ts
  {
    var a, b, c, d, e, f := ts / 0x40, ts / 0x800, ts / 0x1000, ts / 0x4_0000, ts / 0x80_0000, ts / 0x1000_0000;
    assert b == a / 0x20;
    assert c == b / 2;
    assert d == c / 0x40;
    assert e == d / 0x20;
    assert f == e / 0x20;
  }

  lemma FieldsOfWord(t: TimeStamp)
    requires TimeInWidth(t)
    ensures TimeWord(t) < 0x1_0000_0000 && UnpackTime(TimeWord(t)) == t
  {
    var f := t.month;
    var e := f * 0x20 + t.date;
    var d := e * 0x20 + t.hour;
    var c := d * 0x40 + t.minute;
    var b := c * 2 + t.sign;
    var a := b * 0x20 + t.hourDev;
    var ts := TimeWord(t);
    assert ts == a * 0x40 + t.minuteDev;
    hide TimeWord;
    LowSix(a, t.minuteDev);
    LowFive(b, t.hourDev);
    LowSix(d, t.minute);
    LowFive(e, t.hour);
    LowFive(f, t.date);
    Shifts(ts);
  }

  lemma LowSix(q: nat, r: nat)
    requires r < 0x40
    ensures (q * 0x40 + r) / 0x40 == q && (q * 0x40 + r) % 0x40 == r
  {
  }

  lemma LowFive(q: nat, r: nat)
    requires r < 0x20
    ensures (q * 0x20 + r) / 0x20 == q && (q * 0x20 + r) % 0x20 == r
  {
  }

  /** The places of the fields, one after the other. */
  lemma Shifts(ts: nat)
    ensures ts / 0x800 == ts / 0x40 / 0x20 && ts / 0x1000 == ts / 0x800 / 2 && ts / 0x4_0000 == ts / 0x1000 / 0x40
    ensures ts / 0x80_0000 == ts / 0x4_0000 / 0x20 && ts / 0x1000_0000 == ts / 0x80_0000 / 0x20
  {
  }

  /** Seven fields in their widths and a 32-bit word carry the same information. */
  lemma PackUnpackTime(ts: u32)
    ensures TimeInWidth(UnpackTime(ts)) && PackTime(UnpackTime(ts)) == ts
  {
    WordOfFields(ts);
    PackTimeFields(UnpackTime(ts));
  }

  lemma UnpackPackTime(t: TimeStamp)
    requires TimeInWidth(t)
    ensures PackTime(t) < 0x1_0000_0000 && UnpackTime(PackTime(t)) == t
  {
    FieldsOfWord(t);
    PackTimeFields(t);
  }

  // ---------------------------------------------------------------- octet layout

  function Identifiers(h: FileHeader): (s: seq<byte>)
    ensures |s| == 10
  {
    Octets(h.fileLength, 4) + Octets(h.headerLength, 4)
    + Octets(PackOctet(h.highRelease, h.highVersion), 1) + Octets(PackOctet(h.lowRelease, h.lowVersion), 1)
  }

  function Times(h: FileHeader): (s: seq<byte>)
    ensures |s| == 8
  {
    Octets(PackTime(h.openedAt), 4) + Octets(PackTime(h.appendedAt), 4)
  }

  function Counts(h: FileHeader): (s: seq<byte>)
    ensures |s| == 8
  {
    Octets(h.numberOfCdrs, 4) + Octets(h.sequenceNumber, 4)
  }

  function Origin(h: FileHeader): (s: seq<byte>)
    ensures |s| == 24
  {
    [h.closureReason] + h.nodeAddress + [h.lostCdrs] + Octets(h.filterLength, 2)
  }

  function Extensions(h: FileHeader): (s: seq<byte>)
    ensures |s| == (if h.highRelease == 7 then 1 else 0) + if h.lowRelease == 7 then 1 else 0
  {
    (if h.highRelease == 7 then [h.highExtension] else []) + if h.lowRelease == 7 then [h.lowExtension] else []
  }

  function FixedPart(h: FileHeader): (s: seq<byte>)
    ensures |s| == 50
  {
    Identifiers(h) + Times(h) + Counts(h) + Origin(h)
  }

  function FileHeaderOctets(h: FileHeader): seq<byte> {
    FixedPart(h) + h.filter + Octets(h.privateLength, 2) + h.privateExtension + Extensions(h)
  }

  function CdrHeaderOctets(h: CdrHeader): (s: seq<byte>)
    ensures |s| == if h.release == 7 then 5 else 4
  {
    Octets(h.cdrLength, 2) + Octets(PackOctet(h.release, h.version), 1) + Octets(PackOctet(h.format, h.tsNumber), 1)
    + if h.release == 7 then [h.releaseExtension] else []
  }

  function CdrOctets(c: Cdr): seq<byte> { CdrHeaderOctets(c.hdr) + c.bytes }

  function CdrParts(cs: seq<Cdr>): (parts: seq<seq<byte>>)
    ensures |parts| == |cs| && forall k :: 0 <= k < |cs| ==> parts[k] == CdrOctets(cs[k])
  {
    seq(|cs|, k requires 0 <= k < |cs| => CdrOctets(cs[k]))
  }

  function FileOctets(h: FileHeader, cs: seq<Cdr>): seq<byte> {
    FileHeaderOctets(h) + Concat(CdrParts(cs))
  }
}
