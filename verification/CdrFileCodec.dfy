/** Writing and reading a CDR file, over octet strings instead of files. */
module CdrFileCodec {
  import opened Bytes
  import opened Results
  import opened Words
  import opened CdrFileTypes

  /** Go's data[lo:hi]. */
  function Slice(data: seq<byte>, lo: nat, hi: nat): (r: Result<seq<byte>>)
    ensures r.Ok? ==> lo <= hi <= |data| && r.value == data[lo..hi]
  {
    if lo <= hi <= |data| then Ok(data[lo..hi]) else Fail(Panic)
  }

  /** Go's data[i]. */
  function At(data: seq<byte>, i: nat): (r: Result<byte>)
    ensures r.Ok? ==> i < |data| && r.value == data[i]
  {
    if i < |data| then Ok(data[i]) else Fail(Panic)
  }

  /** Big-endian reads of whole words. */
  function Word2(s: seq<byte>): u16
    requires |s| == 2
  {
    U16(BigEndian(s))
  }

  function Word4(s: seq<byte>): u32
    requires |s| == 4
  {
    U32(BigEndian(s))
  }

  /** The fields at fixed places; those behind the routeing filter are filled in later. */
  function DecodeFixed(d: seq<byte>): FileHeader
    requires |d| >= 50
  {
    FileHeader(
      Word4(d[0..4]), Word4(d[4..8]),
      d[8] / 0x20, d[8] % 0x20, d[9] / 0x20, d[9] % 0x20,
      UnpackTime(Word4(d[10..14])), UnpackTime(Word4(d[14..18])),
      Word4(d[18..22]), Word4(d[22..26]), d[26], d[27..47], d[47],
      Word2(d[48..50]), [], 0, [], 0, 0)
  }

  /** The header and where the first CDR is taken to begin. Positions up to the private extension are
      16-bit numbers, and the low extension is read one octet after the place of the high one. */
  function DecodeHeader(d: seq<byte>): Result<(FileHeader, u32)> {
    if |d| < 50 then Fail(Panic) else DecodeVariable(d, DecodeFixed(d))
  }

  function DecodeVariable(d: seq<byte>, h: FileHeader): Result<(FileHeader, u32)> {
    var xy := U16(50 + h.filterLength);
    var lengthField :- Slice(d, xy, U16(xy + 2));
    if |lengthField| != 2 then Fail(Panic)
    else
      var privateLength := Word2(lengthField);
      var n := U16(U16(xy + 2) + privateLength);
      var filter :- Slice(d, 50, xy);
      var priv :- Slice(d, U16(xy + 2), n);
      var high :- if h.highRelease == 7 then At(d, n) else Ok(0);
      var low :- if h.lowRelease == 7 then At(d, U16(n + 1)) else Ok(0);
      Ok((Complete(h, filter, privateLength, priv, high, low),
          n + (if h.highRelease == 7 then 1 else 0) + if h.lowRelease == 7 then 1 else 0))
  }

  function Complete(h: FileHeader, filter: seq<byte>, privateLength: u16, priv: seq<byte>, high: byte, low: byte): FileHeader {
    h.(filter := filter, privateLength := privateLength, privateExtension := priv, highExtension := high, lowExtension := low)
  }

  function DecodeCdrHeader(d: seq<byte>, tail: u32): Result<CdrHeader> {
    var len :- Slice(d, tail, U32(tail + 2));
    if |len| != 2 then Fail(Panic)
    else
      var oct3 :- At(d, U32(tail + 2));
      var oct4 :- At(d, U32(tail + 3));
      var ext :- if oct3 / 0x20 == 7 then At(d, U32(tail + 4)) else Ok(0);
      Ok(CdrHeader(Word2(len), oct3 / 0x20, oct3 % 0x20, oct4 / 0x20, oct4 % 0x20, ext))
  }

  function CdrHeaderSize(h: CdrHeader): nat { if h.release == 7 then 5 else 4 }

  function DecodeCdr(d: seq<byte>, tail: u32): Result<(Cdr, u32)> {
    var h :- DecodeCdrHeader(d, tail);
    var from := U32(tail + CdrHeaderSize(h));
    var bytes :- Slice(d, from, U32(from + h.cdrLength));
    Ok((Cdr(h, bytes), U32(from + h.cdrLength)))
  }

  /** Reads count CDRs from tail on; also where they end. */
  function DecodeCdrs(d: seq<byte>, tail: u32, count: nat): (r: Result<(seq<Cdr>, u32)>)
    ensures r.Ok? ==> |r.value.0| == count
    decreases count
  {
    if count == 0 then Ok(([], tail))
    else
      var first :- DecodeCdr(d, tail);
      var rest :- DecodeCdrs(d, first.1, count - 1);
      Ok(([first.0] + rest.0, rest.1))
  }

  datatype Decoded = Decoded(hdr: FileHeader, cdrs: seq<Cdr>, end: u32)

  function DecodeFile(d: seq<byte>): Result<Decoded> {
    var h :- DecodeHeader(d);
    var cs :- DecodeCdrs(d, h.1, h.0.numberOfCdrs);
    Ok(Decoded(h.0, cs.0, cs.1))
  }

  // ---------------------------------------------------------------- the file object

  method EncodeFileHeader(h: FileHeader) returns (buf: seq<byte>)
    ensures buf == FileHeaderOctets(h)
  {
    buf := EncodeIdentifiers(h);
    buf := EncodeTimesAndCounts(h, buf);
    buf := EncodeOrigin(h, buf);
    buf := buf + h.filter;
    buf := buf + Octets(h.privateLength, 2);
    buf := buf + h.privateExtension;
    if h.highRelease == 7 {
      buf := buf + [h.highExtension];
    }
    if h.lowRelease == 7 {
      buf := buf + [h.lowExtension];
    }
  }

  method EncodeIdentifiers(h: FileHeader) returns (buf: seq<byte>)
    ensures buf == Identifiers(h)
  {
    buf := [];
    buf := buf + Octets(h.fileLength, 4);
    buf := buf + Octets(h.headerLength, 4);
    buf := buf + Octets(PackOctet(h.highRelease, h.highVersion), 1);
    buf := buf + Octets(PackOctet(h.lowRelease, h.lowVersion), 1);
  }

  method EncodeTimesAndCounts(h: FileHeader, buf0: seq<byte>) returns (buf: seq<byte>)
    ensures buf == buf0 + Times(h) + Counts(h)
  {
    buf := buf0 + Octets(PackTime(h.openedAt), 4);
    buf := buf + Octets(PackTime(h.appendedAt), 4);
    assert buf == buf0 + Times(h);
    buf := buf + Octets(h.numberOfCdrs, 4);
    buf := buf + Octets(h.sequenceNumber, 4);
  }

  method EncodeOrigin(h: FileHeader, buf0: seq<byte>) returns (buf: seq<byte>)
    ensures buf == buf0 + Origin(h)
  {
    buf := buf0 + [h.closureReason];
    buf := buf + h.nodeAddress;
    buf := buf + [h.lostCdrs];
    buf := buf + Octets(h.filterLength, 2);
  }

  method EncodeCdrHeader(h: CdrHeader) returns (buf: seq<byte>)
    ensures buf == CdrHeaderOctets(h)
  {
    buf := [];
    buf := buf + Octets(h.cdrLength, 2);
    buf := buf + Octets(PackOctet(h.release, h.version), 1);
    buf := buf + Octets(PackOctet(h.format, h.tsNumber), 1);
    if h.release == 7 {
      buf := buf + [h.releaseExtension];
    }
  }

  method EncodeCdr(cdr: Cdr) returns (buf: seq<byte>)
    ensures buf == CdrOctets(cdr)
  {
    buf := EncodeCdrHeader(cdr.hdr);
    buf := buf + cdr.bytes;
  }

  method EncodeCdrs(cdrList: seq<Cdr>, buf0: seq<byte>) returns (buf: seq<byte>)
    ensures buf == buf0 + Concat(CdrParts(cdrList))
  {
    ghost var parts := CdrParts(cdrList);
    buf := buf0;
    var i := 0;
    while i < |cdrList|
      invariant 0 <= i <= |cdrList|
      invariant buf == buf0 + Concat(parts[..i])
    {
      var part := EncodeCdr(cdrList[i]);
      assert part == parts[i];
      buf := buf + part;
      NextPart(buf0, parts, i);
      i := i + 1;
    }
    assert parts[..i] == parts;
  }

  lemma NextPart(pre: seq<byte>, parts: seq<seq<byte>>, i: nat)
    requires i < |parts|
    ensures pre + Concat(parts[..i + 1]) == pre + Concat(parts[..i]) + parts[i]
  {
    assert parts[..i + 1][..i] == parts[..i];
  }

  /** The whole read is the records already done followed by the rest of the read. */
  ghost predicate Continues(whole: Result<(seq<Cdr>, u32)>, done: seq<Cdr>, rest: Result<(seq<Cdr>, u32)>) {
    if rest.Fail? then whole.Fail? else whole == Ok((done + rest.value.0, rest.value.1))
  }

  lemma ContinuesStart(whole: Result<(seq<Cdr>, u32)>)
    ensures Continues(whole, [], whole)
  {
    if whole.Ok? {
      assert [] + whole.value.0 == whole.value.0;
    }
  }

  lemma ContinuesStep(whole: Result<(seq<Cdr>, u32)>, done: seq<Cdr>, d: seq<byte>, tail: u32, count: nat)
    requires count > 0 && Continues(whole, done, DecodeCdrs(d, tail, count))
    ensures DecodeCdr(d, tail).Fail? ==> whole.Fail?
    ensures DecodeCdr(d, tail).Ok? ==>
              var c := DecodeCdr(d, tail).value;
              Continues(whole, done + [c.0], DecodeCdrs(d, c.1, count - 1))
  {
    var c := DecodeCdr(d, tail);
    if c.Ok? && DecodeCdrs(d, c.value.1, count - 1).Ok? {
      var rest := DecodeCdrs(d, c.value.1, count - 1).value.0;
      assert done + ([c.value.0] + rest) == done + [c.value.0] + rest;
    }
  }

  lemma ContinuesEnd(whole: Result<(seq<Cdr>, u32)>, done: seq<Cdr>, d: seq<byte>, tail: u32)
    requires Continues(whole, done, DecodeCdrs(d, tail, 0))
    ensures whole == Ok((done, tail))
  {
    assert done + [] == done;
  }

  class CdrFile {
    var hdr: FileHeader
    var cdrList: seq<Cdr>

    constructor (hdr: FileHeader, cdrList: seq<Cdr>)
      ensures this.hdr == hdr && this.cdrList == cdrList
    {
      this.hdr := hdr;
      this.cdrList := cdrList;
    }

    method Encoding() returns (buf: seq<byte>)
      ensures buf == FileOctets(hdr, cdrList)
    {
      buf := EncodeFileHeader(hdr);
      buf := EncodeCdrs(cdrList, buf);
    }

    /** Reads a file into this object: the header is replaced, the CDRs are appended to those it holds. */
    method Decoding(data: seq<byte>) returns (r: Result<u32>)
      modifies this
      ensures r.Ok? <==> DecodeFile(data).Ok?
      ensures r.Ok? ==> hdr == DecodeFile(data).value.hdr && r.value == DecodeFile(data).value.end
      ensures r.Ok? ==> cdrList == old(cdrList) + DecodeFile(data).value.cdrs
    {
      var head := DecodeHeader(data);
      if head.Fail? {
        return Fail(head.failure);
      }
      hdr := head.value.0;
      r := ReadCdrs(data, head.value.1);
    }

    /** The loop that appends the announced number of CDRs. */
    method ReadCdrs(data: seq<byte>, start: u32) returns (r: Result<u32>)
      modifies this`cdrList
      ensures var cs := DecodeCdrs(data, start, hdr.numberOfCdrs);
              && (r.Ok? <==> cs.Ok?)
              && (r.Ok? ==> r.value == cs.value.1 && cdrList == old(cdrList) + cs.value.0)
    {
      hide DecodeCdr, DecodeCdrs, Continues;
      var tail := start;
      var n := hdr.numberOfCdrs;
      ghost var done: seq<Cdr> := [];
      ContinuesStart(DecodeCdrs(data, start, n));
      assert cdrList + [] == cdrList;
      var i := 0;
      while i < n
        invariant 0 <= i <= n && cdrList == old(cdrList) + done
        invariant Continues(DecodeCdrs(data, start, n), done, DecodeCdrs(data, tail, n - i))
      {
        var cdr := DecodeCdr(data, tail);
        ContinuesStep(DecodeCdrs(data, start, n), done, data, tail, n - i);
        if cdr.Fail? {
          return Fail(cdr.failure);
        }
        cdrList := cdrList + [cdr.value.0];
        done := done + [cdr.value.0];
        tail := cdr.value.1;
        i := i + 1;
      }
      ContinuesEnd(DecodeCdrs(data, start, n), done, data, tail);
      r := Ok(tail);
    }
  }
}
