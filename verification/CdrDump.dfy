/** Dumping records to a CDR file, and reading them back: BER codec and file codec together. */
module CdrDump {
  import opened Bytes
  import opened Results
  import opened Words
  import opened BerTypes
  import opened BerMarshal
  import opened BerUnmarshal
  import opened BerRoundTrip
  import opened CdrFileTypes
  import opened CdrFileCodec
  import opened CdrFileLaws

  const MIDNIGHT := TimeStamp(0, 0, 0, 0, 0, 0, 0)

  const NO_ADDRESS: ip20 := [0, 0, 0, 0, 0, 0, 0, 0, 0, 0, 0, 0, 0, 0, 0, 0, 0, 0, 0, 0]

  const BASIC_ENCODING_RULES: byte := 1

  /** The header of a dumped file: nothing but lengths and count is set. */
  function DumpHeader(fileLength: u32, count: u32): FileHeader {
    FileHeader(fileLength, 52, 0, 0, 0, 0, MIDNIGHT, MIDNIGHT, count, 0, 0, NO_ADDRESS, 0, 0, [], 0, [], 0, 0)
  }

  /** The CDR of one record; its length is cut to 16 bits. */
  function CdrOf(bytes: seq<byte>): Cdr { Cdr(CdrHeader(U16(|bytes|), 0, 0, BASIC_ENCODING_RULES, 0, 0), bytes) }

  /** The octets of a record: none if it cannot be marshalled. */
  function RecordBytes(s: Schema, p: Params, v: Value): Result<seq<byte>> {
    var m := Marshal(s, p, v);
    if m.Fail? && m.failure.Error? then Ok([]) else m
  }

  function AllRecordBytes(s: Schema, p: Params, vs: seq<Value>): (r: Result<seq<seq<byte>>>)
    ensures r.Ok? ==> |r.value| == |vs|
  {
    if vs == [] then Ok([])
    else
      var before :- AllRecordBytes(s, p, vs[..|vs| - 1]);
      var last :- RecordBytes(s, p, vs[|vs| - 1]);
      Ok(before + [last])
  }

  function Cdrs(parts: seq<seq<byte>>): (cs: seq<Cdr>)
    ensures |cs| == |parts| && forall k :: 0 <= k < |parts| ==> cs[k] == CdrOf(parts[k])
  {
    seq(|parts|, k requires 0 <= k < |parts| => CdrOf(parts[k]))
  }

  /** The file length as it is accumulated, in 32 bits. */
  function DumpLength(parts: seq<seq<byte>>): u32 {
    if parts == [] then 52 else U32(DumpLength(parts[..|parts| - 1]) + U32(|parts[|parts| - 1]|) + 4)
  }

  function DumpFile(parts: seq<seq<byte>>): seq<byte> {
    FileOctets(DumpHeader(DumpLength(parts), U32(|parts|)), Cdrs(parts))
  }

  /** The file written for a list of records. */
  function Dumped(s: Schema, p: Params, vs: seq<Value>): Result<seq<byte>> {
    var parts :- AllRecordBytes(s, p, vs);
    Ok(DumpFile(parts))
  }

  lemma {:induction false} RecordBytesFail(s: Schema, p: Params, vs: seq<Value>, k: nat)
    requires k <= |vs| && AllRecordBytes(s, p, vs[..k]).Fail?
    ensures AllRecordBytes(s, p, vs) == AllRecordBytes(s, p, vs[..k])
  {
    hide RecordBytes;
    if k == |vs| {
      assert vs[..k] == vs;
    } else {
      assert vs[..|vs| - 1][..k] == vs[..k];
      RecordBytesFail(s, p, vs[..|vs| - 1], k);
    }
  }

  lemma RecordBytesNext(s: Schema, p: Params, vs: seq<Value>, i: nat)
    requires i < |vs|
    ensures AllRecordBytes(s, p, vs[..i + 1]) ==
            var before, last := AllRecordBytes(s, p, vs[..i]), RecordBytes(s, p, vs[i]);
            if before.Fail? then before else if last.Fail? then Fail(last.failure) else Ok(before.value + [last.value])
  {
    hide RecordBytes;
    assert vs[..i + 1][..i] == vs[..i];
  }

  lemma NothingDumped()
    ensures Cdrs([]) == [] && DumpLength([]) == 52
  {
  }

  lemma LengthReplaced(fileLength: u32, now: u32, count: u32)
    ensures DumpHeader(fileLength, count).fileLength == fileLength
    ensures DumpHeader(fileLength, count).(fileLength := now) == DumpHeader(now, count)
  {
  }

  lemma DumpStep(parts: seq<seq<byte>>, bytes: seq<byte>)
    ensures Cdrs(parts + [bytes]) == Cdrs(parts) + [CdrOf(bytes)]
    ensures DumpLength(parts + [bytes]) == U32(DumpLength(parts) + U32(|bytes|) + 4)
  {
    assert (parts + [bytes])[..|parts|] == parts;
  }

  /** Marshals every record, adds up the file length and writes the file. */
  method DumpCdrFile(s: Schema, p: Params, records: seq<Value>) returns (r: Result<seq<byte>>)
    requires forall k :: 0 <= k < |records| ==> WordSized(records[k])
    ensures r == Dumped(s, p, records)
  {
    hide Marshal, WordSized, FileOctets, U32, Cdrs, CdrOf, DumpLength, DumpHeader;
    var hdr := DumpHeader(52, U32(|records|));
    var cdrList: seq<Cdr> := [];
    ghost var parts: seq<seq<byte>> := [];
    NothingDumped();
    var i := 0;
    while i < |records|
      invariant 0 <= i <= |records|
      invariant AllRecordBytes(s, p, records[..i]) == Ok(parts)
      invariant cdrList == Cdrs(parts) && hdr == DumpHeader(DumpLength(parts), U32(|records|))
    {
      RecordBytesNext(s, p, records, i);
      var cdrBytes := BerMarshalWithParams(s, p, records[i]);
      if cdrBytes.Fail? && cdrBytes.failure.Panic? {
        RecordBytesFail(s, p, records, i + 1);
        return Fail(Panic);
      }
      var bytes := if cdrBytes.Ok? then cdrBytes.value else [];
      cdrList := cdrList + [CdrOf(bytes)];
      DumpStep(parts, bytes);
      LengthReplaced(DumpLength(parts), DumpLength(parts + [bytes]), U32(|records|));
      hdr := hdr.(fileLength := U32(hdr.fileLength + U32(|bytes|) + 4));
      parts := parts + [bytes];
      i := i + 1;
    }
    assert records[..i] == records;
    var file := new CdrFile(hdr, cdrList);
    var buf := file.Encoding();
    r := Ok(buf);
  }

  // ---------------------------------------------------------------- reading back

  /** The octets of a file: its header, four per CDR and the records. */
  function TotalSize(parts: seq<seq<byte>>): nat {
    if parts == [] then 52 else TotalSize(parts[..|parts| - 1]) + 4 + |parts[|parts| - 1]|
  }

  lemma {:induction false} PartsSize(parts: seq<seq<byte>>)
    ensures 52 + |Concat(CdrParts(Cdrs(parts)))| == TotalSize(parts)
  {
    hide CdrHeaderOctets;
    if parts != [] {
      var n := |parts| - 1;
      PartsSize(parts[..n]);
      assert CdrParts(Cdrs(parts))[..n] == CdrParts(Cdrs(parts[..n]));
    }
  }

  lemma DumpSize(parts: seq<seq<byte>>)
    ensures |DumpFile(parts)| == TotalSize(parts)
  {
    hide FixedPart, Octets, CdrParts;
    PartsSize(parts);
  }

  /** The announced file length is the size of the file as long as that fits 32 bits. */
  lemma {:induction false} LengthAnnounced(parts: seq<seq<byte>>)
    requires TotalSize(parts) < TWO_32
    ensures DumpLength(parts) == TotalSize(parts) && |parts| <= TotalSize(parts)
  {
    hide U32;
    if parts != [] {
      var last := |parts[|parts| - 1]|;
      LengthAnnounced(parts[..|parts| - 1]);
      U32Same(last);
      U32Same(TotalSize(parts[..|parts| - 1]) + last + 4);
    }
  }

  /** Each record's length fits its 16-bit field. */
  predicate Fits16(parts: seq<seq<byte>>) { forall k :: 0 <= k < |parts| ==> |parts[k]| <= 65535 }

  lemma DumpHeaderInWidth(fileLength: u32, count: u32)
    ensures HeaderInWidth(DumpHeader(fileLength, count)) && DumpHeader(fileLength, count).numberOfCdrs == count
  {
  }

  lemma CdrOfInWidth(bytes: seq<byte>)
    requires |bytes| <= 65535
    ensures CdrInWidth(CdrOf(bytes))
  {
  }

  lemma DumpCanonical(parts: seq<seq<byte>>)
    requires TotalSize(parts) < TWO_32 && Fits16(parts)
    ensures Canonical(DumpHeader(DumpLength(parts), U32(|parts|)), Cdrs(parts))
  {
    hide DumpLength, TotalSize, HeaderInWidth, CdrInWidth, CdrOf, DumpHeader, Cdrs, U32;
    LengthAnnounced(parts);
    U32Same(|parts|);
    DumpHeaderInWidth(DumpLength(parts), U32(|parts|));
    forall k | 0 <= k < |parts| ensures CdrInWidth(Cdrs(parts)[k]) { CdrOfInWidth(parts[k]); }
  }

  lemma DumpDecoded(parts: seq<seq<byte>>)
    requires TotalSize(parts) < TWO_32 && Fits16(parts)
    ensures var r := DecodeFile(DumpFile(parts));
            r.Ok? && r.value.hdr == DumpHeader(DumpLength(parts), U32(|parts|)) && r.value.cdrs == Cdrs(parts)
            && r.value.end == TotalSize(parts)
  {
    hide DecodeFile, FileOctets, Canonical, TotalSize, DumpLength, Fits16, Cdrs;
    DumpCanonical(parts);
    DumpSize(parts);
    FileRead(DumpHeader(DumpLength(parts), U32(|parts|)), Cdrs(parts));
  }

  /** The octet strings of decoded CDRs. */
  function CdrBytes(cs: seq<Cdr>): (parts: seq<seq<byte>>)
    ensures |parts| == |cs| && forall k :: 0 <= k < |cs| ==> parts[k] == cs[k].bytes
  {
    seq(|cs|, k requires 0 <= k < |cs| => cs[k].bytes)
  }

  /** A dumped file of less than 2^32 octets gives back its records if and only if none is longer than 65535. */
  lemma DumpReadableIff(parts: seq<seq<byte>>)
    requires TotalSize(parts) < TWO_32
    ensures var r := DecodeFile(DumpFile(parts)); r.Ok? && CdrBytes(r.value.cdrs) == parts <==> Fits16(parts)
  {
    hide DecodeFile, DumpFile, TotalSize;
    var r := DecodeFile(DumpFile(parts));
    if Fits16(parts) {
      DumpDecoded(parts);
      assert CdrBytes(Cdrs(parts)) == parts;
    }
    if r.Ok? && CdrBytes(r.value.cdrs) == parts {
      DecodedIsCanonical(DumpFile(parts));
      DecodedFits(r.value.hdr, r.value.cdrs);
    }
  }

  lemma DecodedFits(h: FileHeader, cs: seq<Cdr>)
    requires Canonical(h, cs)
    ensures Fits16(CdrBytes(cs))
  {
    hide HeaderInWidth;
    forall k | 0 <= k < |cs|
      ensures |CdrBytes(cs)[k]| <= 65535
    {
      assert CdrInWidth(cs[k]);
    }
  }

  // ---------------------------------------------------------------- end to end

  lemma {:induction false} RecordBytesAt(s: Schema, p: Params, vs: seq<Value>)
    requires forall k :: 0 <= k < |vs| ==> Marshal(s, p, vs[k]).Ok?
    ensures AllRecordBytes(s, p, vs).Ok?
    ensures forall k :: 0 <= k < |vs| ==> AllRecordBytes(s, p, vs).value[k] == Marshal(s, p, vs[k]).value
  {
    hide Marshal;
    if vs != [] {
      RecordBytesAt(s, p, vs[..|vs| - 1]);
    }
  }

  /** A record that cannot be marshalled leaves an empty CDR, and one that panics takes the whole dump with it. */
  lemma {:induction false} DumpedParts(s: Schema, p: Params, vs: seq<Value>)
    ensures AllRecordBytes(s, p, vs).Ok? <==> forall k :: 0 <= k < |vs| ==> Marshal(s, p, vs[k]) != Fail(Panic)
    ensures AllRecordBytes(s, p, vs).Fail? ==> AllRecordBytes(s, p, vs) == Fail(Panic)
    ensures AllRecordBytes(s, p, vs).Ok? ==>
              forall k :: 0 <= k < |vs| ==>
                AllRecordBytes(s, p, vs).value[k] == if Marshal(s, p, vs[k]).Ok? then Marshal(s, p, vs[k]).value else []
  {
    hide Marshal;
    if vs != [] {
      DumpedParts(s, p, vs[..|vs| - 1]);
    }
  }

  /** What a record must meet to be dumped and read back. */
  predicate Dumpable(s: Schema, p: Params, v: Value) {
    Survives(s, p, v) && Marshal(s, p, v).Ok? && |Marshal(s, p, v).value| <= 65535
  }

  lemma DumpableReturns(s: Schema, p: Params, v: Value)
    requires Dumpable(s, p, v)
    ensures Unmarshal(s, p, Marshal(s, p, v).value) == Ok(v)
  {
    hide Survives, Build, Parse;
    var tal := Encodes(s, p, v);
    RoundTrip(s, p, v);
  }

  /** Octet strings come back from their file, in order, and so what is unmarshalled from them. */
  lemma PartsReturn(s: Schema, p: Params, parts: seq<seq<byte>>, vs: seq<Value>)
    requires |parts| == |vs| && TotalSize(parts) < TWO_32
    requires forall k :: 0 <= k < |vs| ==> |parts[k]| <= 65535 && Unmarshal(s, p, parts[k]) == Ok(vs[k])
    ensures var d := DumpFile(parts);
            var r := DecodeFile(d);
            && r.Ok? && r.value.end == |d| == r.value.hdr.fileLength
            && |r.value.cdrs| == |vs| == r.value.hdr.numberOfCdrs
            && forall k :: 0 <= k < |vs| ==> Unmarshal(s, p, r.value.cdrs[k].bytes) == Ok(vs[k])
  {
    hide Unmarshal, DecodeFile, DumpFile, TotalSize, DumpLength;
    DumpDecoded(parts);
    DumpSize(parts);
    LengthAnnounced(parts);
  }

  /** Every record whose BER form is at most 65535 octets and which meets the side conditions of the BER codec
      comes back, in order, from a dumped file of less than 2^32 octets. */
  lemma EndToEnd(s: Schema, p: Params, vs: seq<Value>)
    requires forall k :: 0 <= k < |vs| ==> Dumpable(s, p, vs[k])
    requires AllRecordBytes(s, p, vs).Ok? ==> TotalSize(AllRecordBytes(s, p, vs).value) < TWO_32
    ensures var d := Dumped(s, p, vs);
            && d.Ok?
            && var r := DecodeFile(d.value);
            && r.Ok? && r.value.end == |d.value| == r.value.hdr.fileLength
            && |r.value.cdrs| == |vs| == r.value.hdr.numberOfCdrs
            && forall k :: 0 <= k < |vs| ==> Unmarshal(s, p, r.value.cdrs[k].bytes) == Ok(vs[k])
  {
    hide Survives, Marshal, Unmarshal, DecodeFile, DumpFile, TotalSize;
    forall k | 0 <= k < |vs| ensures Marshal(s, p, vs[k]).Ok? { assert Dumpable(s, p, vs[k]); }
    RecordBytesAt(s, p, vs);
    var parts := AllRecordBytes(s, p, vs).value;
    hide AllRecordBytes;
    forall k | 0 <= k < |vs|
      ensures |parts[k]| <= 65535 && Unmarshal(s, p, parts[k]) == Ok(vs[k])
    {
      assert Dumpable(s, p, vs[k]);
      DumpableReturns(s, p, vs[k]);
    }
    PartsReturn(s, p, parts, vs);
  }
}
