/** Where unmarshalling does not give back what was marshalled, and exactly when it does. */
module BerLimits {
  import opened Bytes
  import opened Results
  import opened Words
  import opened BerHeader
  import opened BerHeaderLaws
  import opened BerScalars
  import opened BerTypes
  import opened BerMarshal
  import opened BerUnmarshal
  import opened BerRoundTrip

  // ---------------------------------------------------------------- scalars

  /** A Go value of a primitive type. */
  predicate ScalarOf(s: Schema, v: Value) {
    match s
    case SInt | SEnumerated => v.VInt? && IsInt64(v.i)
    case SBool => v.VBool?
    case SOctets => v.VOctets? || v.VNil?
    case SBits => v.VBits? && v.bitLength < TWO_64
    case SString => v.VString?
    case _ => false
  }

  /** The scalars that come back: no short negative numbers, no nil octet strings, and bit strings that hold one
      octet more than their whole octets. */
  predicate Recoverable(s: Schema, v: Value)
    requires ScalarOf(s, v)
  {
    match s
    case SInt | SEnumerated => v.i >= 0 || v.i < -0x80_0000_0000_0000
    case SOctets => v.VOctets?
    case SBits => |v.bits| == v.bitLength / 8 + 1 || (v.bits == [] && v.bitLength >= TWO_64 - 8)
    case _ => true
  }

  lemma ContentsRecovered(s: Schema, v: Value)
    requires Primitive(s) && ScalarOf(s, v) && |Octs(Contents(s, v).value)| < MAX_LENGTH
    ensures ParsePrimitive(s, Octs(Contents(s, v).value)) == Ok(v) <==> Recoverable(s, v)
  {
    if s.SInt? || s.SEnumerated? {
      IntRoundTrip(v.i);
    } else if s.SBits? {
      BitLengthRoundTrip(v.bits, v.bitLength);
      assert BitOctets(v.bits, v.bitLength)[1..] == v.bits;
    }
  }

  /** The tags a primitive value can be written under and read back. */
  predicate ReadableTag(s: Schema, p: Params) {
    if p.tag.Some? then !p.explicitTag && p.tag.value < TWO_63 else s.SString? ==> p.stringType < TWO_63
  }

  /** A primitive value comes back if and only if it is recoverable. */
  lemma ScalarExact(s: Schema, p: Params, v: Value)
    requires Primitive(s) && ScalarOf(s, v) && ReadableTag(s, p) && |Octs(Contents(s, v).value)| < MAX_LENGTH
    ensures Marshal(s, p, v).Ok? && (Unmarshal(s, p, Marshal(s, p, v).value) == Ok(v) <==> Recoverable(s, v))
  {
    hide HeaderOctets, ParseHeader, ParsePrimitive, Recoverable, BitOctets;
    ContentsRecovered(s, v);
    var content := Contents(s, v).value;
    var utag := UniversalTag(s, p);
    var tal := TagAndLen(if p.tag.Some? then CLASS_CONTEXT else 0, false, if p.tag.Some? then p.tag.value else utag, |Octs(content)|);
    ReadsHeader(Finish(p, false, utag, content), tal);
    assert (HeaderOctets(tal) + Octs(content))[|HeaderOctets(tal)|..] == Octs(content);
  }

  function OwnHead(octets: seq<byte>): seq<byte> { HeaderOctets(TagAndLen(0, false, TAG_OCTET_STRING, |octets|)) }

  lemma ExplicitMarshalled(p: Params, octets: seq<byte>)
    requires p.tag.Some? && p.explicitTag
    ensures var content := OwnHead(octets) + octets;
            Marshal(SOctets, p, VOctets(octets)) == Ok(HeaderOctets(TagAndLen(CLASS_CONTEXT, true, p.tag.value, |content|)) + content)
  {
    hide HeaderOctets;
    var inner := EBer(EBytes(OwnHead(octets)), EBytes(octets));
    assert Octs(inner) == OwnHead(octets) + octets;
    var head := HeaderOctets(TagAndLen(CLASS_CONTEXT, true, p.tag.value, |Octs(inner)|));
    assert Build(SOctets, p, VOctets(octets)) == Ok(EBer(EBytes(head), inner));
    hide Build;
    assert Octs(EBer(EBytes(head), inner)) == head + Octs(inner);
  }

  lemma OwnHeadSize(octets: seq<byte>)
    requires |octets| < MAX_LENGTH
    ensures 2 <= |OwnHead(octets)| <= 5
  {
    LenOctetsSize(|octets|);
    hide LenOctets;
  }

  /** With an explicit tag an octet string never comes back: its own header is taken for contents. */
  lemma ExplicitNeverRecovered(p: Params, octets: seq<byte>)
    requires p.tag.Some? && p.explicitTag && p.tag.value < TWO_63 && |octets| < MAX_LENGTH - 8
    ensures Marshal(SOctets, p, VOctets(octets)).Ok?
    ensures Unmarshal(SOctets, p, Marshal(SOctets, p, VOctets(octets)).value) == Ok(VOctets(OwnHead(octets) + octets))
                                                                              != Ok(VOctets(octets))
  {
    hide HeaderOctets, Marshal, Unmarshal, Start, ParseHeader, OwnHead;
    OwnHeadSize(octets);
    ExplicitMarshalled(p, octets);
    var content := OwnHead(octets) + octets;
    assert |content| != |octets|;
    var tal := TagAndLen(CLASS_CONTEXT, true, p.tag.value, |content|);
    StartOf(tal, content);
    OctetsUnmarshalled(p, HeaderOctets(tal), content);
  }

  lemma OctetsUnmarshalled(p: Params, hdr: seq<byte>, content: seq<byte>)
    requires Start(hdr + content).Ok? && Start(hdr + content).value.size == |hdr|
    ensures Unmarshal(SOctets, p, hdr + content) == Ok(VOctets(content))
  {
    hide Start;
    assert (hdr + content)[|hdr|..] == content;
  }

  /** How many octets a length takes. */
  lemma LenOctetsSize(len: nat)
    requires len < MAX_LENGTH
    ensures |LenOctets(len)| == if len <= 127 then 1 else if len <= 255 then 2 else if len <= 65535 then 3 else 4
  {
    MinOctetsBound(len, 1);
    MinOctetsBound(len, 2);
    MinOctetsBound(len, 3);
    assert Pow256(1) == 256 && Pow256(2) == 256 * Pow256(1) && Pow256(3) == 256 * Pow256(2);
  }

  // ---------------------------------------------------------------- structs

  /** A struct of surviving fields is encoded if and only if one of them is emitted; without any, the encoder panics. */
  lemma EmittedOrPanic(fs: seq<Field>, p: Params, vs: seq<Value>)
    requires fs != [] && |fs| == |vs| && forall k :: 0 <= k < |fs| ==> FieldSurvives(fs[k], vs[k])
    ensures var r := Marshal(SStruct(fs), p, VStruct(vs));
            if exists k :: 0 <= k < |fs| && !Absent(fs[k], vs[k]) then r.Ok? else r == Fail(Panic)
  {
    FieldsEncode(fs, vs);
    hide FieldSurvives;
  }

  // ---------------------------------------------------------------- headers

  predicate PlainTag(p: Params) { p.tag.Some? && !p.explicitTag && p.tag.value < TWO_63 }

  lemma DropHeads<T>(a: seq<T>, b: seq<T>, c: seq<T>, n: nat)
    requires n <= |a| + |c|
    ensures (a + (b + c))[|a|..] == b + c
    ensures (a + (b + c))[|b|..][n..] == c <==> n == |a|
  {
    var s := (a + (b + c))[|b|..];
    if n == |a| {
      assert s[n..] == c;
    } else {
      assert |s[n..]| != |c|;
    }
  }

  lemma StartOf(t: TagAndLen, content: seq<byte>)
    requires t.cls < 4 && t.tagNumber < TWO_63 && t.len == |content| < MAX_LENGTH
    ensures var bytes := HeaderOctets(t) + content;
            && ParseHeader(bytes) == Ok(Header(t, |HeaderOctets(t)|))
            && Start(bytes) == ParseHeader(bytes)
  {
    HeaderRoundTrip(t, content);
    hide ParseHeader, HeaderOctets;
  }

  lemma OneOctetValue(s: seq<byte>)
    requires |s| == 1
    ensures BigEndian(s) == s[0]
  {
    assert s[..0] == [];
  }
}
