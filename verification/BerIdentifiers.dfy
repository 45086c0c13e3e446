/** The octets the marshaller writes and what the unmarshaller makes of primitive ones, in the numbers of X.690. */
module BerIdentifiers {
  import opened Bytes
  import opened Results
  import opened Words
  import opened BerHeader
  import opened BerScalars
  import opened BerTypes
  import opened BerMarshal
  import opened BerUnmarshal

  // ---------------------------------------------------------------- the identifier octet

  /** The tag number in an identifier octet: itself up to 30, and 31 where octets of it follow. */
  function LowTag(tag: nat): byte { if tag <= 30 then tag else 31 }

  /** The identifier octet of an encoding, in the classes and universal numbers of X.690 sections 8.1.2 and 8.14: for a
      pointer, a wrapper or an untagged choice that of what is inside. */
  function Identifier(s: Schema, p: Params, v: Value): byte
    requires Build(s, p, v).Ok?
    decreases s
  {
    if s.SPtr? then Identifier(s.elem, p, v.target)
    else if s.SWrap? then Identifier(s.elem, p, v.inner)
    else if p.tag.Some? then (if p.explicitTag || !Primitive(s) then 0xa0 else 0x80) + LowTag(p.tag.value)
    else match s
      case SBool => 0x01
      case SInt => 0x02
      case SBits => 0x03
      case SOctets => 0x04
      case SEnumerated => 0x0a
      case SString => LowTag(p.stringType)
      case SChoice(alts) =>
        var alt := alts[v.present - 1];
        assert alt.schema < alt;
        Identifier(alt.schema, alt.params, v.alts[v.present - 1])
      case SStruct(_) | SSlice(_) => if p.isSet then 0x31 else 0x30
  }

  lemma FirstOfHeader(t: TagAndLen)
    ensures HeaderOctets(t)[0] == t.cls % 4 * 64 + (if t.constructed then 0x20 else 0) + LowTag(t.tagNumber)
  {
    hide Groups, LenOctets;
  }

  lemma FirstOfFinish(p: Params, constructed: bool, utag: nat, content: Encoder)
    ensures var octets := Octs(Finish(p, constructed, utag, content));
            && |octets| >= 2
            && octets[0] == if p.tag.Some? then (if p.explicitTag || constructed then 0xa0 else 0x80) + LowTag(p.tag.value)
                            else (if constructed then 0x20 else 0) + LowTag(utag)
  {
    var own := TagAndLen(0, constructed, utag, |Octs(content)|);
    FirstOfHeader(own);
    if p.tag.Some? {
      FirstOfHeader(own.(cls := CLASS_CONTEXT, tagNumber := p.tag.value));
      FirstOfHeader(TagAndLen(CLASS_CONTEXT, true, p.tag.value, |Octs(EBer(EBytes(HeaderOctets(own)), content))|));
    }
    hide HeaderOctets, LowTag;
  }

  /** Every encoding starts with its identifier octet. */
  lemma {:induction false} FirstOctetWritten(s: Schema, p: Params, v: Value)
    requires Marshal(s, p, v).Ok?
    ensures var m := Marshal(s, p, v).value; |m| >= 2 && m[0] == Identifier(s, p, v)
    decreases s
  {
    hide Octs, Finish, BuildFields, BuildElems;
    if s.SPtr? {
      FirstOctetWritten(s.elem, p, v.target);
    } else if s.SWrap? {
      FirstOctetWritten(s.elem, p, v.inner);
    } else if s.SChoice? {
      var alt, x := s.alts[v.present - 1], v.alts[v.present - 1];
      assert alt.schema < alt;
      FirstOctetWritten(alt.schema, alt.params, x);
      FirstOfFinish(p, true, 0, Build(alt.schema, alt.params, x).value);
    } else if s.SStruct? {
      FirstOfFinish(p, true, SequenceTag(p), EStruct(BuildFields(s.fields, v.fields).value.0));
    } else if s.SSlice? {
      FirstOfFinish(p, true, SequenceTag(p), EStruct(BuildElems(s.elem, p.(tag := None), if v.VSlice? then v.elems else []).value));
    } else {
      FirstOfFinish(p, false, UniversalTag(s, p), Contents(s, v).value);
    }
  }

  // ---------------------------------------------------------------- short primitives, octet by octet

  /** The contents octets of a primitive value. An integer takes as few octets as its sign allows. */
  predicate ContentsOctets(s: Schema, v: Value, c: seq<byte>) {
    match s
    case SBool => v.VBool? && c == [if v.b then 0xff else 0x00]
    case SOctets => c == if v.VOctets? then v.octets else []
    case SString => v.VString? && c == v.chars
    case SBits => v.VBits? && c == [8 - v.bitLength % 8] + v.bits
    case _ => v.VInt? && |c| == IntLen(v.i) && c == Octets(v.i, |c|) && (-128 <= v.i <= 127 ==> c == [v.i % 256])
  }

  lemma ContentsWritten(s: Schema, v: Value)
    requires Primitive(s) && Contents(s, v).Ok?
    ensures ContentsOctets(s, v, Octs(Contents(s, v).value))
  {
    if v.VInt? && -128 <= v.i <= 127 {
      assert Octets(v.i / 256, 0) == [];
    }
  }

  /** A primitive value under a low tag, or none, with at most 127 contents octets: identifier, length and contents. */
  lemma ShortPrimitive(s: Schema, p: Params, v: Value)
    requires Primitive(s) && Marshal(s, p, v).Ok? && !p.explicitTag
    requires if p.tag.Some? then p.tag.value <= 30 else s.SString? ==> p.stringType <= 30
    ensures var c := Octs(Contents(s, v).value);
            ContentsOctets(s, v, c) && (|c| <= 127 ==> Marshal(s, p, v) == Ok([Identifier(s, p, v), |c|] + c))
  {
    ContentsWritten(s, v);
    FirstOctetWritten(s, p, v);
    var c := Octs(Contents(s, v).value);
    var t := TagAndLen(if p.tag.Some? then CLASS_CONTEXT else 0, false, if p.tag.Some? then p.tag.value else UniversalTag(s, p), |c|);
    hide Octs, Contents;
    assert Build(s, p, v) == Ok(EBer(EBytes(HeaderOctets(t)), Contents(s, v).value));
    BerOctets(HeaderOctets(t), Contents(s, v).value);
    if |c| <= 127 {
      assert HeaderOctets(t) == [HeaderOctets(t)[0], |c|];
    }
  }

  lemma BerOctets(h: seq<byte>, e: Encoder)
    ensures Octs(EBer(EBytes(h), e)) == h + Octs(e)
  {
  }

  // ---------------------------------------------------------------- explicit tags

  /** An explicit tag wraps the whole untagged encoding. */
  lemma {:induction false} ExplicitWraps(s: Schema, p: Params, v: Value)
    requires p.tag.Some? && p.explicitTag && !s.SChoice? && !s.SPtr? && !s.SWrap? && Marshal(s, p, v).Ok?
    ensures var plain := Marshal(s, p.(tag := None), v);
            && plain.Ok?
            && Marshal(s, p, v).value == HeaderOctets(TagAndLen(2, true, p.tag.value, |plain.value|)) + plain.value
  {
    hide HeaderOctets, BuildFields, BuildElems, Contents;
    var inner := Build(s, p.(tag := None), v);
    assert p.(tag := None).(tag := None) == p.(tag := None);
    assert inner.Ok?;
    var h := HeaderOctets(TagAndLen(2, true, p.tag.value, |Octs(inner.value)|));
    assert Build(s, p, v) == Ok(EBer(EBytes(h), inner.value));
    BerOctets(h, inner.value);
  }

  // ---------------------------------------------------------------- what a primitive decodes to

  /** The contents octets of an input with a low tag, which run to its end, or how reading the header fails: a length of
      more than three octets or beyond the input is an error, one cut off a panic. */
  function ContentsOf(bytes: seq<byte>): (r: Result<seq<byte>>)
    requires bytes != [] ==> bytes[0] % 32 != 31
  {
    if bytes == [] then Fail(Panic)
    else if |bytes| == 1 then Fail(Error)
    else if bytes[1] <= 0x7f then if 2 + bytes[1] > |bytes| then Fail(Error) else Ok(bytes[2..])
    else if bytes[1] > 0x83 then Fail(Error)
    else if bytes[1] == 0x80 then Ok(bytes[2..])
    else if bytes[1] == 0x81 then
      if |bytes| < 3 then Fail(Panic) else if 3 + bytes[2] > |bytes| then Fail(Error) else Ok(bytes[3..])
    else if bytes[1] == 0x82 then
      if |bytes| < 4 then Fail(Panic) else if 4 + bytes[2] * 256 + bytes[3] > |bytes| then Fail(Error) else Ok(bytes[4..])
    else
      if |bytes| < 5 then Fail(Panic)
      else if 5 + bytes[2] * 65536 + bytes[3] * 256 + bytes[4] > |bytes| then Fail(Error) else Ok(bytes[5..])
  }

  lemma BigEndianOfThree(s: seq<byte>)
    ensures |s| == 0 ==> BigEndian(s) == 0
    ensures |s| == 1 ==> BigEndian(s) == s[0]
    ensures |s| == 2 ==> BigEndian(s) == s[0] as int * 256 + s[1]
    ensures |s| == 3 ==> BigEndian(s) == s[0] as int * 65536 + s[1] as int * 256 + s[2]
  {
    if |s| == 3 {
      assert s[..2][..1] == [s[0]];
      assert BigEndian(s[..2]) == s[0] as int * 256 + s[1];
    } else if |s| == 2 {
      assert BigEndian(s[..1]) == s[0];
    }
  }

  lemma ContentsRead(bytes: seq<byte>)
    requires bytes != [] ==> bytes[0] % 32 != 31
    ensures var h, c := Start(bytes), ContentsOf(bytes);
            if c.Fail? then h == Fail(c.failure) else h.Ok? && bytes[h.value.size..] == c.value
  {
    if |bytes| >= 2 && 0x80 <= bytes[1] <= 0x83 && 2 + (bytes[1] - 0x80) <= |bytes| {
      BigEndianOfThree(bytes[2..2 + (bytes[1] - 0x80)]);
    }
    hide BigEndian;
  }

  /** Decoding a primitive ignores class, tag number and the constructed bit. Any octet but zero is true, a bit string
      counts its bits in a 64-bit word, an integer is its octets unsigned in a 64-bit word, and booleans and bit strings
      without contents panic. */
  lemma PrimitiveDecoded(s: Schema, p: Params, bytes: seq<byte>)
    requires Primitive(s) && (bytes != [] ==> bytes[0] % 32 != 31)
    ensures var contents := ContentsOf(bytes);
            Unmarshal(s, p, bytes) ==
            if contents.Fail? then Fail(contents.failure)
            else
              var c := contents.value;
              match s
              case SOctets => Ok(VOctets(c))
              case SString => Ok(VString(c))
              case SBool => if c == [] then Fail(Panic) else Ok(VBool(c[0] != 0))
              case SBits => if c == [] then Fail(Panic) else Ok(VBits(c[1..], (8 * (|c| - 1) - c[0]) % TWO_64))
              case _ => if |c| > 8 then Fail(Error) else Ok(VInt(I64(BigEndian(c))))
  {
    ContentsRead(bytes);
    hide Start, ContentsOf, BigEndian, I64;
  }
}
