/**
 * A CHOICE under a tag is decoded from where its inner header would end if it came first. For alternatives that hold
 * octets this says exactly which values come back.
 */
module BerTaggedChoice {
  import opened Bytes
  import opened Results
  import opened BerHeader
  import opened BerTypes
  import opened BerMarshal
  import opened BerUnmarshal
  import opened BerMembers
  import opened BerRoundTrip
  import opened BerLimits

  /** Octet strings and character strings, behind any pointers and wrappers: their contents are kept as they are. */
  predicate OctetsLike(s: Schema) {
    match s
    case SOctets | SString => true
    case SPtr(e) => OctetsLike(e)
    case SWrap(e) => OctetsLike(e)
    case _ => false
  }

  /** The value of such a type that holds the octets o. */
  function OctetsIn(s: Schema, o: seq<byte>): Value
    requires OctetsLike(s)
  {
    match s
    case SOctets => VOctets(o)
    case SString => VString(o)
    case SPtr(e) => VPtr(OctetsIn(e, o))
    case SWrap(e) => VWrap(OctetsIn(e, o))
  }

  /** The choice of the octets o as alternative k. */
  function OctetsChosen(alts: seq<Field>, k: nat, o: seq<byte>): Value
    requires k < |alts| && OctetsLike(alts[k].schema)
  {
    VChoice(k + 1, Zeros(alts)[k := OctetsIn(alts[k].schema, o)])
  }

  lemma {:induction false} OctetsBuilt(s: Schema, p: Params, o: seq<byte>)
    requires OctetsLike(s) && PlainTag(p)
    ensures var b := Build(s, p, OctetsIn(s, o));
            b.Ok? && Octs(b.value) == HeaderOctets(TagAndLen(CLASS_CONTEXT, false, p.tag.value, |o|)) + o
  {
    hide HeaderOctets;
    if s.SPtr? || s.SWrap? {
      OctetsBuilt(s.elem, p, o);
    } else {
      var content := if s.SOctets? then EBytes(o) else EString(o);
      var head := EBytes(HeaderOctets(TagAndLen(CLASS_CONTEXT, false, p.tag.value, |o|)));
      assert Build(s, p, OctetsIn(s, o)) == Ok(EBer(head, content));
      assert Octs(EBer(head, content)) == head.bytes + Octs(content);
    }
  }

  /** Such a type takes everything behind the header. */
  lemma {:induction false} OctetsParse(s: Schema, p: Params, t: Value, bytes: seq<byte>)
    requires OctetsLike(s)
    ensures Parse(s, p, t, bytes) ==
            if Start(bytes).Ok? then Ok(OctetsIn(s, bytes[Start(bytes).value.size..])) else Fail(Start(bytes).failure)
    decreases s
  {
    hide Start;
    if s.SPtr? {
      OctetsParse(s.elem, p, Zero(s.elem), bytes);
    } else if s.SWrap? {
      OctetsParse(s.elem, p, if t.VWrap? then t.inner else Zero(s.elem), bytes);
    }
  }

  lemma {:induction false} OctetsInDistinct(s: Schema, a: seq<byte>, b: seq<byte>)
    requires OctetsLike(s)
    ensures OctetsIn(s, a) == OctetsIn(s, b) <==> a == b
  {
    if s.SPtr? || s.SWrap? {
      OctetsInDistinct(s.elem, a, b);
    }
  }

  /** The headers around and inside a tagged choice of an octet string. */
  function InnerHead(alts: seq<Field>, k: nat, o: seq<byte>): seq<byte>
    requires k < |alts| && alts[k].params.tag.Some?
  {
    HeaderOctets(TagAndLen(CLASS_CONTEXT, false, alts[k].params.tag.value, |o|))
  }

  function OuterHead(alts: seq<Field>, p: Params, k: nat, o: seq<byte>): seq<byte>
    requires k < |alts| && alts[k].params.tag.Some? && p.tag.Some?
  {
    HeaderOctets(TagAndLen(CLASS_CONTEXT, true, p.tag.value, |InnerHead(alts, k, o)| + |o|))
  }

  predicate OctetsUnderTag(alts: seq<Field>, p: Params, k: nat, o: seq<byte>) {
    && k < |alts| && OctetsLike(alts[k].schema) && PlainTag(alts[k].params) && ChosenByTag(alts, k) && PlainTag(p)
    && |InnerHead(alts, k, o)| + |o| < MAX_LENGTH
  }

  lemma TaggedOctetsMarshal(alts: seq<Field>, p: Params, k: nat, o: seq<byte>)
    requires OctetsUnderTag(alts, p, k, o)
    ensures Marshal(SChoice(alts), p, OctetsChosen(alts, k, o)) == Ok(OuterHead(alts, p, k, o) + (InnerHead(alts, k, o) + o))
  {
    hide HeaderOctets, ChosenByTag, OctetsLike, OctetsIn;
    var v := OctetsChosen(alts, k, o);
    assert v.alts[k] == OctetsIn(alts[k].schema, o);
    OctetsBuilt(alts[k].schema, alts[k].params, o);
    var built := Build(alts[k].schema, alts[k].params, v.alts[k]);
    assert Octs(built.value) == InnerHead(alts, k, o) + o;
    assert Build(SChoice(alts), p, v) == Ok(EBer(EBytes(OuterHead(alts, p, k, o)), built.value));
    hide Build, OuterHead, InnerHead;
    assert Octs(EBer(EBytes(OuterHead(alts, p, k, o)), built.value)) == OuterHead(alts, p, k, o) + Octs(built.value);
  }

  lemma ChoiceParses(alts: seq<Field>, p: Params, bytes: seq<byte>, m: seq<byte>)
    requires p.tag.Some? && ParseHeader(m).Ok? && Start(bytes).Ok? && bytes[Start(bytes).value.size..] == m
    requires ParseHeader(m).value.size + ParseHeader(m).value.tal.len <= |bytes|
    ensures Parse(SChoice(alts), p, Zero(SChoice(alts)), bytes) ==
            ParseAlt(alts, Zeros(alts), ParseHeader(m).value.tal.tagNumber, bytes[ParseHeader(m).value.size..])
  {
    hide Start, ParseHeader, ParseAlt;
  }

  lemma HeadsRead(alts: seq<Field>, p: Params, k: nat, o: seq<byte>)
    requires OctetsUnderTag(alts, p, k, o)
    ensures var inner, outer := InnerHead(alts, k, o), OuterHead(alts, p, k, o);
            && ParseHeader(inner + o) == Ok(Header(TagAndLen(CLASS_CONTEXT, false, alts[k].params.tag.value, |o|), |inner|))
            && Start(inner + o).Ok? && Start(inner + o).value.size == |inner|
            && Start(outer + (inner + o)).Ok? && Start(outer + (inner + o)).value.size == |outer|
  {
    hide ChosenByTag, HeaderOctets, ParseHeader, Start;
    var inner := InnerHead(alts, k, o);
    StartOf(TagAndLen(CLASS_CONTEXT, false, alts[k].params.tag.value, |o|), o);
    StartOf(TagAndLen(CLASS_CONTEXT, true, p.tag.value, |inner| + |o|), inner + o);
  }

  /** Parsing resumes where the inner header would end if it came first. */
  lemma TaggedOctetsParse(alts: seq<Field>, p: Params, k: nat, o: seq<byte>)
    requires OctetsUnderTag(alts, p, k, o)
    ensures var inner := InnerHead(alts, k, o);
            var bytes := OuterHead(alts, p, k, o) + (inner + o);
            Unmarshal(SChoice(alts), p, bytes) == ParseAlt(alts, Zeros(alts), alts[k].params.tag.value, bytes[|inner|..])
  {
    HeadsRead(alts, p, k, o);
    hide HeaderOctets, ChosenByTag, ParseHeader, ParseAlt, Start, Parse, Zero, InnerHead, OuterHead;
    var inner, outer := InnerHead(alts, k, o), OuterHead(alts, p, k, o);
    DropHeads(outer, inner, o, |outer|);
    ChoiceParses(alts, p, outer + (inner + o), inner + o);
  }

  lemma OctetsParsed(alts: seq<Field>, k: nat, o: seq<byte>, tail: seq<byte>)
    requires k < |alts| && OctetsLike(alts[k].schema) && alts[k].params.tag.Some? && ChosenByTag(alts, k)
    ensures ParseAlt(alts, Zeros(alts), alts[k].params.tag.value, tail) == Ok(OctetsChosen(alts, k, o)) <==>
            Start(tail).Ok? && tail[Start(tail).value.size..] == o
  {
    hide Start, Parse, OctetsLike, OctetsIn;
    var s := alts[k].schema;
    OctetsParse(s, alts[k].params, Zeros(alts)[k], tail);
    if Start(tail).Ok? {
      var got := tail[Start(tail).value.size..];
      OctetsInDistinct(s, got, o);
      if Zeros(alts)[k := OctetsIn(s, got)] == Zeros(alts)[k := OctetsIn(s, o)] {
        assert Zeros(alts)[k := OctetsIn(s, got)][k] == OctetsIn(s, o);
      }
    }
  }

  /** A tagged choice of an octet string comes back if and only if what is read as its header there is as long
      as the outer header. */
  lemma TaggedOctetsExact(alts: seq<Field>, p: Params, k: nat, o: seq<byte>)
    requires OctetsUnderTag(alts, p, k, o)
    ensures var inner, outer := InnerHead(alts, k, o), OuterHead(alts, p, k, o);
            var bytes := outer + (inner + o);
            var start := Start(bytes[|inner|..]);
            && Marshal(SChoice(alts), p, OctetsChosen(alts, k, o)) == Ok(bytes)
            && (Unmarshal(SChoice(alts), p, bytes) == Ok(OctetsChosen(alts, k, o)) <==> start.Ok? && start.value.size == |outer|)
  {
    TaggedOctetsMarshal(alts, p, k, o);
    TaggedOctetsParse(alts, p, k, o);
    hide Start, ParseAlt, InnerHead, OuterHead, Unmarshal, Marshal, OctetsChosen, ChosenByTag;
    var inner, outer := InnerHead(alts, k, o), OuterHead(alts, p, k, o);
    var tail := (outer + (inner + o))[|inner|..];
    OctetsParsed(alts, k, o, tail);
    if Start(tail).Ok? {
      DropHeads(outer, inner, o, Start(tail).value.size);
    }
  }

  /** Headers of low tags: one identifier octet and the length octets. */
  lemma LowTagHead(t: TagAndLen)
    requires t.cls == CLASS_CONTEXT && t.tagNumber <= 30
    ensures var h := HeaderOctets(t);
            && h[0] == (if t.constructed then 160 else 128) + t.tagNumber && h[1..] == LenOctets(t.len)
            && (t.len > 127 ==> h[|h| - 1] == t.len % 256)
  {
    if t.len > 127 { LastLenOctet(t.len); }
    hide LenOctets;
  }

  /** The length octets of an inner and an outer header differ by one at most. */
  lemma LengthsStep(len: nat)
    requires 1 + |LenOctets(len)| + len < MAX_LENGTH
    ensures |LenOctets(len)| <= |LenOctets(1 + |LenOctets(len)| + len)| <= |LenOctets(len)| + 1
    ensures |LenOctets(1 + |LenOctets(len)| + len)| > 1 ==> 1 + |LenOctets(len)| + len > 127
  {
    LenOctetsSize(len);
    LenOctetsSize(1 + |LenOctets(len)| + len);
    hide LenOctets;
  }

  /** Low tags: the outer header is as long as the inner one or has one octet more, the last of its length. */
  lemma LowTagHeads(alts: seq<Field>, p: Params, k: nat, o: seq<byte>)
    requires OctetsUnderTag(alts, p, k, o) && alts[k].params.tag.value <= 30 && p.tag.value <= 30
    ensures var inner, outer := InnerHead(alts, k, o), OuterHead(alts, p, k, o);
            && inner[0] == 128 + alts[k].params.tag.value && inner[1..] == LenOctets(|o|)
            && |outer| == 1 + |LenOctets(|inner| + |o|)|
            && |inner| <= |outer| <= |inner| + 1
            && (|outer| > |inner| ==> outer[|inner|] == (|inner| + |o|) % 256)
  {
    hide HeaderOctets, LenOctets, ChosenByTag;
    var inner := InnerHead(alts, k, o);
    LowTagHead(TagAndLen(CLASS_CONTEXT, false, alts[k].params.tag.value, |o|));
    LowTagHead(TagAndLen(CLASS_CONTEXT, true, p.tag.value, |inner| + |o|));
    assert |inner| == 1 + |LenOctets(|o|)|;
    LengthsStep(|o|);
  }

  lemma LastLenOctet(len: nat)
    requires 127 < len
    ensures LenOctets(len)[|LenOctets(len)| - 1] == len % 256
  {
  }

  /** The second octet of an inner header in long form announces its size. */
  lemma LongFormOctet(len: nat)
    requires 127 < len < MAX_LENGTH
    ensures LenOctets(len)[0] == 127 + |LenOctets(len)|
  {
    LenOctetsSize(len);
  }

  /** What is read one octet before the inner TLV, the last octet of the outer header taken as identifier and the
      identifier of the inner header as length. */
  lemma MisreadHeader(bytes: seq<byte>, tag: nat, n: nat)
    requires 1 <= n <= 3 && |bytes| >= 5 && tag <= 30 && bytes[0] % 32 != 31 && bytes[1] == 128 + tag
    ensures var r := Start(bytes);
            r.Ok? && r.value.size == 2 + n <==> tag == n && 2 + n + BigEndian(bytes[2..2 + n]) <= |bytes|
  {
    hide BigEndian;
  }

  /** The length octets of an octet string, read as a number. */
  lemma LenOctetsValue(len: nat)
    requires len < MAX_LENGTH
    ensures var s := LenOctets(len);
            if len <= 127 then |s| == 1 && BigEndian(s) == len
            else if len <= 255 then |s| == 2 && BigEndian(s) >= 0x8000
            else if len <= 65535 then |s| == 3 && BigEndian(s) >= 0x80_0000
            else |s| == 4
  {
    LenOctetsSize(len);
    var s := LenOctets(len);
    if len <= 127 {
      OneOctetValue(s);
    } else {
      LongFormOctet(len);
      if len <= 65535 {
        hide BigEndian;
        TwoOctets(s);
      }
    }
  }

  lemma TwoOctets(s: seq<byte>)
    requires 2 <= |s| <= 3
    ensures |s| == 2 ==> BigEndian(s) == 256 * BigEndian(s[..1]) + s[1] && BigEndian(s[..1]) == s[0]
    ensures |s| == 3 ==> BigEndian(s) >= 65536 * BigEndian(s[..1]) && BigEndian(s[..1]) == s[0]
  {
    OneOctetValue(s[..1]);
    assert s[..2][..1] == s[..1];
  }

  /** Which octet string lengths make the misread length fit, when the outer header is one octet longer. */
  lemma MisreadLengths(len: nat, tag: nat)
    requires 1 + |LenOctets(len)| + len < MAX_LENGTH && |LenOctets(1 + |LenOctets(len)| + len)| == |LenOctets(len)| + 1
    ensures |LenOctets(len)| <= 3
    ensures tag == |LenOctets(len)| && BigEndian(LenOctets(len)) <= len <==> tag == 1 && (len == 126 || len == 127)
    ensures (1 + |LenOctets(len)| + len) % 256 % 32 != 31 && len >= 126
  {
    LenOctetsSize(1 + |LenOctets(len)| + len);
    LenOctetsValue(len);
    hide LenOctets, BigEndian;
  }

  /** The octets around the join of two headers. */
  lemma Joined(outer: seq<byte>, inner: seq<byte>, o: seq<byte>)
    requires |outer| == |inner| + 1 && |inner| >= 2
    ensures var tail := (outer + (inner + o))[|inner|..];
            && |tail| == 1 + |inner| + |o| && tail[0] == outer[|inner|] && tail[1] == inner[0]
            && tail[2..1 + |inner|] == inner[1..]
  {
  }

  lemma LongerOuterHead(outer: seq<byte>, inner: seq<byte>, o: seq<byte>, tag: nat)
    requires |outer| == |inner| + 1 == 1 + |LenOctets(|inner| + |o|)| && |inner| + |o| < MAX_LENGTH && tag <= 30
    requires |inner| >= 1 && inner[0] == 128 + tag && inner[1..] == LenOctets(|o|)
    requires outer[|inner|] == (|inner| + |o|) % 256
    ensures var start := Start((outer + (inner + o))[|inner|..]);
            start.Ok? && start.value.size == |outer| <==> tag == 1 && (|o| == 126 || |o| == 127)
  {
    hide LenOctets, Start, BigEndian;
    assert |inner| == 1 + |LenOctets(|o|)|;
    MisreadLengths(|o|, tag);
    Joined(outer, inner, o);
    MisreadHeader((outer + (inner + o))[|inner|..], tag, |inner| - 1);
  }

  /** When the misread header is as long as the outer one. */
  lemma TailFits(alts: seq<Field>, p: Params, k: nat, o: seq<byte>)
    requires OctetsUnderTag(alts, p, k, o) && alts[k].params.tag.value <= 30 && p.tag.value <= 30
    ensures var inner, outer := InnerHead(alts, k, o), OuterHead(alts, p, k, o);
            var start := Start((outer + (inner + o))[|inner|..]);
            start.Ok? && start.value.size == |outer| <==>
            |outer| == |inner| || (alts[k].params.tag.value == 1 && (|o| == 126 || |o| == 127))
  {
    hide InnerHead, OuterHead, LenOctets, Start, Build;
    HeadLengths(alts, p, k, o);
    LowTagHeads(alts, p, k, o);
    var inner, outer := InnerHead(alts, k, o), OuterHead(alts, p, k, o);
    if |outer| == |inner| {
      SameHeads(alts, p, k, o);
    } else {
      LongerOuterHead(outer, inner, o, alts[k].params.tag.value);
    }
  }

  lemma SameHeads(alts: seq<Field>, p: Params, k: nat, o: seq<byte>)
    requires OctetsUnderTag(alts, p, k, o) && |OuterHead(alts, p, k, o)| == |InnerHead(alts, k, o)|
    ensures var inner, outer := InnerHead(alts, k, o), OuterHead(alts, p, k, o);
            var start := Start((outer + (inner + o))[|inner|..]);
            start.Ok? && start.value.size == |outer|
  {
    hide HeaderOctets, ParseHeader, Start, ChosenByTag;
    StartOf(TagAndLen(CLASS_CONTEXT, false, alts[k].params.tag.value, |o|), o);
    DropHeads(OuterHead(alts, p, k, o), InnerHead(alts, k, o), o, 0);
  }

  /** Lengths at which the outer header takes a longer form than the inner one. */
  predicate LongerOutside(len: nat) { 126 <= len <= 127 || 253 <= len <= 255 || 65532 <= len <= 65535 }

  lemma LongerOutsideIff(len: nat)
    requires 1 + |LenOctets(len)| + len < MAX_LENGTH
    ensures |LenOctets(1 + |LenOctets(len)| + len)| > |LenOctets(len)| <==> LongerOutside(len)
  {
    LenOctetsSize(len);
    LenOctetsSize(1 + |LenOctets(len)| + len);
    hide LenOctets;
  }

  /** The lengths at which octets under inner tag `tag` come back from behind an outer tag. */
  predicate ReturnsUnderTag(tag: nat, len: nat) { !LongerOutside(len) || (tag == 1 && len <= 127) }

  /**
   * Octet and character strings under low tags: the value comes back exactly when both headers are equally long, or
   * when the inner tag is 1 and there are 126 or 127 octets, where the misread header happens to fit.
   */
  lemma TaggedOctetsLowTags(alts: seq<Field>, p: Params, k: nat, o: seq<byte>)
    requires OctetsUnderTag(alts, p, k, o) && alts[k].params.tag.value <= 30 && p.tag.value <= 30
    ensures var r := Marshal(SChoice(alts), p, OctetsChosen(alts, k, o));
            && r.Ok? && IsTlv(r.value) && MemberTag(r.value) == p.tag.value
            && (Unmarshal(SChoice(alts), p, r.value) == Ok(OctetsChosen(alts, k, o)) <==> ReturnsUnderTag(alts[k].params.tag.value, |o|))
  {
    hide InnerHead, OuterHead, Start, Unmarshal, Marshal, OctetsUnderTag, OctetsChosen, LenOctets, ParseHeader;
    TaggedOctetsExact(alts, p, k, o);
    TailFits(alts, p, k, o);
    LowTagHeads(alts, p, k, o);
    HeadLengths(alts, p, k, o);
    LongerOutsideIff(|o|);
    OuterIsTlv(alts, p, k, o);
  }

  lemma HeadLengths(alts: seq<Field>, p: Params, k: nat, o: seq<byte>)
    requires OctetsUnderTag(alts, p, k, o) && alts[k].params.tag.value <= 30
    ensures |InnerHead(alts, k, o)| == 1 + |LenOctets(|o|)| && |InnerHead(alts, k, o)| + |o| < MAX_LENGTH
  {
    hide LenOctets, ChosenByTag;
    LowTagHead(TagAndLen(CLASS_CONTEXT, false, alts[k].params.tag.value, |o|));
  }

  lemma OuterIsTlv(alts: seq<Field>, p: Params, k: nat, o: seq<byte>)
    requires OctetsUnderTag(alts, p, k, o)
    ensures var m := OuterHead(alts, p, k, o) + (InnerHead(alts, k, o) + o); IsTlv(m) && MemberTag(m) == p.tag.value
  {
    hide HeaderOctets, ParseHeader, ChosenByTag;
    StartOf(TagAndLen(CLASS_CONTEXT, true, p.tag.value, |InnerHead(alts, k, o)| + |o|), InnerHead(alts, k, o) + o);
  }
}
