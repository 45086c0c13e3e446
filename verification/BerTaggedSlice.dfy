/**
 * A slice under a tag hands the tag on to its elements, which were encoded without it: a CHOICE element is looked for
 * behind its own header. For alternatives that hold octets this says exactly which slices come back.
 */
module BerTaggedSlice {
  import opened Bytes
  import opened Results
  import opened BerHeader
  import opened BerTypes
  import opened BerMarshal
  import opened BerUnmarshal
  import opened BerMembers
  import opened BerRoundTrip
  import opened BerLimits
  import opened BerTaggedChoice
  import opened BerTaggedAlternative
  import opened BerScalars
  import opened Words

  // ---------------------------------------------------------------- slices, element by element

  lemma {:induction false} ElemsEmittedUntagged(e: Schema, p: Params, vs: seq<Value>)
    ensures EmittedElems(e, p, vs) == EmittedElems(e, p.(tag := None), vs)
  {
    if vs != [] {
      ElemsEmittedUntagged(e, p, vs[..|vs| - 1]);
    }
  }

  lemma {:induction false} FirstElem(e: Schema, p: Params, vs: seq<Value>)
    requires vs != [] && Marshal(e, p.(tag := None), vs[0]).Ok?
    ensures |EmittedElems(e, p, vs)| == |vs| && EmittedElems(e, p, vs)[0] == Marshal(e, p.(tag := None), vs[0]).value
  {
    hide Marshal;
    if |vs| > 1 {
      FirstElem(e, p, vs[..|vs| - 1]);
    } else {
      assert vs[..0] == [];
    }
  }

  /** Under a tag a choice looks for its alternative behind its own header. */
  lemma ChoiceLooksInside(alts: seq<Field>, p: Params, m: seq<byte>)
    requires p.tag.Some? && IsTlv(m) && |m| <= ParseHeader(m).value.size + 1
    ensures Parse(SChoice(alts), p, Zero(SChoice(alts)), m).Fail?
  {
    var h := ParseHeader(m).value;
    assert |m[h.size..]| <= 1;
    assert ParseHeader(m[h.size..]).Fail?;
    hide ParseHeader;
  }

  /** A tagged slice of choices whose first element has at most one octet of contents is not even decoded: the tag
      is handed on to the elements, which were encoded without it. */
  lemma TaggedSliceOfChoiceFails(alts: seq<Field>, p: Params, vs: seq<Value>)
    requires PlainTag(p) && vs != [] && forall k :: 0 <= k < |vs| ==> Survives(SChoice(alts), p.(tag := None), vs[k])
    requires ContentSize(Build(SChoice(alts), p.(tag := None), vs[0])) <= 1
    requires ContentSize(Build(SSlice(SChoice(alts)), p, VSlice(vs))) < MAX_LENGTH
    ensures var r := Marshal(SSlice(SChoice(alts)), p, VSlice(vs));
            r.Ok? && Unmarshal(SSlice(SChoice(alts)), p, r.value).Fail?
  {
    hide Survives, Build, Parse, HeaderOctets, ParseHeader, IsTlv;
    var e, q := SChoice(alts), p.(tag := None);
    ElemsEncode(e, q, vs);
    var parts := BuildElems(e, q, vs).value;
    SliceBuilt(e, p, vs);
    ElemsRoundTrip(e, q, vs);
    ElemsEmittedUntagged(e, p, vs);
    var ms := EmittedElems(e, p, vs);
    FirstElemSmall(e, q, vs[0]);
    FirstElem(e, p, vs);
    ChoiceLooksInside(alts, p, ms[0]);
    FirstFails(e, p, ms);
    var tal := TagAndLen(CLASS_CONTEXT, true, p.tag.value, |AllOcts(parts)|);
    StartOf(tal, AllOcts(parts));
    SliceUnmarshalled(e, p, HeaderOctets(tal), ms);
  }

  lemma SliceBuilt(e: Schema, p: Params, vs: seq<Value>)
    requires PlainTag(p) && BuildElems(e, p.(tag := None), vs).Ok?
    ensures var parts := BuildElems(e, p.(tag := None), vs).value;
            && Marshal(SSlice(e), p, VSlice(vs)) == Ok(HeaderOctets(TagAndLen(CLASS_CONTEXT, true, p.tag.value, |AllOcts(parts)|)) + AllOcts(parts))
            && ContentSize(Build(SSlice(e), p, VSlice(vs))) == |AllOcts(parts)|
  {
    hide HeaderOctets;
    var parts := BuildElems(e, p.(tag := None), vs).value;
    var head := HeaderOctets(TagAndLen(CLASS_CONTEXT, true, p.tag.value, |AllOcts(parts)|));
    assert Build(SSlice(e), p, VSlice(vs)) == Ok(EBer(EBytes(head), EStruct(parts)));
    hide Build;
    assert Octs(EStruct(parts)) == AllOcts(parts);
    assert Octs(EBer(EBytes(head), EStruct(parts))) == head + Octs(EStruct(parts));
  }

  lemma FirstElemSmall(e: Schema, q: Params, v: Value)
    requires Survives(e, q, v) && ContentSize(Build(e, q, v)) <= 1
    ensures var m := Marshal(e, q, v); m.Ok? && IsTlv(m.value) && |m.value| <= ParseHeader(m.value).value.size + 1
  {
    hide Survives, Build, HeaderOctets;
    var tal := Encodes(e, q, v);
    ReadsHeader(Build(e, q, v).value, tal);
    hide ParseHeader;
  }

  lemma {:induction false} FirstFails(e: Schema, p: Params, ms: seq<seq<byte>>)
    requires ms != [] && Parse(e, p, Zero(e), ms[0]).Fail?
    ensures ParseElems(e, p, ms).Fail?
  {
    hide Parse;
    if |ms| > 1 {
      FirstFails(e, p, ms[..|ms| - 1]);
    } else {
      assert ms[..0] == [];
    }
  }

  lemma SliceUnmarshalled(e: Schema, p: Params, hdr: seq<byte>, ms: seq<seq<byte>>)
    requires AllTlv(ms) && Start(hdr + Concat(ms)).Ok? && Start(hdr + Concat(ms)).value.size == |hdr|
    requires ParseElems(e, p, ms).Fail?
    ensures Unmarshal(SSlice(e), p, hdr + Concat(ms)).Fail?
  {
    hide Start, ParseElems, AllTlv;
    var bytes := hdr + Concat(ms);
    assert bytes[|hdr|..] == Concat(ms);
    SplitMembers(bytes, |hdr|, ms);
    hide Split;
  }

  // ---------------------------------------------------------------- exactly

  /** The encoding of an element. */
  function Element(e: Schema, p: Params, v: Value): Result<seq<byte>> { Marshal(e, p.(tag := None), v) }

  predicate ElementEncoded(e: Schema, p: Params, v: Value) { Element(e, p, v).Ok? && IsTlv(Element(e, p, v).value) }

  /** The element comes back under the parameters of the slice. */
  predicate ElementReturns(e: Schema, p: Params, v: Value) {
    Element(e, p, v).Ok? && Parse(e, p, Zero(e), Element(e, p, v).value) == Ok(v)
  }

  lemma {:induction false} ElementsBuilt(e: Schema, p: Params, vs: seq<Value>)
    requires forall k :: 0 <= k < |vs| ==> ElementEncoded(e, p, vs[k])
    ensures BuildElems(e, p.(tag := None), vs).Ok?
    ensures AllTlv(EmittedElems(e, p, vs)) && Concat(EmittedElems(e, p, vs)) == AllOcts(BuildElems(e, p.(tag := None), vs).value)
  {
    hide Build, IsTlv;
    if vs != [] {
      var n := |vs| - 1;
      ElementsBuilt(e, p, vs[..n]);
      assert ElementEncoded(e, p, vs[n]);
      LastElem(e, p, vs);
      hide BuildElems, Marshal, AllOcts;
      AllTlvSnoc(EmittedElems(e, p, vs[..n]), Element(e, p, vs[n]).value);
      ConcatSnoc(EmittedElems(e, p, vs[..n]), Element(e, p, vs[n]).value);
    }
  }

  lemma ConcatSnoc(ms: seq<seq<byte>>, m: seq<byte>)
    ensures Concat(ms + [m]) == Concat(ms) + m
  {
    assert (ms + [m])[..|ms|] == ms;
  }

  /** The elements come back exactly if each of them does. */
  lemma {:induction false} ElementsReturnIff(e: Schema, p: Params, vs: seq<Value>)
    requires forall k :: 0 <= k < |vs| ==> ElementEncoded(e, p, vs[k])
    ensures ParseElems(e, p, EmittedElems(e, p, vs)) == Ok(vs) <==> forall k :: 0 <= k < |vs| ==> ElementReturns(e, p, vs[k])
  {
    hide Parse, Marshal, IsTlv;
    if vs != [] {
      var n := |vs| - 1;
      ElementsReturnIff(e, p, vs[..n]);
      assert ElementEncoded(e, p, vs[n]);
      var ms, m := EmittedElems(e, p, vs[..n]), Element(e, p, vs[n]).value;
      assert EmittedElems(e, p, vs) == ms + [m];
      LastReturns(e, p, ms, m, vs);
      assert forall k :: 0 <= k < n ==> vs[..n][k] == vs[k];
    }
  }

  lemma LastReturns(e: Schema, p: Params, ms: seq<seq<byte>>, m: seq<byte>, vs: seq<Value>)
    requires vs != []
    ensures ParseElems(e, p, ms + [m]) == Ok(vs) <==>
            ParseElems(e, p, ms) == Ok(vs[..|vs| - 1]) && Parse(e, p, Zero(e), m) == Ok(vs[|vs| - 1])
  {
    hide Parse;
    assert (ms + [m])[..|ms|] == ms;
    var n := |vs| - 1;
    assert vs == vs[..n] + [vs[n]];
    var before, last := ParseElems(e, p, ms), Parse(e, p, Zero(e), m);
    if before.Ok? && last.Ok? && before.value + [last.value] == vs {
      assert before.value == (before.value + [last.value])[..n] && last.value == (before.value + [last.value])[n];
    }
  }

  lemma SliceUnmarshalledAs(e: Schema, p: Params, hdr: seq<byte>, ms: seq<seq<byte>>)
    requires AllTlv(ms) && Start(hdr + Concat(ms)).Ok? && Start(hdr + Concat(ms)).value.size == |hdr|
    ensures var r := ParseElems(e, p, ms);
            Unmarshal(SSlice(e), p, hdr + Concat(ms)) == if r.Ok? then Ok(VSlice(r.value)) else Fail(r.failure)
  {
    hide Start, ParseElems, AllTlv;
    var bytes := hdr + Concat(ms);
    assert bytes[|hdr|..] == Concat(ms);
    SplitMembers(bytes, |hdr|, ms);
    hide Split;
  }

  /** A tagged slice of encoded elements comes back if and only if each element does under the tag of the slice. */
  lemma SliceExact(e: Schema, p: Params, vs: seq<Value>)
    requires PlainTag(p) && forall k :: 0 <= k < |vs| ==> ElementEncoded(e, p, vs[k])
    requires ContentSize(Build(SSlice(e), p, VSlice(vs))) < MAX_LENGTH
    ensures var m := Marshal(SSlice(e), p, VSlice(vs));
            && m.Ok?
            && (Unmarshal(SSlice(e), p, m.value) == Ok(VSlice(vs)) <==> forall k :: 0 <= k < |vs| ==> ElementReturns(e, p, vs[k]))
  {
    hide HeaderOctets, ParseHeader, ElementEncoded, ElementReturns, Unmarshal, Marshal, Build, BuildElems, ParseElems, AllTlv, Concat, Start, EmittedElems;
    ElementsBuilt(e, p, vs);
    SliceBuilt(e, p, vs);
    ElementsReturnIff(e, p, vs);
    var ms := EmittedElems(e, p, vs);
    var tal := TagAndLen(CLASS_CONTEXT, true, p.tag.value, |Concat(ms)|);
    StartOf(tal, Concat(ms));
    SliceUnmarshalledAs(e, p, HeaderOctets(tal), ms);
  }

  // ---------------------------------------------------------------- choices of octets as elements

  predicate OctetsElement(alts: seq<Field>, k: nat, o: seq<byte>) {
    && k < |alts| && OctetsLike(alts[k].schema) && PlainTag(alts[k].params) && ChosenByTag(alts, k) && |o| < MAX_LENGTH
  }

  lemma ElementMarshalled(alts: seq<Field>, p: Params, k: nat, o: seq<byte>)
    requires OctetsElement(alts, k, o)
    ensures Element(SChoice(alts), p, OctetsChosen(alts, k, o)) == Ok(InnerHead(alts, k, o) + o)
    ensures ElementEncoded(SChoice(alts), p, OctetsChosen(alts, k, o))
    ensures Start(InnerHead(alts, k, o) + o).Ok? && Start(InnerHead(alts, k, o) + o).value.size == |InnerHead(alts, k, o)|
  {
    hide HeaderOctets, ChosenByTag, OctetsLike, OctetsIn, ParseHeader, Start;
    var v := OctetsChosen(alts, k, o);
    assert v.alts[k] == OctetsIn(alts[k].schema, o);
    OctetsBuilt(alts[k].schema, alts[k].params, o);
    assert Build(SChoice(alts), p.(tag := None), v) == Build(alts[k].schema, alts[k].params, v.alts[k]);
    StartOf(TagAndLen(CLASS_CONTEXT, false, alts[k].params.tag.value, |o|), o);
  }

  /** The octets themselves start with what reads as a header under the tag of the alternative, and behind it in the
      element stands another; together they are as long as the header of the element. */
  predicate ReadsAsHeaders(alts: seq<Field>, k: nat, o: seq<byte>)
    requires k < |alts| && alts[k].params.tag.Some?
  {
    var m, h1 := InnerHead(alts, k, o) + o, ParseHeader(o);
    && h1.Ok? && h1.value.tal.tagNumber == alts[k].params.tag.value && h1.value.size + h1.value.tal.len <= |m|
    && Start(m[h1.value.size..]).Ok? && h1.value.size + Start(m[h1.value.size..]).value.size == |InnerHead(alts, k, o)|
  }

  /** The alternative that the tag inside leads to. */
  lemma LedTo(alts: seq<Field>, k: nat, tag: nat)
    requires k < |alts| && alts[k].params.tag.Some? && ChosenByTag(alts, k)
    ensures FindAlt(alts, 0, tag) == Ok(k) <==> tag == alts[k].params.tag.value
  {
  }

  lemma ElementParsed(alts: seq<Field>, p: Params, bytes: seq<byte>, o: seq<byte>)
    requires p.tag.Some? && Start(bytes).Ok? && bytes[Start(bytes).value.size..] == o
    ensures var r, h := Parse(SChoice(alts), p, Zero(SChoice(alts)), bytes), ParseHeader(o);
            if h.Ok? && h.value.size + h.value.tal.len <= |bytes|
            then r == ParseAlt(alts, Zeros(alts), h.value.tal.tagNumber, bytes[h.value.size..]) else r.Fail?
  {
    hide Start, ParseHeader, ParseAlt;
  }

  /** Only the alternative that was chosen can give the value back. */
  lemma OtherAlternative(alts: seq<Field>, k: nat, o: seq<byte>, tag: nat, tail: seq<byte>)
    requires k < |alts| && OctetsLike(alts[k].schema) && FindAlt(alts, 0, tag) != Ok(k)
    ensures ParseAlt(alts, Zeros(alts), tag, tail) != Ok(OctetsChosen(alts, k, o))
  {
    hide Parse;
  }

  lemma SuffixIs<T>(a: seq<T>, b: seq<T>, i: nat, j: nat)
    requires i <= |a + b| && j <= |a + b| - i
    ensures (a + b)[i..][j..] == b <==> i + j == |a|
  {
    var s := (a + b)[i..][j..];
    assert |s| == |a| + |b| - i - j;
    if i + j == |a| {
      assert s == b;
    }
  }

  /** An element comes back exactly if its octets read as those headers. */
  lemma ElementExact(alts: seq<Field>, p: Params, k: nat, o: seq<byte>)
    requires PlainTag(p) && OctetsElement(alts, k, o)
    ensures ElementEncoded(SChoice(alts), p, OctetsChosen(alts, k, o))
    ensures ElementReturns(SChoice(alts), p, OctetsChosen(alts, k, o)) <==> ReadsAsHeaders(alts, k, o)
  {
    ElementMarshalled(alts, p, k, o);
    hide InnerHead, Start, ParseHeader, Parse, ParseAlt, OctetsChosen, Element, ChosenByTag, Zeros, Zero, FindAlt;
    var inner := InnerHead(alts, k, o);
    var m, h := inner + o, ParseHeader(o);
    assert m[|inner|..] == o;
    ElementParsed(alts, p, m, o);
    if h.Ok? && h.value.size + h.value.tal.len <= |m| {
      LedTo(alts, k, h.value.tal.tagNumber);
      var tail := m[h.value.size..];
      if h.value.tal.tagNumber == alts[k].params.tag.value {
        OctetsParsed(alts, k, o, tail);
        if Start(tail).Ok? {
          SuffixIs(inner, o, h.value.size, Start(tail).value.size);
        }
      } else {
        OtherAlternative(alts, k, o, h.value.tal.tagNumber, tail);
      }
    }
  }

  // ---------------------------------------------------------------- low tags: leading octets and length

  /** Two octets that read as a whole header, and three that do. */
  predicate HeadOfTwo(x: nat, y: nat) { x % 32 != 31 && y <= 128 }

  predicate HeadOfThree(x: nat, y: nat, z: nat) { (x % 32 != 31 && y == 129) || (x % 32 == 31 && y < 128 && z <= 128) }

  /** The tag number such a header carries. */
  function HeadTag(x: nat, y: nat): nat { if x % 32 == 31 then y else x % 32 }

  lemma HeaderOfTwo(bytes: seq<byte>)
    requires |bytes| >= 2
    ensures var r := ParseHeader(bytes);
            && (r.Ok? && r.value.size == 2 <==> HeadOfTwo(bytes[0], bytes[1]))
            && (r.Ok? && r.value.size == 2 ==> r.value.tal.tagNumber == HeadTag(bytes[0], bytes[1]) && r.value.tal.len <= 127)
  {
    if bytes[0] % 32 != 31 && bytes[1] == 128 {
      assert bytes[2..2] == [];
    }
  }

  lemma HeaderOfThree(bytes: seq<byte>)
    requires |bytes| >= 3
    ensures var r := ParseHeader(bytes);
            && (r.Ok? && r.value.size == 3 <==> HeadOfThree(bytes[0], bytes[1], bytes[2]))
            && (r.Ok? && r.value.size == 3 ==> r.value.tal.tagNumber == HeadTag(bytes[0], bytes[1]) && r.value.tal.len <= 255)
  {
    if bytes[0] % 32 != 31 {
      ShortTagOfThree(bytes);
    } else {
      LongTagOfThree(bytes);
    }
  }

  lemma ShortTagOfThree(bytes: seq<byte>)
    requires |bytes| >= 3 && bytes[0] % 32 != 31
    ensures var r := ParseHeader(bytes);
            && (r.Ok? && r.value.size == 3 <==> bytes[1] == 129)
            && (r.Ok? && r.value.size == 3 ==> r.value.tal.tagNumber == bytes[0] % 32 && r.value.tal.len <= 255)
  {
    if bytes[1] == 129 {
      OneOctetValue(bytes[2..3]);
    }
    hide BigEndian;
  }

  lemma LongTagOfThree(bytes: seq<byte>)
    requires |bytes| >= 3 && bytes[0] % 32 == 31
    ensures var r := ParseHeader(bytes);
            && (r.Ok? && r.value.size == 3 <==> bytes[1] < 128 && bytes[2] <= 128)
            && (r.Ok? && r.value.size == 3 ==> r.value.tal.tagNumber == bytes[1] && r.value.tal.len <= 255)
  {
    if bytes[1] < 128 {
      assert ScanTag(bytes, 1, 0) == (bytes[1], 2);
      if bytes[2] == 128 {
        assert bytes[3..3] == [];
      }
    } else {
      assert ScanTag(bytes, 1, 0).1 >= 3;
    }
  }

  /** The octets open with headers that, with the length octets before them, are misread as a whole: a condition on the
      leading octets and on the length. */
  predicate OpensWithHeaders(tag: nat, o: seq<byte>) {
    |o| >= 256 &&
    var a, b, c := |o| / 65536, |o| / 256 % 256, |o| % 256;
    if |o| <= 65535 then HeadOfTwo(o[0], o[1]) && HeadTag(o[0], o[1]) == tag && HeadOfTwo(b, c)
    else
      || (HeadOfTwo(o[0], o[1]) && HeadTag(o[0], o[1]) == tag && HeadOfThree(a, b, c))
      || (HeadOfThree(o[0], o[1], o[2]) && HeadTag(o[0], o[1]) == tag && HeadOfTwo(b, c))
  }

  /** The header of an element of at least 256 octets under a low tag. */
  lemma LongHead(tag: nat, len: nat)
    requires tag <= 30 && 256 <= len < MAX_LENGTH
    ensures var h := HeaderOctets(TagAndLen(CLASS_CONTEXT, false, tag, len));
            if len <= 65535 then |h| == 4 && h[2] == len / 256 && h[3] == len % 256
            else |h| == 5 && h[2] == len / 65536 && h[3] == len / 256 % 256 && h[4] == len % 256
  {
    LenOctetsSize(len);
    var m := MinOctets(len);
    assert m == MinOctets(len / 256) + [len % 256];
    assert MinOctets(len / 256) == MinOctets(len / 256 / 256) + [len / 256 % 256];
    assert len / 256 / 256 == len / 65536;
    if len > 65535 {
      assert MinOctets(len / 65536) == MinOctets(len / 65536 / 256) + [len / 65536 % 256];
    }
  }

  lemma ShortHeadSize(tag: nat, len: nat)
    requires tag <= 30 && len < MAX_LENGTH
    ensures |HeaderOctets(TagAndLen(CLASS_CONTEXT, false, tag, len))| == if len <= 127 then 2 else if len <= 255 then 3 else if len <= 65535 then 4 else 5
  {
    LenOctetsSize(len);
    hide LenOctets;
  }

  /** What is read as second header: the octets behind the first one's length within the element. */
  lemma SecondOfTwo(inner: seq<byte>, o: seq<byte>, n: nat)
    requires 2 <= n && n + 2 <= |inner| && |o| >= 256
    ensures var s := Start((inner + o)[n..]); s.Ok? && s.value.size == 2 <==> HeadOfTwo(inner[n], inner[n + 1])
  {
    var tail := (inner + o)[n..];
    assert tail[0] == inner[n] && tail[1] == inner[n + 1];
    HeaderOfTwo(tail);
    hide ParseHeader;
  }

  lemma SecondOfThree(inner: seq<byte>, o: seq<byte>, n: nat)
    requires 2 <= n && n + 3 <= |inner| && |o| >= 256
    ensures var s := Start((inner + o)[n..]); s.Ok? && s.value.size == 3 <==> HeadOfThree(inner[n], inner[n + 1], inner[n + 2])
  {
    var tail := (inner + o)[n..];
    assert tail[0] == inner[n] && tail[1] == inner[n + 1] && tail[2] == inner[n + 2];
    HeaderOfThree(tail);
    hide ParseHeader;
  }

  /** With a low tag the octets read as headers exactly if they open with them. */
  lemma ReadsAsHeadersIff(alts: seq<Field>, k: nat, o: seq<byte>)
    requires OctetsElement(alts, k, o) && alts[k].params.tag.value <= 30
    ensures ReadsAsHeaders(alts, k, o) <==> OpensWithHeaders(alts[k].params.tag.value, o)
  {
    hide HeaderOctets, ParseHeader, Start, ChosenByTag, HeadOfTwo, HeadOfThree, HeadTag;
    var tag := alts[k].params.tag.value;
    var inner := InnerHead(alts, k, o);
    ShortHeadSize(tag, |o|);
    if |o| >= 256 {
      LongHead(tag, |o|);
      HeaderOfTwo(o);
      HeaderOfThree(o);
      SecondOfTwo(inner, o, 2);
      if |o| > 65535 {
        SecondOfThree(inner, o, 2);
        SecondOfTwo(inner, o, 3);
      }
    }
  }

  /** A choice of octets, and which octets. */
  datatype Chosen = Chosen(alt: nat, octets: seq<byte>)

  predicate AllOctets(alts: seq<Field>, cs: seq<Chosen>) {
    forall i :: 0 <= i < |cs| ==> OctetsElement(alts, cs[i].alt, cs[i].octets) && alts[cs[i].alt].params.tag.value <= 30
  }

  function ChosenValues(alts: seq<Field>, cs: seq<Chosen>): (vs: seq<Value>)
    requires forall i :: 0 <= i < |cs| ==> cs[i].alt < |alts| && OctetsLike(alts[cs[i].alt].schema)
    ensures |vs| == |cs| && forall i :: 0 <= i < |cs| ==> vs[i] == OctetsChosen(alts, cs[i].alt, cs[i].octets)
  {
    seq(|cs|, i requires 0 <= i < |cs| => OctetsChosen(alts, cs[i].alt, cs[i].octets))
  }

  /**
   * A tagged slice of choices of octet or character strings under low tags comes back if and only if every element is at
   * least 256 octets long and, by its length and its leading octets, happens to read as headers under its own tag.
   */
  lemma TaggedSliceOfOctets(alts: seq<Field>, p: Params, cs: seq<Chosen>)
    requires PlainTag(p) && AllOctets(alts, cs)
    requires ContentSize(Build(SSlice(SChoice(alts)), p, VSlice(ChosenValues(alts, cs)))) < MAX_LENGTH
    ensures var v := VSlice(ChosenValues(alts, cs));
            var m := Marshal(SSlice(SChoice(alts)), p, v);
            && m.Ok?
            && (Unmarshal(SSlice(SChoice(alts)), p, m.value) == Ok(v) <==>
                forall i :: 0 <= i < |cs| ==> OpensWithHeaders(alts[cs[i].alt].params.tag.value, cs[i].octets))
  {
    hide Marshal, Unmarshal, Build, OctetsLike, ChosenByTag, OpensWithHeaders, ElementReturns, ElementEncoded, OctetsChosen, ReadsAsHeaders;
    var vs := ChosenValues(alts, cs);
    forall i | 0 <= i < |cs|
      ensures ElementEncoded(SChoice(alts), p, vs[i])
      ensures ElementReturns(SChoice(alts), p, vs[i]) <==> OpensWithHeaders(alts[cs[i].alt].params.tag.value, cs[i].octets)
    {
      ElementExact(alts, p, cs[i].alt, cs[i].octets);
      ReadsAsHeadersIff(alts, cs[i].alt, cs[i].octets);
    }
    SliceExact(SChoice(alts), p, vs);
  }

  // ---------------------------------------------------------------- witnesses

  /** The contents of a slice of one element are the element. */
  lemma OneElementSize(alts: seq<Field>, p: Params, k: nat, o: seq<byte>)
    requires PlainTag(p) && OctetsElement(alts, k, o)
    ensures ContentSize(Build(SSlice(SChoice(alts)), p, VSlice([OctetsChosen(alts, k, o)]))) == |InnerHead(alts, k, o)| + |o|
  {
    hide Build, BuildElems, Marshal, OctetsChosen, InnerHead, ChosenByTag, IsTlv, AllOcts, EmittedElems;
    var e, vs := SChoice(alts), [OctetsChosen(alts, k, o)];
    ElementMarshalled(alts, p, k, o);
    ElementsBuilt(e, p, vs);
    SliceBuilt(e, p, vs);
    OneEmitted(e, p, vs[0]);
  }

  lemma OneEmitted(e: Schema, p: Params, v: Value)
    requires Element(e, p, v).Ok?
    ensures Concat(EmittedElems(e, p, [v])) == Element(e, p, v).value
  {
    hide Marshal;
    assert [v][..0] == [];
    var m := Element(e, p, v).value;
    assert EmittedElems(e, p, [v]) == [m];
    ConcatSnoc([], m);
    assert [] + [m] == [m];
  }

  const ONE_STRING := [Field(SOctets, Params(Some(1), false, false, false, 0))]

  const UNDER_FIVE := Params(Some(5), false, false, false, 0)

  lemma OneStringElement(o: seq<byte>)
    requires |o| < MAX_LENGTH
    ensures OctetsElement(ONE_STRING, 0, o)
  {
    assert FindAlt(ONE_STRING, 0, 1) == Ok(0);
  }

  /** Whether a tagged slice of one string under tag 1 comes back. */
  lemma OneStringSlice(o: seq<byte>)
    requires |o| < MAX_LENGTH - 8
    ensures var v := VSlice([OctetsChosen(ONE_STRING, 0, o)]);
            var m := Marshal(SSlice(SChoice(ONE_STRING)), UNDER_FIVE, v);
            m.Ok? && (Unmarshal(SSlice(SChoice(ONE_STRING)), UNDER_FIVE, m.value) == Ok(v) <==> OpensWithHeaders(1, o))
  {
    OneStringElement(o);
    OneElementSize(ONE_STRING, UNDER_FIVE, 0, o);
    ShortHeadSize(1, |o|);
    var cs := [Chosen(0, o)];
    assert ChosenValues(ONE_STRING, cs) == [OctetsChosen(ONE_STRING, 0, o)];
    hide Build, Marshal, Unmarshal, OctetsElement, OctetsChosen, HeaderOctets;
    TaggedSliceOfOctets(ONE_STRING, UNDER_FIVE, cs);
    assert cs[0] == Chosen(0, o);
  }

  /** One that does, by accident: 256 octets that start with 0x81 and 0. */
  lemma SliceReturnsByAccident(o: seq<byte>)
    requires |o| == 256 && o[0] == 0x81 && o[1] == 0
    ensures var v := VSlice([OctetsChosen(ONE_STRING, 0, o)]);
            var m := Marshal(SSlice(SChoice(ONE_STRING)), UNDER_FIVE, v);
            m.Ok? && Unmarshal(SSlice(SChoice(ONE_STRING)), UNDER_FIVE, m.value) == Ok(v)
  {
    hide Marshal, Unmarshal, OctetsChosen;
    OneStringSlice(o);
  }

  /** One that does not: the same with 255 octets. */
  lemma SliceLost(o: seq<byte>)
    requires |o| == 255 && o[0] == 0x81 && o[1] == 0
    ensures var v := VSlice([OctetsChosen(ONE_STRING, 0, o)]);
            var m := Marshal(SSlice(SChoice(ONE_STRING)), UNDER_FIVE, v);
            m.Ok? && Unmarshal(SSlice(SChoice(ONE_STRING)), UNDER_FIVE, m.value) != Ok(v)
  {
    hide Marshal, Unmarshal, OctetsChosen;
    OneStringSlice(o);
  }

  // ---------------------------------------------------------------- numbers as elements

  /** Integers, enumerations and booleans, behind any pointers and wrappers. */
  predicate Numeric(s: Schema) {
    match s
    case SInt | SEnumerated | SBool => true
    case SPtr(e) => Numeric(e)
    case SWrap(e) => Numeric(e)
    case _ => false
  }

  /** Contents two octets shorter than the minimal form give another number. */
  lemma ShorterIsAnother(i: int, content: seq<byte>)
    requires IsInt64(i) && |content| + 2 <= IntLen(i)
    ensures ParseInt(content) != Ok(i)
  {
    hide BigEndian, IntLen;
    Int64FitsEight(i);
    BigEndianBound(content);
    Pow256Upto7(|content|);
    IntLenIsLeast(i, |content| + 1);
    SmallWord(BigEndian(content));
    hide Pow256, I64;
  }

  lemma SmallWord(v: nat)
    requires v < TWO_63
    ensures I64(v) == v
  {
  }

  lemma {:induction false} NumericContent(s: Schema, p: Params, x: Value)
    requires Numeric(s) && Survives(s, p, x) && PlainTag(p)
    ensures 1 <= |ContentOf(s, p, x)| <= 8 && !Constructed(s)
    decreases s
  {
    hide HeaderOctets;
    if s.SPtr? {
      NumericContent(s.elem, p, x.target);
    } else if s.SWrap? {
      NumericContent(s.elem, p, x.inner);
    } else if s.SInt? || s.SEnumerated? {
      Int64FitsEight(x.i);
    }
  }

  /** A number is not read from contents two octets short. */
  lemma {:induction false} NumericShort(s: Schema, p: Params, t: Value, bytes: seq<byte>, x: Value)
    requires Numeric(s) && Survives(s, p, x) && PlainTag(p)
    requires Start(bytes).Ok? ==> |bytes| - Start(bytes).value.size + 2 <= |ContentOf(s, p, x)|
    ensures Parse(s, p, t, bytes) != Ok(x)
    decreases s
  {
    hide Start, HeaderOctets;
    if s.SPtr? {
      NumericShort(s.elem, p, Zero(s.elem), bytes, x.target);
    } else if s.SWrap? {
      NumericShort(s.elem, p, if t.VWrap? then t.inner else Zero(s.elem), bytes, x.inner);
    } else if Start(bytes).Ok? && (s.SInt? || s.SEnumerated?) {
      ShorterIsAnother(x.i, bytes[Start(bytes).value.size..]);
    }
  }

  predicate NumericElement(alts: seq<Field>, k: nat, x: Value) {
    && k < |alts| && PlainTag(alts[k].params) && alts[k].params.tag.value <= 30 && ChosenByTag(alts, k)
    && Numeric(alts[k].schema) && Survives(alts[k].schema, alts[k].params, x)
  }

  lemma NumericMarshalled(alts: seq<Field>, p: Params, k: nat, x: Value)
    requires NumericElement(alts, k, x)
    ensures var c := Inside(alts, k, x);
            && |Inner(alts, k, x)| == 2 && 1 <= |c| <= 8
            && Element(SChoice(alts), p, ChosenValue(alts, k, x)) == Ok(Inner(alts, k, x) + c)
            && IsTlv(Inner(alts, k, x) + c)
            && Start(Inner(alts, k, x) + c).Ok? && Start(Inner(alts, k, x) + c).value.size == 2
  {
    hide HeaderOctets, ChosenByTag, Survives, Numeric, Constructed, ParseHeader, Start, ContentOf;
    var f, v := alts[k], ChosenValue(alts, k, x);
    NumericContent(f.schema, f.params, x);
    Shape(f.schema, f.params, x);
    assert v.alts[k] == x;
    assert Build(SChoice(alts), p.(tag := None), v) == Build(f.schema, f.params, x);
    hide Build;
    StartOf(TagAndLen(CLASS_CONTEXT, false, f.params.tag.value, |Inside(alts, k, x)|), Inside(alts, k, x));
    ShortHeadSize(f.params.tag.value, |Inside(alts, k, x)|);
  }

  /** Only the alternative that was chosen can give a value back. */
  lemma OtherThanChosen(alts: seq<Field>, k: nat, x: Value, tag: nat, tail: seq<byte>)
    requires k < |alts| && FindAlt(alts, 0, tag) != Ok(k)
    ensures ParseAlt(alts, Zeros(alts), tag, tail) != Ok(ChosenValue(alts, k, x))
  {
    hide Parse;
  }

  /** A number never comes back from a tagged slice: behind two headers too little of its contents is left. */
  lemma NumericNeverReturns(alts: seq<Field>, p: Params, k: nat, x: Value)
    requires PlainTag(p) && NumericElement(alts, k, x)
    ensures ElementEncoded(SChoice(alts), p, ChosenValue(alts, k, x)) && !ElementReturns(SChoice(alts), p, ChosenValue(alts, k, x))
  {
    NumericMarshalled(alts, p, k, x);
    hide Inner, Start, ParseHeader, Parse, ParseAlt, ChosenValue, Element, ChosenByTag, Zeros, Zero, FindAlt, Survives, Numeric, ContentOf;
    var c := Inside(alts, k, x);
    var m, h := Inner(alts, k, x) + c, ParseHeader(c);
    assert m[2..] == c;
    ElementParsed(alts, p, m, c);
    if h.Ok? && h.value.size + h.value.tal.len <= |m| {
      LedTo(alts, k, h.value.tal.tagNumber);
      var tail := m[h.value.size..];
      if h.value.tal.tagNumber == alts[k].params.tag.value {
        NumericShort(alts[k].schema, alts[k].params, Zeros(alts)[k], tail, x);
        AlternativeParsed(alts, k, x, tail);
      } else {
        OtherThanChosen(alts, k, x, h.value.tal.tagNumber, tail);
      }
    }
  }

  /** A tagged slice of choices with a number among its elements, under a low tag, never comes back. */
  lemma TaggedSliceWithNumber(alts: seq<Field>, p: Params, vs: seq<Value>, i: nat, k: nat, x: Value)
    requires PlainTag(p) && (forall j :: 0 <= j < |vs| ==> ElementEncoded(SChoice(alts), p, vs[j]))
    requires i < |vs| && NumericElement(alts, k, x) && vs[i] == ChosenValue(alts, k, x)
    requires ContentSize(Build(SSlice(SChoice(alts)), p, VSlice(vs))) < MAX_LENGTH
    ensures var m := Marshal(SSlice(SChoice(alts)), p, VSlice(vs));
            m.Ok? && Unmarshal(SSlice(SChoice(alts)), p, m.value) != Ok(VSlice(vs))
  {
    hide Build, Marshal, Unmarshal, ElementEncoded, ElementReturns, NumericElement, ChosenValue;
    NumericNeverReturns(alts, p, k, x);
    SliceExact(SChoice(alts), p, vs);
  }
}
