/** Which values of a CHOICE under a tag come back, for alternatives of every type under tags up to 30. */
module BerTaggedAlternative {
  import opened Bytes
  import opened Results
  import opened Words
  import opened BerHeader
  import opened BerScalars
  import opened BerTypes
  import opened BerMarshal
  import opened BerUnmarshal
  import opened BerRoundTrip
  import opened BerLimits
  import opened BerTaggedChoice

  /** Types whose contents are TLVs themselves. */
  predicate Constructed(s: Schema) {
    match s
    case SStruct(_) | SSlice(_) | SChoice(_) => true
    case SPtr(e) => Constructed(e)
    case SWrap(e) => Constructed(e)
    case _ => false
  }

  /** The contents octets of a value. */
  function ContentOf(s: Schema, p: Params, x: Value): seq<byte> {
    var b := Build(s, p, x);
    if b.Ok? && b.value.EBer? then Octs(b.value.value) else []
  }

  function HeadOf(s: Schema, p: Params, x: Value): seq<byte>
    requires p.tag.Some?
  {
    HeaderOctets(TagAndLen(CLASS_CONTEXT, Constructed(s), p.tag.value, |ContentOf(s, p, x)|))
  }

  /** A surviving value under a tag is its header and its contents. */
  lemma {:induction false} Shape(s: Schema, p: Params, x: Value)
    requires Survives(s, p, x) && PlainTag(p)
    ensures var b := Build(s, p, x);
            b.Ok? && b.value.EBer? && b.value.tagAndLen == EBytes(HeadOf(s, p, x)) && Octs(b.value) == HeadOf(s, p, x) + ContentOf(s, p, x)
    decreases s
  {
    hide HeaderOctets;
    if s.SPtr? {
      Shape(s.elem, p, x.target);
    } else if s.SWrap? {
      Shape(s.elem, p, x.inner);
    } else {
      var _ := Encodes(s, p, x);
      OwnShape(s, p, x);
    }
  }

  lemma OwnShape(s: Schema, p: Params, x: Value)
    requires !s.SPtr? && !s.SWrap? && PlainTag(p) && Build(s, p, x).Ok?
    ensures var b := Build(s, p, x);
            b.value.EBer? && b.value.tagAndLen == EBytes(HeadOf(s, p, x)) && Octs(b.value) == HeadOf(s, p, x) + ContentOf(s, p, x)
  {
    hide HeaderOctets, BuildFields, BuildElems, Octs;
    var b := Build(s, p, x).value;
    assert b == EBer(EBytes(HeadOf(s, p, x)), b.value);
    OctsOfBer(HeadOf(s, p, x), b.value);
  }

  lemma OctsOfBer(head: seq<byte>, content: Encoder)
    ensures Octs(EBer(EBytes(head), content)) == head + Octs(content)
  {
  }

  // ---------------------------------------------------------------- the choice

  /** A choice of x as alternative k. */
  function ChosenValue(alts: seq<Field>, k: nat, x: Value): Value
    requires k < |alts|
  {
    VChoice(k + 1, Zeros(alts)[k := x])
  }

  predicate UnderTags(alts: seq<Field>, p: Params, k: nat, x: Value) {
    && k < |alts| && PlainTag(alts[k].params) && PlainTag(p) && ChosenByTag(alts, k)
    && Survives(alts[k].schema, alts[k].params, x)
  }

  predicate UnderLowTags(alts: seq<Field>, p: Params, k: nat, x: Value) {
    UnderTags(alts, p, k, x) && alts[k].params.tag.value <= 30 && p.tag.value <= 30
  }

  function Inner(alts: seq<Field>, k: nat, x: Value): seq<byte>
    requires k < |alts| && alts[k].params.tag.Some?
  {
    HeadOf(alts[k].schema, alts[k].params, x)
  }

  function Inside(alts: seq<Field>, k: nat, x: Value): seq<byte>
    requires k < |alts|
  {
    ContentOf(alts[k].schema, alts[k].params, x)
  }

  function Outer(alts: seq<Field>, p: Params, k: nat, x: Value): seq<byte>
    requires k < |alts| && alts[k].params.tag.Some? && p.tag.Some?
  {
    HeaderOctets(TagAndLen(CLASS_CONTEXT, true, p.tag.value, |Inner(alts, k, x)| + |Inside(alts, k, x)|))
  }

  lemma ChoiceMarshalled(alts: seq<Field>, p: Params, k: nat, x: Value)
    requires UnderTags(alts, p, k, x)
    ensures var v, outer, inner, c := ChosenValue(alts, k, x), Outer(alts, p, k, x), Inner(alts, k, x), Inside(alts, k, x);
            && Marshal(SChoice(alts), p, v) == Ok(outer + (inner + c))
            && ContentSize(Build(SChoice(alts), p, v)) == |inner| + |c|
            && (SameHeadSizes(SChoice(alts), p, v) <==> |outer| == |inner|)
  {
    hide HeaderOctets, ChosenByTag, Survives, Octs, ContentOf, Constructed;
    var f, v := alts[k], ChosenValue(alts, k, x);
    Shape(f.schema, f.params, x);
    assert v.alts[k] == x;
    var built := Build(f.schema, f.params, x).value;
    assert Build(SChoice(alts), p, v) == Ok(EBer(EBytes(Outer(alts, p, k, x)), built));
    hide Build;
    OctsOfBer(Outer(alts, p, k, x), built);
    OctsOfBytes(Outer(alts, p, k, x));
    OctsOfBytes(Inner(alts, k, x));
  }

  lemma OctsOfBytes(s: seq<byte>)
    ensures Octs(EBytes(s)) == s
  {
  }

  lemma ChoiceParsed(alts: seq<Field>, p: Params, k: nat, x: Value)
    requires UnderTags(alts, p, k, x) && |Inner(alts, k, x)| + |Inside(alts, k, x)| < MAX_LENGTH
    ensures var outer, inner, c := Outer(alts, p, k, x), Inner(alts, k, x), Inside(alts, k, x);
            var bytes := outer + (inner + c);
            Unmarshal(SChoice(alts), p, bytes) == ParseAlt(alts, Zeros(alts), alts[k].params.tag.value, bytes[|inner|..])
  {
    hide HeaderOctets, ParseHeader, Start, ChosenByTag, Survives, ContentOf, Constructed, ParseAlt, Parse, Zero;
    var outer, inner, c := Outer(alts, p, k, x), Inner(alts, k, x), Inside(alts, k, x);
    StartOf(TagAndLen(CLASS_CONTEXT, Constructed(alts[k].schema), alts[k].params.tag.value, |c|), c);
    StartOf(TagAndLen(CLASS_CONTEXT, true, p.tag.value, |inner| + |c|), inner + c);
    DropHeads(outer, inner, c, |outer|);
    ChoiceParses(alts, p, outer + (inner + c), inner + c);
  }

  // ---------------------------------------------------------------- equal headers

  lemma EqualHeads(alts: seq<Field>, p: Params, k: nat, x: Value)
    requires UnderTags(alts, p, k, x) && |Inner(alts, k, x)| + |Inside(alts, k, x)| < MAX_LENGTH
    requires |Outer(alts, p, k, x)| == |Inner(alts, k, x)|
    ensures var v := ChosenValue(alts, k, x); var m := Marshal(SChoice(alts), p, v); m.Ok? && Unmarshal(SChoice(alts), p, m.value) == Ok(v)
  {
    ChoiceMarshalled(alts, p, k, x);
    ChosenSurvives(alts, p, k, x);
    hide Survives, Parse, Build, Inner, Outer, Inside, ChosenValue;
    RoundTrip(SChoice(alts), p, ChosenValue(alts, k, x));
  }

  lemma ChosenSurvives(alts: seq<Field>, p: Params, k: nat, x: Value)
    requires UnderTags(alts, p, k, x) && SameHeadSizes(SChoice(alts), p, ChosenValue(alts, k, x))
    ensures Survives(SChoice(alts), p, ChosenValue(alts, k, x))
  {
    var v := ChosenValue(alts, k, x);
    forall j | 0 <= j < |alts| && j != k ensures v.alts[j] == Zero(alts[j].schema) { ZerosAt(alts, j); }
    assert v.alts[k] == x;
    assert AltSurvives(alts[k], x);
    hide AltSurvives, SameHeadSizes, ChosenByTag, Zeros, Zero;
  }

  // ---------------------------------------------------------------- a longer outer header

  /** Every type starts by reading a header. */
  lemma {:induction false} NoHeaderNoValue(s: Schema, p: Params, t: Value, bytes: seq<byte>)
    requires Start(bytes).Fail?
    ensures Parse(s, p, t, bytes).Fail?
    decreases s
  {
    hide Start;
    if s.SPtr? {
      NoHeaderNoValue(s.elem, p, Zero(s.elem), bytes);
    }
  }

  /** A constructed identifier octet is no length. */
  lemma ConstructedIsNoLength(tail: seq<byte>, tag: nat)
    requires |tail| >= 2 && tail[0] % 32 != 31 && tag <= 30 && tail[1] == 160 + tag
    ensures Start(tail).Fail?
  {
  }

  /** Types whose contents are taken as they are, octet for octet. */
  predicate Verbatim(s: Schema) {
    match s
    case SOctets | SString | SBits => true
    case SPtr(e) => Verbatim(e)
    case SWrap(e) => Verbatim(e)
    case _ => false
  }

  lemma BitsDecoded(content: seq<byte>, bits: seq<byte>, bitLength: nat)
    requires content != [] && bitLength < TWO_64 && |bits| == bitLength / 8 + 1
    ensures VBits(content[1..], ParsedBitLength(|content|, content[0])) == VBits(bits, bitLength) <==> content == BitOctets(bits, bitLength)
  {
    var c := BitOctets(bits, bitLength);
    assert c[1..] == bits && c[0] == 8 - bitLength % 8;
    assert content == [content[0]] + content[1..];
    SameUnused(|bits|, bitLength, content[0]);
  }

  lemma SameUnused(n: nat, bitLength: nat, unused: byte)
    requires bitLength < TWO_64 && n == bitLength / 8 + 1
    ensures ParsedBitLength(n + 1, unused) == bitLength <==> unused == 8 - bitLength % 8
  {
    var x := n * 8 - unused;
    assert bitLength == n * 8 - (8 - bitLength % 8);
    if x % TWO_64 == bitLength {
      assert (x - bitLength) % TWO_64 == 0;
      assert -256 < x - bitLength < 256;
    }
  }

  /** Such a value is read exactly from its contents. */
  lemma {:induction false} ReadVerbatim(s: Schema, p: Params, t: Value, bytes: seq<byte>, x: Value)
    requires Verbatim(s) && Survives(s, p, x) && PlainTag(p)
    ensures Parse(s, p, t, bytes) == Ok(x) <==> Start(bytes).Ok? && bytes[Start(bytes).value.size..] == ContentOf(s, p, x)
    decreases s
  {
    hide Start;
    if s.SPtr? {
      ReadVerbatim(s.elem, p, Zero(s.elem), bytes, x.target);
    } else if s.SWrap? {
      ReadVerbatim(s.elem, p, if t.VWrap? then t.inner else Zero(s.elem), bytes, x.inner);
    } else {
      ReadScalar(s, p, t, bytes, x);
    }
  }

  lemma ReadScalar(s: Schema, p: Params, t: Value, bytes: seq<byte>, x: Value)
    requires (s.SOctets? || s.SString? || s.SBits?) && Survives(s, p, x) && PlainTag(p)
    ensures Parse(s, p, t, bytes) == Ok(x) <==> Start(bytes).Ok? && bytes[Start(bytes).value.size..] == ContentOf(s, p, x)
  {
    hide Start, HeaderOctets, ContentOf, Build, ParsedBitLength, BitOctets;
    ScalarContent(s, p, x);
    if Start(bytes).Ok? && s.SBits? {
      var content := bytes[Start(bytes).value.size..];
      if content != [] {
        BitsDecoded(content, x.bits, x.bitLength);
      } else {
        assert |BitOctets(x.bits, x.bitLength)| > 0 by { BitOctetsSize(x.bits, x.bitLength); }
      }
    }
  }

  lemma BitOctetsSize(bits: seq<byte>, bitLength: nat)
    ensures |BitOctets(bits, bitLength)| == 1 + |bits|
  {
  }

  lemma ScalarContent(s: Schema, p: Params, x: Value)
    requires (s.SOctets? || s.SString? || s.SBits?) && Survives(s, p, x) && PlainTag(p)
    ensures ContentOf(s, p, x) == if s.SOctets? then x.octets else if s.SString? then x.chars else BitOctets(x.bits, x.bitLength)
  {
    hide HeaderOctets;
  }

  /** The contents of the other primitive types are short. */
  lemma {:induction false} NumbersAreShort(s: Schema, p: Params, x: Value)
    requires Survives(s, p, x) && PlainTag(p) && !Verbatim(s) && !Constructed(s)
    ensures |ContentOf(s, p, x)| <= 8
    decreases s
  {
    hide HeaderOctets;
    if s.SPtr? {
      NumbersAreShort(s.elem, p, x.target);
    } else if s.SWrap? {
      NumbersAreShort(s.elem, p, x.inner);
    } else if s.SInt? || s.SEnumerated? {
      Int64FitsEight(x.i);
    }
  }

  /** The headers of a tagged choice under low tags. */
  lemma Heads(alts: seq<Field>, p: Params, k: nat, x: Value)
    requires UnderLowTags(alts, p, k, x) && |Inner(alts, k, x)| + |Inside(alts, k, x)| < MAX_LENGTH
    ensures var inner, outer, len := Inner(alts, k, x), Outer(alts, p, k, x), |Inside(alts, k, x)|;
            && |inner| == 1 + |LenOctets(len)| && |outer| == 1 + |LenOctets(|inner| + len)|
            && inner[0] == (if Constructed(alts[k].schema) then 160 else 128) + alts[k].params.tag.value && inner[1..] == LenOctets(len)
            && |inner| <= |outer| <= |inner| + 1
            && (|outer| > |inner| <==> LongerOutside(len))
            && (|outer| > |inner| ==> outer[|inner|] == (|inner| + len) % 256)
  {
    hide HeaderOctets, LenOctets, ChosenByTag, Survives, ContentOf, Constructed, LongerOutside;
    var inner, len := Inner(alts, k, x), |Inside(alts, k, x)|;
    LowTagHead(TagAndLen(CLASS_CONTEXT, Constructed(alts[k].schema), alts[k].params.tag.value, len));
    LowTagHead(TagAndLen(CLASS_CONTEXT, true, p.tag.value, |inner| + len));
    assert |inner| == 1 + |LenOctets(len)|;
    LengthsStep(len);
    LongerOutsideIff(len);
  }

  /** What is parsed in place of a constructed alternative does not start with a header. */
  lemma ConstructedTail(outer: seq<byte>, inner: seq<byte>, c: seq<byte>, tag: nat)
    requires |outer| == |inner| + 1 == 1 + |LenOctets(|inner| + |c|)| && |inner| + |c| < MAX_LENGTH && tag <= 30
    requires |inner| >= 1 && inner[0] == 160 + tag && inner[1..] == LenOctets(|c|) && outer[|inner|] == (|inner| + |c|) % 256
    ensures Start((outer + (inner + c))[|inner|..]).Fail?
  {
    hide LenOctets, Start;
    assert |inner| == 1 + |LenOctets(|c|)|;
    MisreadLengths(|c|, tag);
    Joined(outer, inner, c);
    ConstructedIsNoLength((outer + (inner + c))[|inner|..], tag);
  }

  /** In place of a primitive one the header fits, and leaves the contents, exactly under tag 1. */
  lemma PrimitiveTail(outer: seq<byte>, inner: seq<byte>, c: seq<byte>, tag: nat)
    requires |outer| == |inner| + 1 == 1 + |LenOctets(|inner| + |c|)| && |inner| + |c| < MAX_LENGTH && tag <= 30
    requires |inner| >= 1 && inner[0] == 128 + tag && inner[1..] == LenOctets(|c|) && outer[|inner|] == (|inner| + |c|) % 256
    ensures var tail := (outer + (inner + c))[|inner|..];
            Start(tail).Ok? && tail[Start(tail).value.size..] == c <==> tag == 1 && (|c| == 126 || |c| == 127)
  {
    hide LenOctets, Start;
    LongerOuterHead(outer, inner, c, tag);
    var start := Start((outer + (inner + c))[|inner|..]);
    if start.Ok? {
      DropHeads(outer, inner, c, start.value.size);
    }
  }

  lemma AlternativeParsed(alts: seq<Field>, k: nat, x: Value, tail: seq<byte>)
    requires k < |alts| && alts[k].params.tag.Some? && ChosenByTag(alts, k)
    ensures ParseAlt(alts, Zeros(alts), alts[k].params.tag.value, tail) == Ok(ChosenValue(alts, k, x)) <==>
            Parse(alts[k].schema, alts[k].params, Zeros(alts)[k], tail) == Ok(x)
  {
    hide Parse;
    var r := Parse(alts[k].schema, alts[k].params, Zeros(alts)[k], tail);
    if r.Ok? && Zeros(alts)[k := r.value] == Zeros(alts)[k := x] {
      assert Zeros(alts)[k := r.value][k] == Zeros(alts)[k := x][k];
    }
  }

  lemma LongIsVerbatim(s: Schema, p: Params, x: Value)
    requires Survives(s, p, x) && PlainTag(p) && |ContentOf(s, p, x)| > 8 && !Constructed(s)
    ensures Verbatim(s)
  {
    hide ContentOf, Survives, Constructed;
    if !Verbatim(s) {
      NumbersAreShort(s, p, x);
    }
  }

  /** outer is one octet longer than inner, the header of contents c under a low tag. */
  predicate Longer(outer: seq<byte>, inner: seq<byte>, c: seq<byte>, constructed: bool, tag: nat) {
    && |outer| == |inner| + 1 == 1 + |LenOctets(|inner| + |c|)| && |inner| + |c| < MAX_LENGTH && tag <= 30 && LongerOutside(|c|)
    && |inner| >= 1 && inner[0] == (if constructed then 160 else 128) + tag && inner[1..] == LenOctets(|c|)
    && outer[|inner|] == (|inner| + |c|) % 256
  }

  lemma LongerConstructed(s: Schema, p: Params, t: Value, outer: seq<byte>, inner: seq<byte>, c: seq<byte>, tag: nat)
    requires Longer(outer, inner, c, true, tag)
    ensures Parse(s, p, t, (outer + (inner + c))[|inner|..]).Fail?
  {
    hide LenOctets, Start, Parse;
    ConstructedTail(outer, inner, c, tag);
    NoHeaderNoValue(s, p, t, (outer + (inner + c))[|inner|..]);
  }

  lemma LongerPrimitive(s: Schema, p: Params, t: Value, x: Value, outer: seq<byte>, inner: seq<byte>, c: seq<byte>, tag: nat)
    requires Longer(outer, inner, c, false, tag) && Survives(s, p, x) && PlainTag(p) && !Constructed(s) && c == ContentOf(s, p, x)
    ensures Parse(s, p, t, (outer + (inner + c))[|inner|..]) == Ok(x) <==> tag == 1 && |c| <= 127
  {
    hide LenOctets, Start, Parse, Survives, ContentOf, Constructed, Verbatim;
    LongIsVerbatim(s, p, x);
    ReadVerbatim(s, p, t, (outer + (inner + c))[|inner|..], x);
    PrimitiveTail(outer, inner, c, tag);
  }

  lemma HeadsAreLonger(alts: seq<Field>, p: Params, k: nat, x: Value)
    requires UnderLowTags(alts, p, k, x) && |Inner(alts, k, x)| + |Inside(alts, k, x)| < MAX_LENGTH
    requires |Outer(alts, p, k, x)| > |Inner(alts, k, x)|
    ensures Longer(Outer(alts, p, k, x), Inner(alts, k, x), Inside(alts, k, x), Constructed(alts[k].schema), alts[k].params.tag.value)
  {
    Heads(alts, p, k, x);
    hide Inner, Inside, Outer, LenOctets, LongerOutside, Constructed, Survives, ChosenByTag;
  }

  /** Verbatim contents under tags of any size: the value comes back if and only if the header misread at the inner size is
      as long as the outer header. */
  lemma VerbatimExact(alts: seq<Field>, p: Params, k: nat, x: Value)
    requires UnderTags(alts, p, k, x) && Verbatim(alts[k].schema)
    requires ContentSize(Build(SChoice(alts), p, ChosenValue(alts, k, x))) < MAX_LENGTH
    ensures var v, outer, inner := ChosenValue(alts, k, x), Outer(alts, p, k, x), Inner(alts, k, x);
            var bytes := outer + (inner + Inside(alts, k, x));
            var start := Start(bytes[|inner|..]);
            && Marshal(SChoice(alts), p, v) == Ok(bytes)
            && (Unmarshal(SChoice(alts), p, bytes) == Ok(v) <==> start.Ok? && start.value.size == |outer|)
  {
    ChoiceMarshalled(alts, p, k, x);
    ChoiceParsed(alts, p, k, x);
    hide Marshal, Unmarshal, Build, Parse, ParseAlt, Start, Survives, ContentOf, HeadOf, Inner, Outer, Zeros, ChosenValue, ChosenByTag, Verbatim;
    var outer, inner, c := Outer(alts, p, k, x), Inner(alts, k, x), Inside(alts, k, x);
    var tail := (outer + (inner + c))[|inner|..];
    AlternativeParsed(alts, k, x, tail);
    ReadVerbatim(alts[k].schema, alts[k].params, Zeros(alts)[k], tail, x);
    if Start(tail).Ok? {
      DropHeads(outer, inner, c, Start(tail).value.size);
    }
  }

  /** With a longer outer header only contents that are taken verbatim, under inner tag 1, can come back. */
  lemma LongerOuter(alts: seq<Field>, p: Params, k: nat, x: Value)
    requires UnderLowTags(alts, p, k, x) && |Inner(alts, k, x)| + |Inside(alts, k, x)| < MAX_LENGTH
    requires |Outer(alts, p, k, x)| > |Inner(alts, k, x)|
    ensures var tail := (Outer(alts, p, k, x) + (Inner(alts, k, x) + Inside(alts, k, x)))[|Inner(alts, k, x)|..];
            Parse(alts[k].schema, alts[k].params, Zeros(alts)[k], tail) == Ok(x) <==>
            !Constructed(alts[k].schema) && alts[k].params.tag.value == 1 && |Inside(alts, k, x)| <= 127
  {
    HeadsAreLonger(alts, p, k, x);
    hide Longer, Parse, ChosenByTag, Survives, Constructed, HeadOf, ContentOf, Outer, Inner, Zeros;
    var f := alts[k];
    if Constructed(f.schema) {
      LongerConstructed(f.schema, f.params, Zeros(alts)[k], Outer(alts, p, k, x), Inner(alts, k, x), Inside(alts, k, x), f.params.tag.value);
    } else {
      LongerPrimitive(f.schema, f.params, Zeros(alts)[k], x, Outer(alts, p, k, x), Inner(alts, k, x), Inside(alts, k, x), f.params.tag.value);
    }
  }

  /** The lengths of contents at which an alternative under inner tag `tag` comes back from behind an outer tag. */
  predicate AlternativeReturns(s: Schema, tag: nat, len: nat) { !LongerOutside(len) || (!Constructed(s) && tag == 1 && len <= 127) }

  /**
   * Alternatives of every type under tags up to 30: a surviving value comes back exactly when the two headers are equally
   * long, which its length decides, or when it is primitive with inner tag 1 and 126 or 127 contents octets.
   */
  lemma TaggedChoiceLowTags(alts: seq<Field>, p: Params, k: nat, x: Value)
    requires UnderLowTags(alts, p, k, x) && ContentSize(Build(SChoice(alts), p, ChosenValue(alts, k, x))) < MAX_LENGTH
    ensures var v := ChosenValue(alts, k, x);
            var m := Marshal(SChoice(alts), p, v);
            && m.Ok?
            && (SameHeadSizes(SChoice(alts), p, v) <==> !LongerOutside(|Inside(alts, k, x)|))
            && (Unmarshal(SChoice(alts), p, m.value) == Ok(v) <==>
                AlternativeReturns(alts[k].schema, alts[k].params.tag.value, |Inside(alts, k, x)|))
  {
    ChoiceMarshalled(alts, p, k, x);
    Heads(alts, p, k, x);
    if |Outer(alts, p, k, x)| == |Inner(alts, k, x)| {
      EqualHeads(alts, p, k, x);
    } else {
      LongerOuter(alts, p, k, x);
      ChoiceParsed(alts, p, k, x);
      var tail := (Outer(alts, p, k, x) + (Inner(alts, k, x) + Inside(alts, k, x)))[|Inner(alts, k, x)|..];
      AlternativeParsed(alts, k, x, tail);
    }
    hide Marshal, Unmarshal, Build, Parse, ParseAlt, Outer, Inner, Inside, ChosenValue, SameHeadSizes, LongerOutside, Constructed, UnderLowTags;
  }
}
