/** Unmarshalling what was marshalled gives back the value: for every schema, by induction over it. */
module BerRoundTrip {
  import opened Bytes
  import opened Results
  import opened Words
  import opened BerHeader
  import opened BerHeaderLaws
  import opened BerScalars
  import opened BerTypes
  import opened BerMarshal
  import opened BerUnmarshal
  import opened BerMembers

  const MAX_LENGTH: int := 0x100_0000

  // ---------------------------------------------------------------- the values that survive

  /** Every field carries its own tag number. */
  predicate DistinctTags(fs: seq<Field>) {
    && (forall k :: 0 <= k < |fs| ==> fs[k].params.tag.Some? && fs[k].params.tag.value < TWO_63)
    && (forall j, k :: 0 <= j < k < |fs| ==> fs[j].params.tag != fs[k].params.tag)
  }

  /** A slice of s hands its tag on to a CHOICE. */
  predicate ReachesChoice(s: Schema) {
    match s
    case SChoice(_) => true
    case SPtr(e) => ReachesChoice(e)
    case SWrap(e) => ReachesChoice(e)
    case SSlice(e) => ReachesChoice(e)
    case _ => false
  }

  predicate SurvivingScalar(s: Schema, p: Params, v: Value) {
    match s
    case SInt | SEnumerated => v.VInt? && IsInt64(v.i) && (v.i >= 0 || v.i < -0x80_0000_0000_0000)
    case SBool => v.VBool?
    case SOctets => v.VOctets?
    case SBits => v.VBits? && v.bitLength < TWO_64 && |v.bits| == v.bitLength / 8 + 1
    case SString => v.VString? && p.stringType < TWO_63
    case _ => false
  }

  /** The header of an encoded value. */
  function HeadSize(e: Encoder): nat { if e.EBer? then |Octs(e.tagAndLen)| else 0 }

  /** The side conditions of the codec: which values of type s under p come back as they were. */
  predicate Survives(s: Schema, p: Params, v: Value)
    decreases s, 0
  {
    && (p.tag.Some? ==> !p.explicitTag && p.tag.value < TWO_63)
    && if s.SPtr? then v.VPtr? && Survives(s.elem, p, v.target)
       else if s.SWrap? then v.VWrap? && Survives(s.elem, p, v.inner)
       else if s.SSlice? then
         && v.VSlice?
         && (p.tag.Some? ==> !ReachesChoice(s.elem))
         && forall k :: 0 <= k < |v.elems| ==> Survives(s.elem, p.(tag := None), v.elems[k])
       else if s.SStruct? then
         && v.VStruct? && |v.fields| == |s.fields|
         && DistinctTags(s.fields)
         && (forall k :: 0 <= k < |s.fields| ==> FieldSurvives(s.fields[k], v.fields[k]))
         && (exists k :: 0 <= k < |s.fields| && !Absent(s.fields[k], v.fields[k]))
       else if s.SChoice? then
         && v.VChoice? && |v.alts| == |s.alts| && 1 <= v.present <= |s.alts|
         && ChosenByTag(s.alts, v.present - 1)
         && (forall k :: 0 <= k < |s.alts| && k != v.present - 1 ==> v.alts[k] == Zero(s.alts[k].schema))
         && AltSurvives(s.alts[v.present - 1], v.alts[v.present - 1])
         && (p.tag.Some? ==> SameHeadSizes(s, p, v))
       else SurvivingScalar(s, p, v)
  }

  /** The tag number of alternative k leads the decoder to k. */
  predicate ChosenByTag(alts: seq<Field>, k: nat)
    requires k < |alts|
  {
    alts[k].params.tag.Some? && FindAlt(alts, 0, alts[k].params.tag.value) == Ok(k)
  }

  predicate AltSurvives(f: Field, v: Value)
    decreases f, 0
  {
    Survives(f.schema, f.params, v)
  }

  predicate Absent(f: Field, v: Value) { f.params.optional && v.VNil? }

  predicate FieldSurvives(f: Field, v: Value)
    decreases f, 0
  {
    && (f.params.optional ==> Nillable(f.schema))
    && (Absent(f, v) || Survives(f.schema, f.params, v))
  }

  /** A tagged CHOICE: its own header is as long as the header of the alternative inside. */
  predicate SameHeadSizes(s: Schema, p: Params, v: Value) {
    var e := Build(s, p, v);
    e.Ok? && e.value.EBer? && HeadSize(e.value) == HeadSize(e.value.value)
  }

  // ---------------------------------------------------------------- shape of an encoding

  /** e is a header for tal followed by contents of the announced length. */
  predicate Tlv(e: Encoder, tal: TagAndLen) {
    e.EBer? && e.tagAndLen == EBytes(HeaderOctets(tal)) && tal.len == |Octs(e.value)| && tal.cls < 4
  }

  /** Surviving values are encoded; the outermost header carries the tag number of the parameters, if any. */
  lemma {:induction false} Encodes(s: Schema, p: Params, v: Value) returns (tal: TagAndLen)
    requires Survives(s, p, v)
    ensures Build(s, p, v).Ok? && Tlv(Build(s, p, v).value, tal) && tal.tagNumber < TWO_63
    ensures p.tag.Some? ==> tal.tagNumber == p.tag.value
    decreases s, 0
  {
    hide HeaderOctets, Octs, FieldSurvives, SameHeadSizes, DistinctTags, ReachesChoice;
    if s.SPtr? {
      tal := Encodes(s.elem, p, v.target);
    } else if s.SWrap? {
      tal := Encodes(s.elem, p, v.inner);
    } else if s.SSlice? {
      ElemsEncode(s.elem, p.(tag := None), v.elems);
      tal := FinishTlv(p, true, SequenceTag(p), EStruct(BuildElems(s.elem, p.(tag := None), v.elems).value));
    } else if s.SStruct? {
      FieldsEncode(s.fields, v.fields);
      tal := FinishTlv(p, true, SequenceTag(p), EStruct(BuildFields(s.fields, v.fields).value.0));
    } else if s.SChoice? {
      var alt := s.alts[v.present - 1];
      assert alt.schema < alt;
      assert AltSurvives(alt, v.alts[v.present - 1]);
      tal := Encodes(alt.schema, alt.params, v.alts[v.present - 1]);
      if p.tag.Some? {
        tal := FinishTlv(p, true, 0, Build(alt.schema, alt.params, v.alts[v.present - 1]).value);
      }
    } else {
      tal := FinishTlv(p, false, UniversalTag(s, p), Contents(s, v).value);
    }
  }

  lemma FinishTlv(p: Params, constructed: bool, utag: nat, content: Encoder) returns (tal: TagAndLen)
    requires (p.tag.Some? ==> !p.explicitTag && p.tag.value < TWO_63) && utag < TWO_63
    ensures Tlv(Finish(p, constructed, utag, content), tal) && tal.tagNumber < TWO_63
    ensures p.tag.Some? ==> tal.tagNumber == p.tag.value
    ensures Finish(p, constructed, utag, content).value == content
  {
    tal := TagAndLen(if p.tag.Some? then CLASS_CONTEXT else 0, constructed,
                     if p.tag.Some? then p.tag.value else utag, |Octs(content)|);
  }

  lemma {:induction false} FieldsEncode(fs: seq<Field>, vs: seq<Value>)
    requires |fs| == |vs| && forall k :: 0 <= k < |fs| ==> FieldSurvives(fs[k], vs[k])
    ensures BuildFields(fs, vs).Ok?
    ensures BuildFields(fs, vs).value.1 <==> exists k :: 0 <= k < |fs| && !Absent(fs[k], vs[k])
    decreases fs, 0
  {
    if fs != [] {
      var n := |fs| - 1;
      FieldsEncode(fs[..n], vs[..n]);
      var f := fs[n];
      assert f.schema < f;
      assert FieldSurvives(f, vs[n]);
      if !Absent(f, vs[n]) {
        var _ := Encodes(f.schema, f.params, vs[n]);
      } else {
        assert forall k :: 0 <= k < n ==> (Absent(fs[k], vs[k]) <==> Absent(fs[..n][k], vs[..n][k]));
      }
    }
  }

  lemma {:induction false} ElemsEncode(e: Schema, p: Params, vs: seq<Value>)
    requires forall k :: 0 <= k < |vs| ==> Survives(e, p, vs[k])
    ensures BuildElems(e, p, vs).Ok?
    decreases e, 1 + |vs|
  {
    if vs != [] {
      ElemsEncode(e, p, vs[..|vs| - 1]);
      var _ := Encodes(e, p, vs[|vs| - 1]);
    }
  }

  /** The decoder reads back the header of an encoding. */
  lemma ReadsHeader(e: Encoder, tal: TagAndLen)
    requires Tlv(e, tal) && tal.tagNumber < TWO_63 && tal.len < MAX_LENGTH
    ensures Octs(e) == HeaderOctets(tal) + Octs(e.value)
    ensures ParseHeader(Octs(e)) == Ok(Header(tal, |HeaderOctets(tal)|)) && IsTlv(Octs(e))
  {
    HeaderRoundTrip(tal, Octs(e.value));
  }

  // ---------------------------------------------------------------- the round trip

  /** The number of contents octets of the outermost TLV. */
  function ContentSize(e: Result<Encoder>): nat {
    if e.Ok? && e.value.EBer? then |Octs(e.value.value)| else 0
  }

  lemma ScalarRoundTrip(s: Schema, p: Params, v: Value)
    requires SurvivingScalar(s, p, v) && |Octs(Contents(s, v).value)| < MAX_LENGTH
    ensures Primitive(s) && ParsePrimitive(s, Octs(Contents(s, v).value)) == Ok(v)
  {
    if s.SInt? || s.SEnumerated? {
      IntRoundTrip(v.i);
    } else if s.SBits? {
      BitLengthRoundTrip(v.bits, v.bitLength);
      assert BitOctets(v.bits, v.bitLength)[1..] == v.bits;
    }
  }

  lemma {:induction false} FindsField(fs: seq<Field>, from: nat, k: nat)
    requires DistinctTags(fs) && from <= k < |fs|
    ensures FindField(fs, from, fs[k].params.tag.value) == Ok(k)
    decreases k - from
  {
    if from < k {
      FindsField(fs, from + 1, k);
    }
  }

  /** The encodings of the fields that are present, in order. */
  function Emitted(fs: seq<Field>, vs: seq<Value>): seq<seq<byte>>
    requires |fs| == |vs|
  {
    if fs == [] then []
    else
      var n := |fs| - 1;
      var before := Emitted(fs[..n], vs[..n]);
      var m := Marshal(fs[n].schema, fs[n].params, vs[n]);
      if Absent(fs[n], vs[n]) || m.Fail? then before else before + [m.value]
  }

  lemma {:induction false} EmittedConcat(fs: seq<Field>, vs: seq<Value>)
    requires |fs| == |vs| && BuildFields(fs, vs).Ok?
    ensures Concat(Emitted(fs, vs)) == AllOcts(BuildFields(fs, vs).value.0)
  {
    hide Build;
    if fs != [] {
      var n := |fs| - 1;
      EmittedConcat(fs[..n], vs[..n]);
      var es := BuildFields(fs, vs).value.0;
      assert es[..n] == BuildFields(fs[..n], vs[..n]).value.0;
      if !Absent(fs[n], vs[n]) {
        var m := Marshal(fs[n].schema, fs[n].params, vs[n]).value;
        assert Emitted(fs, vs)[..|Emitted(fs, vs)| - 1] == Emitted(fs[..n], vs[..n]);
      }
    }
  }

  /** The target after the first n fields: those filled in, the others still zero. */
  function Filled(fs: seq<Field>, vs: seq<Value>, n: nat): (t: seq<Value>)
    requires n <= |fs| == |vs|
    ensures |t| == |fs|
  {
    vs[..n] + Zeros(fs)[n..]
  }

  /** The first n fields come back from their encodings; the loop goes on from field current. */
  predicate FieldsRead(fs: seq<Field>, isSet: bool, vs: seq<Value>, n: nat, current: nat)
    requires n <= |fs| == |vs|
  {
    var ms := Emitted(fs[..n], vs[..n]);
    current <= n && AllTlv(ms) && FoldMembers(fs, isSet, (Zeros(fs), 0), ms) == Ok((Filled(fs, vs, n), current))
  }

  lemma {:induction false} FieldsRoundTrip(fs: seq<Field>, isSet: bool, vs: seq<Value>, n: nat) returns (current: nat)
    requires n <= |fs| == |vs| && DistinctTags(fs)
    requires forall k :: 0 <= k < |fs| ==> FieldSurvives(fs[k], vs[k])
    requires BuildFields(fs[..n], vs[..n]).Ok? && |AllOcts(BuildFields(fs[..n], vs[..n]).value.0)| < MAX_LENGTH
    ensures FieldsRead(fs, isSet, vs, n, current)
    decreases fs, n
  {
    if n == 0 {
      assert Filled(fs, vs, 0) == Zeros(fs);
      return 0;
    }
    var f, v := fs[n - 1], vs[n - 1];
    assert FieldSurvives(f, v);
    LastField(fs, vs, n);
    current := FieldsRoundTrip(fs, isSet, vs, n - 1);
    if Absent(f, v) {
      FilledAbsent(fs, vs, n);
    } else {
      MemberRoundTrip(f, v);
      FieldAdded(fs, isSet, vs, n, current);
      current := n;
    }
  }

  lemma FieldAdded(fs: seq<Field>, isSet: bool, vs: seq<Value>, n: nat, current: nat)
    requires 0 < n <= |fs| == |vs| && DistinctTags(fs) && FieldsRead(fs, isSet, vs, n - 1, current)
    requires var f, v := fs[n - 1], vs[n - 1];
             var m := Marshal(f.schema, f.params, v);
             && m.Ok? && IsTlv(m.value) && MemberTag(m.value) == f.params.tag.value
             && Parse(f.schema, f.params, Zero(f.schema), m.value) == Ok(v)
             && Emitted(fs[..n], vs[..n]) == Emitted(fs[..n - 1], vs[..n - 1]) + [m.value]
    ensures FieldsRead(fs, isSet, vs, n, n)
  {
    var ms := Emitted(fs[..n - 1], vs[..n - 1]);
    var m := Marshal(fs[n - 1].schema, fs[n - 1].params, vs[n - 1]).value;
    AllTlvSnoc(ms, m);
    FieldPlaced(fs, isSet, vs, n, current, m);
    FoldSnoc(fs, isSet, (Zeros(fs), 0), ms, m);
  }

  lemma SpliceStep<T>(a: seq<T>, b: seq<T>, n: nat)
    requires 0 < n <= |a| == |b|
    ensures a[..n] + b[n..] == (a[..n - 1] + b[n - 1..])[n - 1 := a[n - 1]]
  {
  }

  lemma FilledAbsent(fs: seq<Field>, vs: seq<Value>, n: nat)
    requires 0 < n <= |fs| == |vs| && Nillable(fs[n - 1].schema) && vs[n - 1].VNil?
    ensures Filled(fs, vs, n) == Filled(fs, vs, n - 1)
  {
    ZerosAt(fs, n - 1);
    SpliceStep(vs, Zeros(fs), n);
    var t := Filled(fs, vs, n - 1);
    assert t[n - 1] == Zeros(fs)[n - 1] == VNil;
    assert t[n - 1 := VNil] == t;
  }

  /** A present member is one TLV under its own tag, and parses back. */
  lemma MemberRoundTrip(f: Field, v: Value)
    requires Survives(f.schema, f.params, v) && f.params.tag.Some?
    requires ContentSize(Build(f.schema, f.params, v)) < MAX_LENGTH
    ensures Marshal(f.schema, f.params, v).Ok? && IsTlv(Marshal(f.schema, f.params, v).value)
    ensures MemberTag(Marshal(f.schema, f.params, v).value) == f.params.tag.value
    ensures ParseHeader(Marshal(f.schema, f.params, v).value).value.size == HeadSize(Build(f.schema, f.params, v).value)
    ensures Parse(f.schema, f.params, Zero(f.schema), Marshal(f.schema, f.params, v).value) == Ok(v)
    decreases f, 0
  {
    var tal := Encodes(f.schema, f.params, v);
    ReadsHeader(Build(f.schema, f.params, v).value, tal);
    assert f.schema < f;
    RoundTrip(f.schema, f.params, v);
  }

  /** What the last of n fields adds. */
  lemma LastField(fs: seq<Field>, vs: seq<Value>, n: nat)
    requires 0 < n <= |fs| == |vs| && FieldSurvives(fs[n - 1], vs[n - 1])
    requires BuildFields(fs[..n], vs[..n]).Ok? && |AllOcts(BuildFields(fs[..n], vs[..n]).value.0)| < MAX_LENGTH
    ensures BuildFields(fs[..n - 1], vs[..n - 1]).Ok?
    ensures |AllOcts(BuildFields(fs[..n - 1], vs[..n - 1]).value.0)| < MAX_LENGTH
    ensures !Absent(fs[n - 1], vs[n - 1]) ==>
              && Marshal(fs[n - 1].schema, fs[n - 1].params, vs[n - 1]).Ok?
              && ContentSize(Build(fs[n - 1].schema, fs[n - 1].params, vs[n - 1])) < MAX_LENGTH
              && Emitted(fs[..n], vs[..n]) == Emitted(fs[..n - 1], vs[..n - 1]) + [Marshal(fs[n - 1].schema, fs[n - 1].params, vs[n - 1]).value]
    ensures Absent(fs[n - 1], vs[n - 1]) ==> Emitted(fs[..n], vs[..n]) == Emitted(fs[..n - 1], vs[..n - 1])
  {
    assert fs[..n][..n - 1] == fs[..n - 1] && vs[..n][..n - 1] == vs[..n - 1];
    var built, before := BuildFields(fs[..n], vs[..n]).value.0, BuildFields(fs[..n - 1], vs[..n - 1]).value.0;
    assert built[..n - 1] == before;
  }

  lemma FieldPlaced(fs: seq<Field>, isSet: bool, vs: seq<Value>, n: nat, current: nat, m: seq<byte>)
    requires 0 < n <= |fs| == |vs| && current < n && DistinctTags(fs) && IsTlv(m)
    requires MemberTag(m) == fs[n - 1].params.tag.value
    requires Parse(fs[n - 1].schema, fs[n - 1].params, Zero(fs[n - 1].schema), m) == Ok(vs[n - 1])
    ensures PlaceMember(fs, isSet, (Filled(fs, vs, n - 1), current), MemberTag(m), m) == Ok((Filled(fs, vs, n), n))
  {
    FindsField(fs, if isSet then 0 else current, n - 1);
    ZerosAt(fs, n - 1);
    SpliceStep(vs, Zeros(fs), n);
  }

  /** The struct loop reads the fields back from behind any header. */
  lemma StructRoundTrip(fs: seq<Field>, isSet: bool, vs: seq<Value>, hdr: seq<byte>)
    requires |fs| == |vs| && DistinctTags(fs)
    requires forall k :: 0 <= k < |fs| ==> FieldSurvives(fs[k], vs[k])
    requires BuildFields(fs, vs).Ok? && |AllOcts(BuildFields(fs, vs).value.0)| < MAX_LENGTH
    ensures ParseMembers(fs, isSet, (Zeros(fs), 0), hdr + AllOcts(BuildFields(fs, vs).value.0), |hdr|) == Ok(vs)
    decreases fs, |fs| + 1
  {
    assert fs[..|fs|] == fs && vs[..|vs|] == vs;
    var _ := FieldsRoundTrip(fs, isSet, vs, |fs|);
    assert Filled(fs, vs, |fs|) == vs;
    EmittedConcat(fs, vs);
    var bytes := hdr + AllOcts(BuildFields(fs, vs).value.0);
    assert bytes[|hdr|..] == Concat(Emitted(fs, vs));
    ParseMembersIsFold(fs, isSet, (Zeros(fs), 0), bytes, |hdr|, Emitted(fs, vs));
  }

  /** The elements vs come back from their encodings. */
  predicate ElemsRead(e: Schema, p: Params, vs: seq<Value>) {
    var ms, built := EmittedElems(e, p, vs), BuildElems(e, p.(tag := None), vs);
    built.Ok? && AllTlv(ms) && Concat(ms) == AllOcts(built.value) && ParseElems(e, p, ms) == Ok(vs)
  }

  lemma {:induction false} ElemsRoundTrip(e: Schema, p: Params, vs: seq<Value>)
    requires forall k :: 0 <= k < |vs| ==> Survives(e, p.(tag := None), vs[k])
    requires p.tag.Some? ==> !ReachesChoice(e)
    requires BuildElems(e, p.(tag := None), vs).Ok? && |AllOcts(BuildElems(e, p.(tag := None), vs).value)| < MAX_LENGTH
    ensures ElemsRead(e, p, vs)
    decreases e, 1 + |vs|
  {
    if vs != [] {
      var n := |vs| - 1;
      LastElem(e, p, vs);
      ElemsRoundTrip(e, p, vs[..n]);
      ElemRoundTrip(e, p, vs[n]);
      ElemAdded(e, p, vs);
    }
  }

  lemma ElemAdded(e: Schema, p: Params, vs: seq<Value>)
    requires vs != [] && ElemsRead(e, p, vs[..|vs| - 1]) && BuildElems(e, p.(tag := None), vs).Ok?
    requires var m := Marshal(e, p.(tag := None), vs[|vs| - 1]);
             m.Ok? && IsTlv(m.value) && Parse(e, p, Zero(e), m.value) == Ok(vs[|vs| - 1])
    ensures ElemsRead(e, p, vs)
  {
    var n := |vs| - 1;
    var ms, m := EmittedElems(e, p, vs[..n]), Marshal(e, p.(tag := None), vs[n]).value;
    LastElem(e, p, vs);
    AllTlvSnoc(ms, m);
    ElemParsed(e, p, ms, vs, m);
  }

  lemma LastElem(e: Schema, p: Params, vs: seq<Value>)
    requires vs != [] && BuildElems(e, p.(tag := None), vs).Ok?
    ensures var n, q := |vs| - 1, p.(tag := None);
            BuildElems(e, q, vs[..n]).Ok? && Marshal(e, q, vs[n]).Ok? &&
            AllOcts(BuildElems(e, q, vs).value) == AllOcts(BuildElems(e, q, vs[..n]).value) + Marshal(e, q, vs[n]).value &&
            EmittedElems(e, p, vs) == EmittedElems(e, p, vs[..n]) + [Marshal(e, q, vs[n]).value]
  {
    var n, q := |vs| - 1, p.(tag := None);
    assert BuildElems(e, q, vs).value[..n] == BuildElems(e, q, vs[..n]).value;
  }

  /** An element is one TLV and parses back under the parameters of the slice. */
  lemma ElemRoundTrip(e: Schema, p: Params, v: Value)
    requires Survives(e, p.(tag := None), v) && (p.tag.Some? ==> !ReachesChoice(e))
    requires Marshal(e, p.(tag := None), v).Ok? && |Marshal(e, p.(tag := None), v).value| < MAX_LENGTH
    ensures IsTlv(Marshal(e, p.(tag := None), v).value)
    ensures Parse(e, p, Zero(e), Marshal(e, p.(tag := None), v).value) == Ok(v)
    decreases e, 1, 0
  {
    var q := p.(tag := None);
    var tal := Encodes(e, q, v);
    ReadsHeader(Build(e, q, v).value, tal);
    RoundTrip(e, q, v);
    ParseIgnoresTag(e, p, Zero(e), Marshal(e, q, v).value);
  }

  lemma ElemParsed(e: Schema, p: Params, ms: seq<seq<byte>>, vs: seq<Value>, m: seq<byte>)
    requires vs != [] && ParseElems(e, p, ms) == Ok(vs[..|vs| - 1]) && Parse(e, p, Zero(e), m) == Ok(vs[|vs| - 1])
    ensures ParseElems(e, p, ms + [m]) == Ok(vs)
    ensures Concat(ms + [m]) == Concat(ms) + m
  {
    assert (ms + [m])[..|ms|] == ms;
    assert vs[..|vs| - 1] + [vs[|vs| - 1]] == vs;
  }

  /** The encodings of the elements of a slice. */
  function EmittedElems(e: Schema, p: Params, vs: seq<Value>): seq<seq<byte>> {
    if vs == [] then []
    else
      var m := Marshal(e, p.(tag := None), vs[|vs| - 1]);
      EmittedElems(e, p, vs[..|vs| - 1]) + [if m.Ok? then m.value else []]
  }

  /** Only a CHOICE looks at the tag it is decoded under. */
  lemma {:induction false} ParseIgnoresTag(e: Schema, p: Params, t: Value, bytes: seq<byte>)
    requires p.tag.Some? ==> !ReachesChoice(e)
    ensures Parse(e, p, t, bytes) == Parse(e, p.(tag := None), t, bytes)
    decreases e, 0
  {
    if p.tag.Some? && (e.SPtr? || e.SWrap?) {
      ParseIgnoresTag(e.elem, p, if e.SWrap? && t.VWrap? then t.inner else Zero(e.elem), bytes);
    } else if p.tag.Some? && e.SSlice? && Start(bytes).Ok? && Split(bytes, Start(bytes).value.size).Ok? {
      ElemsIgnoreTag(e.elem, p, Split(bytes, Start(bytes).value.size).value);
    }
  }

  lemma {:induction false} ElemsIgnoreTag(e: Schema, p: Params, parts: seq<seq<byte>>)
    requires p.tag.Some? && !ReachesChoice(e)
    ensures ParseElems(e, p, parts) == ParseElems(e, p.(tag := None), parts)
    decreases e, 1 + |parts|
  {
    if parts != [] {
      ElemsIgnoreTag(e, p, parts[..|parts| - 1]);
      ParseIgnoresTag(e, p, Zero(e), parts[|parts| - 1]);
    }
  }

  lemma StructCase(s: Schema, p: Params, v: Value, tal: TagAndLen)
    requires s.SStruct? && Survives(s, p, v) && Build(s, p, v).Ok?
    requires Tlv(Build(s, p, v).value, tal) && tal.tagNumber < TWO_63 && tal.len < MAX_LENGTH
    ensures Parse(s, p, Zero(s), Octs(Build(s, p, v).value)) == Ok(v)
    decreases s, 0, 0
  {
    hide HeaderOctets, ParseHeader, Parse, FieldSurvives, DistinctTags;
    ReadsHeader(Build(s, p, v).value, tal);
    FieldsEncode(s.fields, v.fields);
    StructRoundTrip(s.fields, p.isSet, v.fields, HeaderOctets(tal));
    StructParses(s.fields, p, HeaderOctets(tal), Octs(Build(s, p, v).value), v.fields);
  }

  lemma StructParses(fs: seq<Field>, p: Params, hdr: seq<byte>, m: seq<byte>, vs: seq<Value>)
    requires fs != [] && IsTlv(m) && ParseHeader(m).value.size == |hdr|
    requires ParseMembers(fs, p.isSet, (Zeros(fs), 0), m, |hdr|) == Ok(vs)
    ensures Parse(SStruct(fs), p, Zero(SStruct(fs)), m) == Ok(VStruct(vs))
  {
  }

  lemma SliceCase(s: Schema, p: Params, v: Value, tal: TagAndLen)
    requires s.SSlice? && Survives(s, p, v) && Build(s, p, v).Ok?
    requires Tlv(Build(s, p, v).value, tal) && tal.tagNumber < TWO_63 && tal.len < MAX_LENGTH
    ensures Parse(s, p, Zero(s), Octs(Build(s, p, v).value)) == Ok(v)
    decreases s, 0, 0
  {
    hide HeaderOctets, ParseHeader, Parse, ElemsRead, FieldSurvives, AltSurvives, DistinctTags, ReachesChoice;
    var e := Build(s, p, v).value;
    ReadsHeader(e, tal);
    ElemsEncode(s.elem, p.(tag := None), v.elems);
    var parts := BuildElems(s.elem, p.(tag := None), v.elems).value;
    assert Octs(e.value) == AllOcts(parts) && Octs(e) == HeaderOctets(tal) + AllOcts(parts);
    ElemsRoundTrip(s.elem, p, v.elems);
    hide Survives, HeaderOctets, ParseHeader, Build, BuildElems, AllOcts, Parse, ElemsRead, Octs;
    SliceParses(s.elem, p, HeaderOctets(tal), v.elems);
  }

  lemma SliceParses(e: Schema, p: Params, hdr: seq<byte>, vs: seq<Value>)
    requires ElemsRead(e, p, vs)
    requires var m := hdr + AllOcts(BuildElems(e, p.(tag := None), vs).value);
             IsTlv(m) && ParseHeader(m).value.size == |hdr|
    ensures Parse(SSlice(e), p, Zero(SSlice(e)), hdr + AllOcts(BuildElems(e, p.(tag := None), vs).value)) == Ok(VSlice(vs))
  {
    var ms := EmittedElems(e, p, vs);
    assert (hdr + Concat(ms))[|hdr|..] == Concat(ms);
    SplitMembers(hdr + Concat(ms), |hdr|, ms);
  }

  lemma ChoiceCase(s: Schema, p: Params, v: Value, tal: TagAndLen)
    requires s.SChoice? && Survives(s, p, v) && Build(s, p, v).Ok?
    requires Tlv(Build(s, p, v).value, tal) && tal.tagNumber < TWO_63 && tal.len < MAX_LENGTH
    ensures Parse(s, p, Zero(s), Octs(Build(s, p, v).value)) == Ok(v)
    decreases s, 0, 0
  {
    hide HeaderOctets, ParseHeader, Parse, FieldSurvives, DistinctTags, ReachesChoice, SurvivingScalar;
    var alt, x := s.alts[v.present - 1], v.alts[v.present - 1];
    assert AltSurvives(alt, x);
    ReadsHeader(Build(s, p, v).value, tal);
    MemberRoundTrip(alt, x);
    ChosenParses(s, p, v, tal);
  }

  lemma ChosenParses(s: Schema, p: Params, v: Value, tal: TagAndLen)
    requires s.SChoice? && v.VChoice? && |v.alts| == |s.alts| && 1 <= v.present <= |s.alts|
    requires ChosenByTag(s.alts, v.present - 1)
    requires forall j :: 0 <= j < |s.alts| && j != v.present - 1 ==> v.alts[j] == Zero(s.alts[j].schema)
    requires Build(s, p, v).Ok? && Tlv(Build(s, p, v).value, tal) && IsTlv(Octs(Build(s, p, v).value))
    requires ParseHeader(Octs(Build(s, p, v).value)).value.size == |HeaderOctets(tal)|
    requires p.tag.Some? ==> !p.explicitTag && SameHeadSizes(s, p, v)
    requires var alt, x := s.alts[v.present - 1], v.alts[v.present - 1];
             var m := Marshal(alt.schema, alt.params, x);
             && m.Ok? && IsTlv(m.value) && MemberTag(m.value) == alt.params.tag.value
             && ParseHeader(m.value).value.size == HeadSize(Build(alt.schema, alt.params, x).value)
             && Parse(alt.schema, alt.params, Zero(alt.schema), m.value) == Ok(x)
    ensures Parse(s, p, Zero(s), Octs(Build(s, p, v).value)) == Ok(v)
  {
    hide HeaderOctets, ParseHeader, Zero, FindAlt;
    var k := v.present - 1;
    var m := Marshal(s.alts[k].schema, s.alts[k].params, v.alts[k]).value;
    AltRoundTrip(s.alts, v, k, m);
    if p.tag.Some? {
      TaggedChoiceParses(s.alts, p, HeaderOctets(tal), m);
    } else {
      UntaggedChoiceParses(s.alts, p, m);
    }
  }

  lemma UntaggedChoiceParses(alts: seq<Field>, p: Params, m: seq<byte>)
    requires p.tag.None? && IsTlv(m)
    ensures Parse(SChoice(alts), p, Zero(SChoice(alts)), m) == ParseAlt(alts, Zeros(alts), MemberTag(m), m)
  {
    assert m[0..] == m;
  }

  /** Under a tag the alternative is found when its header is as long as the one around it. */
  lemma TaggedChoiceParses(alts: seq<Field>, p: Params, hdr: seq<byte>, m: seq<byte>)
    requires p.tag.Some? && IsTlv(m) && IsTlv(hdr + m)
    requires ParseHeader(hdr + m).value.size == |hdr| == ParseHeader(m).value.size
    ensures Parse(SChoice(alts), p, Zero(SChoice(alts)), hdr + m) == ParseAlt(alts, Zeros(alts), MemberTag(m), m)
  {
    TaggedStart(p, hdr, m);
    assert (hdr + m)[|hdr|..] == m;
  }

  lemma TaggedStart(p: Params, hdr: seq<byte>, m: seq<byte>)
    requires p.tag.Some? && IsTlv(m) && IsTlv(hdr + m)
    requires ParseHeader(hdr + m).value.size == |hdr| == ParseHeader(m).value.size
    ensures ChoiceStart(p, ParseHeader(hdr + m).value, hdr + m) == Ok((MemberTag(m), |hdr|))
  {
    assert (hdr + m)[|hdr|..] == m;
  }

  lemma AltRoundTrip(alts: seq<Field>, v: Value, k: nat, m: seq<byte>)
    requires v.VChoice? && |v.alts| == |alts| && k < |alts| && v.present == k + 1
    requires ChosenByTag(alts, k)
    requires forall j :: 0 <= j < |alts| && j != k ==> v.alts[j] == Zero(alts[j].schema)
    requires Parse(alts[k].schema, alts[k].params, Zero(alts[k].schema), m) == Ok(v.alts[k])
    ensures ParseAlt(alts, Zeros(alts), alts[k].params.tag.value, m) == Ok(v)
  {
    forall j | 0 <= j < |alts|
      ensures Zeros(alts)[j] == Zero(alts[j].schema)
    {
      ZerosAt(alts, j);
    }
    assert Zeros(alts)[k := v.alts[k]] == v.alts;
  }

  lemma ScalarCase(s: Schema, p: Params, v: Value, tal: TagAndLen)
    requires Primitive(s) && Survives(s, p, v) && Build(s, p, v).Ok?
    requires Tlv(Build(s, p, v).value, tal) && tal.tagNumber < TWO_63 && tal.len < MAX_LENGTH
    ensures Parse(s, p, Zero(s), Octs(Build(s, p, v).value)) == Ok(v)
  {
    var e := Build(s, p, v).value;
    ReadsHeader(e, tal);
    ScalarRoundTrip(s, p, v);
    assert Octs(e)[|HeaderOctets(tal)|..] == Octs(e.value);
  }

  lemma {:induction false} RoundTrip(s: Schema, p: Params, v: Value)
    requires Survives(s, p, v) && ContentSize(Build(s, p, v)) < MAX_LENGTH
    ensures Marshal(s, p, v).Ok? && Parse(s, p, Zero(s), Marshal(s, p, v).value) == Ok(v)
    decreases s, 0, 1
  {
    hide HeaderOctets, ParseHeader, FieldSurvives, AltSurvives, DistinctTags, ReachesChoice, SurvivingScalar, SameHeadSizes, ChosenByTag;
    var tal := Encodes(s, p, v);
    if s.SPtr? {
      RoundTrip(s.elem, p, v.target);
    } else if s.SWrap? {
      RoundTrip(s.elem, p, v.inner);
      ReadsHeader(Build(s, p, v).value, tal);
    } else if s.SStruct? {
      StructCase(s, p, v, tal);
    } else if s.SSlice? {
      SliceCase(s, p, v, tal);
    } else if s.SChoice? {
      ChoiceCase(s, p, v, tal);
    } else {
      ScalarCase(s, p, v, tal);
    }
  }
}
