/** Which CHF records survive the BER codec, and a record that ends longer than its CDR header can say. */
module ChfRecordLaws {
  import opened Bytes
  import opened Results
  import opened Words
  import opened BerHeader
  import opened BerScalars
  import opened BerTypes
  import opened BerMarshal
  import opened BerRoundTrip
  import opened BerLimits
  import opened BerMemberwise
  import opened ChfRecordTypes
  import opened SplitBound

  // ---------------------------------------------------------------- records that survive

  /** A number the decoder reads back: neither short and negative nor beyond 64 bits. */
  predicate Readable(i: int) { 0 <= i < TWO_63 }

  predicate ReadableContainer(c: Container) {
    Readable(c.total) && Readable(c.uplink) && Readable(c.downlink) && Readable(c.serviceUnits) && Readable(c.localNumber)
  }

  predicate ReadableUsage(u: Usage) {
    Readable(u.ratingGroup) && forall k :: 0 <= k < |u.containers| ==> ReadableContainer(u.containers[k])
  }

  lemma WrappedSurvives(i: int, p: Params)
    requires Readable(i) && PlainTag(p)
    ensures Survives(SPtr(WRAPPED_INT), p, Wrapped(i)) && Survives(WRAPPED_INT, p, VWrap(VInt(i))) && Survives(SPtr(SInt), p, VPtr(VInt(i)))
  {
  }

  lemma EnumSurvives(i: int, p: Params)
    requires Readable(i) && PlainTag(p)
    ensures Survives(WRAPPED_ENUM, p, VWrap(VInt(i)))
  {
  }

  lemma OctetsSurvive(s: seq<byte>, p: Params)
    requires PlainTag(p) && p.stringType == 0
    ensures Survives(SPtr(WRAPPED_STRING), p, VPtr(VWrap(VString(s)))) && Survives(WRAPPED_STRING, p, VWrap(VString(s)))
    ensures Survives(SPtr(WRAPPED_OCTETS), p, VPtr(VWrap(VOctets(s)))) && Survives(WRAPPED_OCTETS, p, VWrap(VOctets(s)))
  {
  }

  lemma StructSurvives(fs: seq<Field>, p: Params, vs: seq<Value>, present: nat)
    requires DistinctTags(fs) && |fs| == |vs| && present < |fs| && !Absent(fs[present], vs[present])
    requires p.tag.Some? ==> PlainTag(p)
    requires forall k :: 0 <= k < |fs| ==> FieldSurvives(fs[k], vs[k])
    ensures Survives(SStruct(fs), p, VStruct(vs))
  {
    var s, v := SStruct(fs), VStruct(vs);
    assert !Absent(s.fields[present], v.fields[present]);
    assert forall k :: 0 <= k < |s.fields| ==> FieldSurvives(s.fields[k], v.fields[k]);
  }

  lemma ContainerSurvives(c: Container, p: Params)
    requires ReadableContainer(c) && p.tag.None?
    ensures Survives(CONTAINER, p, ContainerValue(c))
  {
    hide Survives;
    WrappedSurvives(c.total, OptionalTag(4));
    WrappedSurvives(c.uplink, OptionalTag(5));
    WrappedSurvives(c.downlink, OptionalTag(6));
    WrappedSurvives(c.serviceUnits, OptionalTag(7));
    WrappedSurvives(c.localNumber, OptionalTag(9));
    StructSurvives(CONTAINER.fields, p, ContainerValue(c).fields, 0);
  }

  lemma ContainersSurvive(cs: seq<Container>, vs: seq<Value>, p: Params)
    requires PlainTag(p) && |cs| == |vs|
    requires forall k :: 0 <= k < |cs| ==> ReadableContainer(cs[k]) && vs[k] == ContainerValue(cs[k])
    ensures Survives(SSlice(CONTAINER), p, VSlice(vs))
  {
    hide Survives, ContainerValue, ReadableContainer;
    forall k | 0 <= k < |vs| ensures Survives(CONTAINER, p.(tag := None), vs[k]) {
      ContainerSurvives(cs[k], p.(tag := None));
    }
    SliceSurvives(CONTAINER, p, vs);
  }

  lemma UsageSurvives(u: Usage, p: Params)
    requires ReadableUsage(u) && p.tag.None?
    ensures Survives(USAGE, p, UsageValue(u))
  {
    hide Survives, ReadableContainer, ContainerValue;
    WrappedSurvives(u.ratingGroup, Tag(0));
    OctetsSurvive(u.upfId, OptionalTag(2));
    ContainersSurvive(u.containers, UsageValue(u).fields[1].elems, OptionalTag(1));
    StructSurvives(USAGE.fields, p, UsageValue(u).fields, 0);
  }

  lemma SliceSurvives(e: Schema, p: Params, vs: seq<Value>)
    requires PlainTag(p) && !ReachesChoice(e)
    requires forall k :: 0 <= k < |vs| ==> Survives(e, p.(tag := None), vs[k])
    ensures Survives(SSlice(e), p, VSlice(vs))
  {
  }

  /** A record of readable numbers whose remaining parts survive. */
  predicate ReadableRecord(r: RecordData) {
    && (r.usage.Some? ==> forall k :: 0 <= k < |r.usage.value| ==> ReadableUsage(r.usage.value[k]))
    && (r.sequenceNumber.Some? ==> Readable(r.sequenceNumber.value))
    && Readable(r.cause) && Readable(r.localNumber) && Readable(r.opening.chargingId)
    && FieldSurvives(RECORD_FIELDS[2], r.opening.subscriber)
    && FieldSurvives(RECORD_FIELDS[3], r.opening.consumer)
    && FieldSurvives(RECORD_FIELDS[10], r.opening.pduSession)
    && FieldSurvives(RECORD_FIELDS[12], r.opening.serviceInformation)
    && FieldSurvives(RECORD_FIELDS[13], r.opening.registration)
  }

  lemma UsageFieldSurvives(us: seq<Usage>)
    requires forall k :: 0 <= k < |us| ==> ReadableUsage(us[k])
    ensures Survives(SSlice(USAGE), OptionalTag(5), UsageList(us))
  {
    var q := OptionalTag(5);
    forall k | 0 <= k < |us|
      ensures Survives(USAGE, q.(tag := None), UsageList(us).elems[k])
    {
      UsageSurvives(us[k], q.(tag := None));
    }
    SliceSurvives(USAGE, q, UsageList(us).elems);
  }

  lemma AbsentSurvives(f: Field)
    requires f.params.optional && Nillable(f.schema)
    ensures FieldSurvives(f, VNil)
  {
  }

  lemma FirstFieldsSurvive(r: RecordData, k: nat)
    requires ReadableRecord(r) && k < 7
    ensures FieldSurvives(RECORD_FIELDS[k], RecordFields(r)[k])
  {
    hide Survives, UsageList, ReadableUsage;
    if k == 0 { WrappedSurvives(200, Tag(0)); }
    else if k == 1 { OctetsSurvive(r.opening.networkFunction, Tag(1)); }
    else if k == 4 {
      if r.usage.Some? { UsageFieldSurvives(r.usage.value); } else { AbsentSurvives(RECORD_FIELDS[k]); }
    }
    else if k == 5 { OctetsSurvive(r.opening.openedAt, Tag(6)); }
    else if k == 6 { WrappedSurvives(0, Tag(7)); }
  }

  lemma LastFieldsSurvive(r: RecordData, k: nat)
    requires ReadableRecord(r) && 7 <= k < |RECORD_FIELDS|
    ensures FieldSurvives(RECORD_FIELDS[k], RecordFields(r)[k])
  {
    hide Survives, UsageList, ReadableUsage;
    if k == 7 {
      if r.sequenceNumber.Some? { WrappedSurvives(r.sequenceNumber.value, OptionalTag(8)); } else { AbsentSurvives(RECORD_FIELDS[k]); }
    }
    else if k == 8 { WrappedSurvives(r.cause, Tag(9)); }
    else if k == 9 { WrappedSurvives(r.localNumber, OptionalTag(11)); }
    else if k == 11 {
      if r.opening.sessionId == [] { AbsentSurvives(RECORD_FIELDS[k]); } else { OctetsSurvive(r.opening.sessionId, OptionalTag(16)); }
    }
    else if k == 14 { WrappedSurvives(r.opening.chargingId, OptionalTag(27)); }
  }

  lemma RecordTagsDistinct()
    ensures DistinctTags(RECORD_FIELDS)
  {
  }

  /** The records of the charging function meet the side conditions of the codec. */
  lemma RecordSurvives(r: RecordData)
    requires ReadableRecord(r)
    ensures Survives(CHF_RECORD, EXPLICIT_CHOICE, RecordValue(r))
  {
    var vs := RecordFields(r);
    forall k | 0 <= k < |RECORD_FIELDS|
      ensures FieldSurvives(RECORD_FIELDS[k], vs[k])
    {
      if k < 7 { FirstFieldsSurvive(r, k); } else { LastFieldsSurvive(r, k); }
    }
    RecordTagsDistinct();
    FirstPresent(r);
    hide FieldSurvives, RecordFields, DistinctTags, Absent;
    StructSurvives(RECORD_FIELDS, Tag(200), vs, 0);
    OnlyAlternative(vs);
  }

  lemma OnlyAlternative(vs: seq<Value>)
    requires Survives(SStruct(RECORD_FIELDS), Tag(200), VStruct(vs))
    ensures Survives(CHF_RECORD, EXPLICIT_CHOICE, VChoice(1, [VPtr(VStruct(vs))]))
  {
    var alt := Field(SPtr(SStruct(RECORD_FIELDS)), Tag(200));
    assert CHF_RECORD.alts == [alt];
    assert AltSurvives(alt, VPtr(VStruct(vs)));
    assert ChosenByTag(CHF_RECORD.alts, 0);
    hide AltSurvives;
  }

  // ---------------------------------------------------------------- a record that outgrows its CDR header

  const NINE_OCTETS: seq<byte> := [0, 0, 0, 0, 0, 0, 0, 0, 0]

  const PLAIN_CONSUMER := VStruct([VWrap(VInt(1)), VNil, VNil, VNil, VNil, VNil])

  /** A newly opened record with nothing optional but its local number and charging id. */
  const PLAIN := RecordData(Opening([], VNil, PLAIN_CONSUMER, NINE_OCTETS, VNil, [], VNil, VNil, 1), None, None, 0, 1)

  lemma ConsumerTagsDistinct()
    ensures DistinctTags(CONSUMER.fields)
  {
  }

  lemma PlainConsumerParts()
    ensures Survives(CONSUMER, Tag(3), PLAIN_CONSUMER)
  {
    var fs, vs := CONSUMER.fields, PLAIN_CONSUMER.fields;
    hide Survives, DistinctTags;
    ConsumerTagsDistinct();
    EnumSurvives(1, Tag(0));
    forall k | 0 <= k < |fs|
      ensures FieldSurvives(fs[k], vs[k])
    {
      if k > 0 { AbsentSurvives(fs[k]); }
    }
    StructSurvives(fs, Tag(3), vs, 0);
  }

  lemma PlainConsumerSurvives()
    ensures FieldSurvives(RECORD_FIELDS[3], PLAIN_CONSUMER)
  {
    hide Survives, CONSUMER;
    PlainConsumerParts();
  }

  lemma PlainReadable()
    ensures ReadableRecord(PLAIN) && RecordOctets(PLAIN).Ok?
  {
    PlainConsumerSurvives();
    AbsentSurvives(RECORD_FIELDS[2]);
    AbsentSurvives(RECORD_FIELDS[10]);
    AbsentSurvives(RECORD_FIELDS[12]);
    AbsentSurvives(RECORD_FIELDS[13]);
    hide FieldSurvives, Survives, RecordFields;
    RecordSurvives(PLAIN);
    var _ := Encodes(CHF_RECORD, EXPLICIT_CHOICE, RecordValue(PLAIN));
  }

  lemma SumStep(fs: seq<Field>, vs: seq<Value>, n: nat)
    requires n < |fs| == |vs|
    ensures SumSizes(fs[..n + 1], vs[..n + 1]) == SumSizes(fs[..n], vs[..n]) + FieldSize(fs[n], vs[n])
  {
    assert fs[..n + 1][..n] == fs[..n] && vs[..n + 1][..n] == vs[..n];
  }

  /** A primitive field under a low tag takes an identifier octet, length octets and its contents. */
  lemma ScalarFieldSize(s: Schema, p: Params, v: Value)
    requires Primitive(s) && PlainTag(p) && p.tag.value <= 30 && Contents(s, v).Ok? && v != VNil
    ensures var size := TlvSize(|Octs(Contents(s, v).value)|);
            && FieldSize(Field(s, p), v) == size
            && FieldSize(Field(SWrap(s), p), VWrap(v)) == size
            && FieldSize(Field(SPtr(s), p), VPtr(v)) == size
            && FieldSize(Field(SPtr(SWrap(s)), p), VPtr(VWrap(v))) == size
  {
    hide HeaderOctets, LenOctets;
    var content := Contents(s, v).value;
    var t := TagAndLen(CLASS_CONTEXT, false, p.tag.value, |Octs(content)|);
    HeadSizes(t);
    assert Build(s, p, v) == Ok(EBer(EBytes(HeaderOctets(t)), content));
    assert Octs(EBer(EBytes(HeaderOctets(t)), content)) == HeaderOctets(t) + Octs(content);
  }

  lemma SmallIntSize(i: int, p: Params)
    requires 0 <= i <= 127 && PlainTag(p) && p.tag.value <= 30
    ensures FieldSize(Field(WRAPPED_INT, p), VWrap(VInt(i))) == 3 && FieldSize(Field(WRAPPED_ENUM, p), VWrap(VInt(i))) == 3
    ensures FieldSize(Field(SPtr(WRAPPED_INT), p), Wrapped(i)) == 3
  {
    ScalarFieldSize(SInt, p, VInt(i));
    ScalarFieldSize(SEnumerated, p, VInt(i));
    hide FieldSize;
    assert |Octets(i, IntLen(i))| == 1;
    LenOctetsSize(1);
  }

  lemma StringSize(s: seq<byte>, p: Params)
    requires PlainTag(p) && p.tag.value <= 30
    ensures FieldSize(Field(WRAPPED_STRING, p), VWrap(VString(s))) == TlvSize(|s|)
    ensures FieldSize(Field(SPtr(WRAPPED_STRING), p), VPtr(VWrap(VString(s)))) == TlvSize(|s|)
    ensures FieldSize(Field(WRAPPED_OCTETS, p), VWrap(VOctets(s))) == TlvSize(|s|)
  {
    ScalarFieldSize(SString, p, VString(s));
    ScalarFieldSize(SOctets, p, VOctets(s));
  }

  lemma PlainFirstSizes(k: nat)
    requires k < 7
    ensures FieldSize(RECORD_FIELDS[k], RecordFields(PLAIN)[k]) == [4, 2, 0, 5, 0, 11, 3][k]
  {
    hide FieldSize, TlvSize;
    if k == 0 {
      ScalarFieldSize(SInt, Tag(0), VInt(200));
      assert |Octets(200, IntLen(200))| == 2;
      SmallTlv(2);
    } else if k == 1 {
      StringSize([], Tag(1));
      SmallTlv(0);
    } else if k == 3 {
      PlainConsumerSize();
    } else if k == 5 {
      StringSize(NINE_OCTETS, Tag(6));
      SmallTlv(9);
    } else if k == 6 {
      SmallIntSize(0, Tag(7));
    } else {
      AbsentSize(RECORD_FIELDS[k], RecordFields(PLAIN)[k]);
    }
  }

  lemma PlainLastSizes(k: nat)
    requires 7 <= k < |RECORD_FIELDS|
    ensures FieldSize(RECORD_FIELDS[k], RecordFields(PLAIN)[k]) == [0, 3, 3, 0, 0, 0, 0, 3][k - 7]
  {
    hide FieldSize, TlvSize;
    if k == 8 {
      SmallIntSize(0, Tag(9));
    } else if k == 9 {
      SmallIntSize(1, OptionalTag(11));
    } else if k == 14 {
      SmallIntSize(1, OptionalTag(27));
    } else {
      AbsentSize(RECORD_FIELDS[k], RecordFields(PLAIN)[k]);
    }
  }

  lemma PlainFieldSize(k: nat)
    requires k < |RECORD_FIELDS|
    ensures FieldSize(RECORD_FIELDS[k], RecordFields(PLAIN)[k]) == PLAIN_SIZES[k]
  {
    hide FieldSize, RecordFields;
    if k < 7 { PlainFirstSizes(k); } else { PlainLastSizes(k); }
  }

  lemma SmallTlv(n: nat)
    requires n <= 127
    ensures TlvSize(n) == 2 + n
  {
  }

  lemma PlainConsumerBuilt()
    ensures Marshal(CONSUMER, Tag(3), PLAIN_CONSUMER).Ok?
  {
    hide Survives, CONSUMER;
    PlainConsumerParts();
    var _ := Encodes(CONSUMER, Tag(3), PLAIN_CONSUMER);
  }

  lemma PlainConsumerSum()
    ensures SumSizes(CONSUMER.fields, PLAIN_CONSUMER.fields) == 3
  {
    hide LenOctets, HeaderOctets, FieldSize, SumSizes, Build;
    SmallIntSize(1, Tag(0));
    FirstFieldOnly(CONSUMER.fields, PLAIN_CONSUMER.fields);
  }

  lemma PlainConsumerSize()
    ensures FieldSize(RECORD_FIELDS[3], PLAIN_CONSUMER) == 5
  {
    hide LenOctets, HeaderOctets, FieldSize, Marshal, TlvSize, SumSizes;
    PlainConsumerBuilt();
    PlainConsumerSum();
    StructFieldSize(CONSUMER.fields, Tag(3), PLAIN_CONSUMER.fields);
    SmallTlv(3);
  }

  lemma {:induction false} FirstFieldOnly(fs: seq<Field>, vs: seq<Value>)
    requires |fs| == |vs| > 0 && forall k :: 1 <= k < |fs| ==> Absent(fs[k], vs[k])
    ensures SumSizes(fs, vs) == FieldSize(fs[0], vs[0])
  {
    hide FieldSize;
    if |fs| > 1 {
      AbsentSize(fs[|fs| - 1], vs[|vs| - 1]);
      FirstFieldOnly(fs[..|fs| - 1], vs[..|vs| - 1]);
    } else {
      assert fs[..0] == [] && vs[..0] == [];
    }
  }

  lemma StructFieldSize(fs: seq<Field>, p: Params, vs: seq<Value>)
    requires PlainTag(p) && p.tag.value <= 30 && Marshal(SStruct(fs), p, VStruct(vs)).Ok? && |fs| == |vs|
    ensures FieldSize(Field(SStruct(fs), p), VStruct(vs)) == TlvSize(SumSizes(fs, vs))
  {
    hide HeaderOctets, LenOctets, BuildFields;
    StructSize(fs, vs);
    var content := EStruct(BuildFields(fs, vs).value.0);
    var t := TagAndLen(CLASS_CONTEXT, true, p.tag.value, |Octs(content)|);
    HeadSizes(t);
    assert Build(SStruct(fs), p, VStruct(vs)) == Ok(EBer(EBytes(HeaderOctets(t)), content));
    assert Octs(EBer(EBytes(HeaderOctets(t)), content)) == HeaderOctets(t) + Octs(content);
  }

  const PLAIN_SIZES := [4, 2, 0, 5, 0, 11, 3, 0, 3, 3, 0, 0, 0, 0, 3]

  function PlainSum(n: nat): nat
    requires n <= 15
  {
    if n == 0 then 0 else PlainSum(n - 1) + PLAIN_SIZES[n - 1]
  }

  lemma {:induction false} PlainSums(n: nat)
    requires n <= 15
    ensures SumSizes(RECORD_FIELDS[..n], RecordFields(PLAIN)[..n]) == PlainSum(n)
  {
    hide FieldSize, RecordFields;
    if n > 0 {
      PlainSums(n - 1);
      SumStep(RECORD_FIELDS, RecordFields(PLAIN), n - 1);
      PlainFieldSize(n - 1);
    }
  }

  lemma PlainContent()
    ensures RecordContent(PLAIN) == 34
  {
    PlainSums(15);
    hide RecordFields;
    assert RECORD_FIELDS[..15] == RECORD_FIELDS && RecordFields(PLAIN)[..15] == RecordFields(PLAIN);
    hide SumSizes;
    assert PlainSum(7) == 25;
  }

  // ---------------------------------------------------------------- one long usage item

  /** A usage item without containers, as long as the name in it. */
  function LongUsage(n: nat): Usage { Usage(0, [], seq(n, i => 0)) }

  lemma LongUsageReadable(n: nat)
    ensures ReadableUsage(LongUsage(n)) && ItemOctets([LongUsage(n)]).Ok?
  {
    UsageSurvives(LongUsage(n), UNTAGGED);
    hide Survives, UsageValue;
    var _ := Encodes(USAGE, UNTAGGED, UsageValue(LongUsage(n)));
    OneItem(USAGE, UNTAGGED, UsageValue(LongUsage(n)));
    assert UsageList([LongUsage(n)]).elems == [UsageValue(LongUsage(n))];
  }

  lemma OneItem(e: Schema, p: Params, v: Value)
    requires Build(e, p, v).Ok?
    ensures BuildElems(e, p, [v]) == Ok([Build(e, p, v).value])
  {
    hide Build;
    assert [v][..0] == [];
    assert BuildElems(e, p, []) == Ok([]);
    assert [] + [Build(e, p, v).value] == [Build(e, p, v).value];
  }

  lemma LongUsageSize(n: nat)
    requires 256 <= n < 65500
    ensures ListOctets([LongUsage(n)]).Ok? && |ListOctets([LongUsage(n)]).value| == n + 17
  {
    LongUsageReadable(n);
    ListSize([LongUsage(n)]);
    LongItemSize(n);
    hide ListOctets, ItemOctets, ItemsSize;
    LongTlv(n + 9 + 4);
  }

  lemma LongTlv(n: nat)
    requires 256 <= n <= 65535
    ensures TlvSize(n) == n + 4
  {
    LenOctetsSize(n);
    hide LenOctets;
  }

  lemma LongItemSize(n: nat)
    requires 256 <= n < 65500
    ensures ItemsSize([LongUsage(n)]) == n + 13
  {
    hide LenOctets, HeaderOctets, UsageValue, ReadableUsage, TlvSize, LongUsage, UsageList, SumSizes, Build;
    var v := UsageValue(LongUsage(n));
    LongUsageReadable(n);
    LongFieldsSize(n);
    assert UsageList([LongUsage(n)]).elems == [v];
    LongUsageBuilt(n);
    OneItem(USAGE, UNTAGGED, v);
    UntaggedStructSize(USAGE.fields, v.fields);
    LongTlv(n + 9);
    SingleOctets(Build(USAGE, UNTAGGED, v).value);
  }

  lemma LongUsageBuilt(n: nat)
    ensures Build(USAGE, UNTAGGED, UsageValue(LongUsage(n))).Ok?
  {
    LongUsageReadable(n);
    hide Survives, UsageValue, LongUsage, Build;
    UsageSurvives(LongUsage(n), UNTAGGED);
    var _ := Encodes(USAGE, UNTAGGED, UsageValue(LongUsage(n)));
  }

  lemma SingleOctets(e: Encoder)
    ensures AllOcts([e]) == Octs(e)
  {
    assert [e][..0] == [];
  }

  lemma UntaggedStructSize(fs: seq<Field>, vs: seq<Value>)
    requires Build(SStruct(fs), UNTAGGED, VStruct(vs)).Ok? && |fs| == |vs|
    ensures |Octs(Build(SStruct(fs), UNTAGGED, VStruct(vs)).value)| == TlvSize(SumSizes(fs, vs))
  {
    hide HeaderOctets, LenOctets, BuildFields;
    StructSize(fs, vs);
    var content := EStruct(BuildFields(fs, vs).value.0);
    var t := TagAndLen(0, true, TAG_SEQUENCE, |Octs(content)|);
    HeadSizes(t);
    assert Octs(EBer(EBytes(HeaderOctets(t)), content)) == HeaderOctets(t) + Octs(content);
  }

  lemma LongFieldsSize(n: nat)
    requires 256 <= n < 65500
    ensures UsageValue(LongUsage(n)).VStruct? && |UsageValue(LongUsage(n)).fields| == |USAGE.fields|
    ensures SumSizes(USAGE.fields, UsageValue(LongUsage(n)).fields) == n + 9
  {
    hide FieldSize, LenOctets, TlvSize;
    var fs, vs := USAGE.fields, UsageValue(LongUsage(n)).fields;
    SmallIntSize(0, Tag(0));
    NoContainersSize();
    assert vs[1] == VSlice([]);
    StringSize(seq(n, i => 0), OptionalTag(2));
    LongTlv(n);
    SumStep(fs, vs, 0);
    SumStep(fs, vs, 1);
    SumStep(fs, vs, 2);
    assert fs[..3] == fs && vs[..3] == vs;
  }

  lemma NoContainersSize()
    ensures FieldSize(Field(SSlice(CONTAINER), OptionalTag(1)), VSlice([])) == 2
  {
    hide HeaderOctets;
    var t := TagAndLen(CLASS_CONTEXT, true, 1, 0);
    HeadSizes(t);
    assert Build(SSlice(CONTAINER), OptionalTag(1), VSlice([])) == Ok(EBer(EBytes(HeaderOctets(t)), EStruct([])));
    assert Octs(EBer(EBytes(HeaderOctets(t)), EStruct([]))) == HeaderOctets(t);
  }

  lemma OutgrownLength(r: RecordData, more: seq<Usage>)
    requires r.usage.None? && RecordOctets(r).Ok? && ListOctets(more).Ok? && RecordContent(r) <= 127
    requires |RecordOctets(r).value| + |ListOctets(more).value| == 65535
    ensures RecordOctets(WithMore(r, more)).Ok? && |RecordOctets(WithMore(r, more)).value| == 65537
  {
    hide RecordFields, RecordOctets, ListOctets, RecordContent, LenOctets, FieldGrowth, WithMore;
    UnsplitBound(r, more);
    UpdatedLength(r, more);
    GrowthBound(r, more);
    RecordLength(r);
    LenOctetsSize(RecordContent(r));
    LenOctetsSize(RecordContent(r) + FieldGrowth(r, more));
  }

  lemma PlainWithMore(more: seq<Usage>)
    requires forall k :: 0 <= k < |more| ==> ReadableUsage(more[k])
    ensures ReadableRecord(WithMore(PLAIN, more))
  {
    PlainReadable();
    hide FieldSurvives, ReadableUsage;
    assert Items(PLAIN) + more == more;
  }

  lemma PlainLength()
    ensures RecordOctets(PLAIN).Ok? && |RecordOctets(PLAIN).value| == 38
  {
    hide RecordOctets, RecordContent, LenOctets, ReadableRecord;
    PlainReadable();
    PlainContent();
    RecordLength(PLAIN);
    LenOctetsSize(34);
  }

  /** An update that is not split can leave a record of 65537 octets: its CDR header says 1. */
  lemma RecordOutgrowsHeader()
    ensures exists r: RecordData, more: seq<Usage> ::
              && ReadableRecord(WithMore(r, more))
              && RecordOctets(r).Ok? && ListOctets(more).Ok?
              && |RecordOctets(r).value| + |ListOctets(more).value| <= 65535
              && RecordOctets(WithMore(r, more)).Ok? && |RecordOctets(WithMore(r, more)).value| == 65537
  {
    hide RecordOctets, ListOctets, RecordContent, LongUsage, ReadableUsage, ReadableRecord, WithMore;
    PlainLength();
    PlainContent();
    var more := [LongUsage(65480)];
    LongUsageReadable(65480);
    LongUsageSize(65480);
    PlainWithMore(more);
    OutgrownLength(PLAIN, more);
  }
}
