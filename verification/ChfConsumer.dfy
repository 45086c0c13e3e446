/** Which consumer addresses let a CHF record come back: the tagged CHOICEs the charging function fills. */
module ChfConsumer {
  import opened Bytes
  import opened Results
  import opened BerHeader
  import opened BerTypes
  import opened BerMarshal
  import opened BerUnmarshal
  import opened BerMembers
  import opened BerRoundTrip
  import opened BerLimits
  import opened BerMemberwise
  import opened BerTaggedChoice
  import BerTaggedSlice
  import opened BerTaggedAlternative
  import opened ChfRecordTypes
  import opened SplitBound
  import opened ChfRecordLaws

  /** The consumer as a record takes it from the request; text addresses and the domain name go into CHOICEs. */
  datatype Consumer = Consumer(
    functionality: int, name: Option<seq<byte>>, v4: Option<seq<byte>>, plmn: Option<seq<byte>>, v6: Option<seq<byte>>, fqdn: Option<seq<byte>>)

  /** Alternatives of the address types, as indices. */
  const TEXT_V4 := 2
  const TEXT_V6 := 3
  const DOMAIN_NAME := 1

  function Chosen(alts: seq<Field>, k: nat, o: Option<seq<byte>>): Value
    requires k < |alts| && OctetsLike(alts[k].schema)
  {
    if o.None? then VNil else VPtr(OctetsChosen(alts, k, o.value))
  }

  function ConsumerFields(c: Consumer): (vs: seq<Value>)
    ensures |vs| == |CONSUMER.fields|
  {
    [VWrap(VInt(c.functionality)),
     if c.name.None? then VNil else VPtr(VWrap(VString(c.name.value))),
     Chosen(IP_ADDRESS.alts, TEXT_V4, c.v4),
     if c.plmn.None? then VNil else VPtr(VWrap(VOctets(c.plmn.value))),
     Chosen(IP_ADDRESS.alts, TEXT_V6, c.v6),
     Chosen(NODE_ADDRESS.alts, DOMAIN_NAME, c.fqdn)]
  }

  function ConsumerValue(c: Consumer): Value { VStruct(ConsumerFields(c)) }

  /** The addresses that come back from their CHOICEs. */
  predicate AddressesReturn(c: Consumer) {
    && (c.v4.Some? ==> ReturnsUnderTag(2, |c.v4.value|))
    && (c.v6.Some? ==> ReturnsUnderTag(3, |c.v6.value|))
    && (c.fqdn.Some? ==> ReturnsUnderTag(1, |c.fqdn.value|))
  }

  // ---------------------------------------------------------------- one address

  /** An optional field holding a pointer to a CHOICE. */
  function ChoiceField(alts: seq<Field>, tag: nat): Field { Field(SPtr(SChoice(alts)), OptionalTag(tag)) }

  lemma ChoiceFieldBuilds(alts: seq<Field>, tag: nat, k: nat, o: seq<byte>)
    requires k < |alts| && OctetsLike(alts[k].schema) && PlainTag(alts[k].params) && tag <= 30
    ensures var b := Build(SPtr(SChoice(alts)), OptionalTag(tag), VPtr(OctetsChosen(alts, k, o)));
            b.Ok? && ContentSize(b) == |InnerHead(alts, k, o)| + |o|
  {
    hide HeaderOctets, OctetsLike, OctetsIn;
    var v := OctetsChosen(alts, k, o);
    assert v.alts[k] == OctetsIn(alts[k].schema, o);
    OctetsBuilt(alts[k].schema, alts[k].params, o);
    var built := Build(alts[k].schema, alts[k].params, v.alts[k]);
    assert Build(SChoice(alts), OptionalTag(tag), v) == Ok(Finish(OptionalTag(tag), true, 0, built.value));
  }

  lemma ChoiceFieldExact(alts: seq<Field>, tag: nat, k: nat, o: seq<byte>)
    requires OctetsUnderTag(alts, OptionalTag(tag), k, o) && alts[k].params.tag.value <= 30 && tag <= 30
    ensures Encoded(ChoiceField(alts, tag), VPtr(OctetsChosen(alts, k, o)))
    ensures Returns(ChoiceField(alts, tag), VPtr(OctetsChosen(alts, k, o))) <==> ReturnsUnderTag(alts[k].params.tag.value, |o|)
  {
    var p, v := OptionalTag(tag), OctetsChosen(alts, k, o);
    TaggedOctetsLowTags(alts, p, k, o);
    PointerAlike(SChoice(alts), p, v);
    hide OctetsChosen, Marshal, Unmarshal, Parse, OctetsUnderTag, ReturnsUnderTag, IsTlv;
  }

  /** A pointer is encoded as what it points at, and comes back if that does. */
  lemma PointerAlike(s: Schema, p: Params, v: Value)
    ensures Marshal(SPtr(s), p, VPtr(v)) == Marshal(s, p, v)
    ensures forall m :: Parse(SPtr(s), p, Zero(SPtr(s)), m) == Ok(VPtr(v)) <==> Unmarshal(s, p, m) == Ok(v)
  {
  }

  // ---------------------------------------------------------------- the consumer

  lemma AddressAlternatives()
    ensures forall k: nat :: k < 4 ==> ChosenByTag(IP_ADDRESS.alts, k)
    ensures ChosenByTag(NODE_ADDRESS.alts, DOMAIN_NAME)
  {
    assert FindAlt(IP_ADDRESS.alts, 1, 1) == Ok(1);
    assert FindAlt(IP_ADDRESS.alts, 2, 2) == Ok(2) == FindAlt(IP_ADDRESS.alts, 1, 2);
    assert FindAlt(IP_ADDRESS.alts, 3, 3) == Ok(3) == FindAlt(IP_ADDRESS.alts, 2, 3);
    assert FindAlt(IP_ADDRESS.alts, 1, 3) == Ok(3);
    assert FindAlt(NODE_ADDRESS.alts, 1, 1) == Ok(1);
  }

  lemma AddressBuilds(alts: seq<Field>, tag: nat, k: nat, o: Option<seq<byte>>)
    requires k < |alts| && OctetsLike(alts[k].schema) && PlainTag(alts[k].params) && tag <= 30
    ensures FieldBuilds(ChoiceField(alts, tag), Chosen(alts, k, o))
    ensures o.Some? ==> ContentSize(Build(SPtr(SChoice(alts)), OptionalTag(tag), Chosen(alts, k, o))) == |InnerHead(alts, k, o.value)| + |o.value|
  {
    if o.Some? {
      ChoiceFieldBuilds(alts, tag, k, o.value);
    }
    hide Build;
  }

  lemma AddressExact(alts: seq<Field>, tag: nat, k: nat, o: Option<seq<byte>>)
    requires k < |alts| && OctetsLike(alts[k].schema) && PlainTag(alts[k].params) && ChosenByTag(alts, k)
    requires alts[k].params.tag.value <= 30 && tag <= 30 && (o.Some? ==> |InnerHead(alts, k, o.value)| + |o.value| < MAX_LENGTH)
    ensures Encoded(ChoiceField(alts, tag), Chosen(alts, k, o))
    ensures Returns(ChoiceField(alts, tag), Chosen(alts, k, o)) <==> (o.Some? ==> ReturnsUnderTag(alts[k].params.tag.value, |o.value|))
  {
    if o.Some? {
      ChoiceFieldExact(alts, tag, k, o.value);
    }
    hide Marshal, Parse, ReturnsUnderTag, ChosenByTag, OctetsLike, InnerHead;
  }

  /** The fields that are no addresses survive. */
  lemma PlainPartsSurvive(c: Consumer, k: nat)
    requires Readable(c.functionality) && (k == 0 || k == 1 || k == 3)
    ensures FieldSurvives(CONSUMER.fields[k], ConsumerFields(c)[k])
  {
    hide Survives;
    if k == 0 {
      EnumSurvives(c.functionality, Tag(0));
    } else if k == 1 {
      if c.name.Some? { OctetsSurvive(c.name.value, OptionalTag(1)); } else { AbsentSurvives(CONSUMER.fields[k]); }
    } else {
      if c.plmn.Some? { OctetsSurvive(c.plmn.value, OptionalTag(3)); } else { AbsentSurvives(CONSUMER.fields[k]); }
    }
  }

  lemma SurvivingBuilds(f: Field, v: Value)
    requires FieldSurvives(f, v)
    ensures FieldBuilds(f, v)
  {
    hide Survives, Build;
    if !Absent(f, v) {
      var _ := Encodes(f.schema, f.params, v);
    }
  }

  lemma ConsumerBuilds(c: Consumer)
    requires Readable(c.functionality)
    ensures BuildFields(CONSUMER.fields, ConsumerFields(c)).Ok?
  {
    var fs, vs := CONSUMER.fields, ConsumerFields(c);
    hide FieldBuilds, FieldSurvives, Build, BuildFields, Chosen;
    forall k | 0 <= k < |fs| ensures FieldBuilds(fs[k], vs[k]) {
      if k == 2 { AddressBuilds(IP_ADDRESS.alts, 2, TEXT_V4, c.v4); }
      else if k == 4 { AddressBuilds(IP_ADDRESS.alts, 4, TEXT_V6, c.v6); }
      else if k == 5 { AddressBuilds(NODE_ADDRESS.alts, 5, DOMAIN_NAME, c.fqdn); }
      else {
        PlainPartsSurvive(c, k);
        SurvivingBuilds(fs[k], vs[k]);
      }
    }
    FieldsBuild(fs, vs);
  }

  /** No part is longer than the whole. */
  lemma AddressFits(c: Consumer, k: nat, alts: seq<Field>, tag: nat, alt: nat, o: Option<seq<byte>>)
    requires BuildFields(CONSUMER.fields, ConsumerFields(c)).Ok? && k < |CONSUMER.fields|
    requires |AllOcts(BuildFields(CONSUMER.fields, ConsumerFields(c)).value.0)| < MAX_LENGTH
    requires alt < |alts| && OctetsLike(alts[alt].schema) && PlainTag(alts[alt].params) && tag <= 30
    requires CONSUMER.fields[k] == ChoiceField(alts, tag) && ConsumerFields(c)[k] == Chosen(alts, alt, o)
    ensures o.Some? ==> |InnerHead(alts, alt, o.value)| + |o.value| < MAX_LENGTH
  {
    hide BuildFields, ConsumerFields, AllOcts, Build, InnerHead, OctetsChosen, OctetsLike;
    if o.Some? {
      AddressBuilds(alts, tag, alt, o);
      MemberFits(CONSUMER.fields, ConsumerFields(c), k);
    }
  }

  /** Every field of a consumer is encoded; the plain parts return, and each address exactly at its lengths. */
  lemma ConsumerFieldExact(c: Consumer, k: nat)
    requires Readable(c.functionality) && BuildFields(CONSUMER.fields, ConsumerFields(c)).Ok? && k < |CONSUMER.fields|
    requires |AllOcts(BuildFields(CONSUMER.fields, ConsumerFields(c)).value.0)| < MAX_LENGTH
    ensures Encoded(CONSUMER.fields[k], ConsumerFields(c)[k])
    ensures Returns(CONSUMER.fields[k], ConsumerFields(c)[k]) <==>
            && (k == 2 && c.v4.Some? ==> ReturnsUnderTag(2, |c.v4.value|))
            && (k == 4 && c.v6.Some? ==> ReturnsUnderTag(3, |c.v6.value|))
            && (k == 5 && c.fqdn.Some? ==> ReturnsUnderTag(1, |c.fqdn.value|))
  {
    AddressAlternatives();
    hide BuildFields, AllOcts, Build, Encoded, Returns, InnerHead, OctetsChosen, ReturnsUnderTag, ChosenByTag, FieldSurvives, Absent;
    if k == 2 {
      AddressFits(c, k, IP_ADDRESS.alts, 2, TEXT_V4, c.v4);
      AddressExact(IP_ADDRESS.alts, 2, TEXT_V4, c.v4);
    } else if k == 4 {
      AddressFits(c, k, IP_ADDRESS.alts, 4, TEXT_V6, c.v6);
      AddressExact(IP_ADDRESS.alts, 4, TEXT_V6, c.v6);
    } else if k == 5 {
      AddressFits(c, k, NODE_ADDRESS.alts, 5, DOMAIN_NAME, c.fqdn);
      AddressExact(NODE_ADDRESS.alts, 5, DOMAIN_NAME, c.fqdn);
    } else {
      PlainFieldExact(c, k);
    }
  }

  lemma PlainFieldExact(c: Consumer, k: nat)
    requires Readable(c.functionality) && BuildFields(CONSUMER.fields, ConsumerFields(c)).Ok? && (k == 0 || k == 1 || k == 3)
    requires |AllOcts(BuildFields(CONSUMER.fields, ConsumerFields(c)).value.0)| < MAX_LENGTH
    ensures Encoded(CONSUMER.fields[k], ConsumerFields(c)[k]) && Returns(CONSUMER.fields[k], ConsumerFields(c)[k])
  {
    hide BuildFields, AllOcts, Build, Encoded, Returns, FieldSurvives, Absent, ConsumerFields;
    PlainPartsSurvive(c, k);
    if !Absent(CONSUMER.fields[k], ConsumerFields(c)[k]) {
      MemberFits(CONSUMER.fields, ConsumerFields(c), k);
    }
    SurvivingIsEncoded(CONSUMER.fields[k], ConsumerFields(c)[k]);
  }

  lemma FunctionalityPresent(c: Consumer)
    ensures !Absent(CONSUMER.fields[0], ConsumerFields(c)[0])
  {
  }

  lemma ConsumerContent(c: Consumer, p: Params)
    requires Readable(c.functionality) && (p.tag.Some? ==> PlainTag(p))
    ensures BuildFields(CONSUMER.fields, ConsumerFields(c)).Ok?
    ensures ContentSize(Build(CONSUMER, p, ConsumerValue(c))) == |AllOcts(BuildFields(CONSUMER.fields, ConsumerFields(c)).value.0)|
  {
    hide BuildFields, AllOcts, Build, ConsumerFields, Concat, Emitted;
    ConsumerBuilds(c);
    FieldsBuild(CONSUMER.fields, ConsumerFields(c));
    FunctionalityPresent(c);
    StructMarshalled(CONSUMER.fields, p, ConsumerFields(c));
    EmittedConcat(CONSUMER.fields, ConsumerFields(c));
  }

  /** A consumer comes back from a record if and only if its addresses avoid the lengths at which the header around a
      CHOICE is longer than the one inside. */
  lemma ConsumerReturnsIff(c: Consumer)
    requires Readable(c.functionality) && ContentSize(Build(CONSUMER, Tag(3), ConsumerValue(c))) < MAX_LENGTH
    ensures var m := Marshal(CONSUMER, Tag(3), ConsumerValue(c));
            && m.Ok? && IsTlv(m.value) && MemberTag(m.value) == 3
            && (Unmarshal(CONSUMER, Tag(3), m.value) == Ok(ConsumerValue(c)) <==> AddressesReturn(c))
  {
    hide BuildFields, AllOcts, Build, Encoded, Returns, Absent, Marshal, Unmarshal, ConsumerFields, DistinctTags, ReturnsUnderTag, IsTlv;
    var fs, vs := CONSUMER.fields, ConsumerFields(c);
    ConsumerContent(c, Tag(3));
    forall k | 0 <= k < |fs|
      ensures Encoded(fs[k], vs[k])
      ensures Returns(fs[k], vs[k]) <==>
              && (k == 2 && c.v4.Some? ==> ReturnsUnderTag(2, |c.v4.value|))
              && (k == 4 && c.v6.Some? ==> ReturnsUnderTag(3, |c.v6.value|))
              && (k == 5 && c.fqdn.Some? ==> ReturnsUnderTag(1, |c.fqdn.value|))
    {
      ConsumerFieldExact(c, k);
    }
    assert (forall k :: 0 <= k < |fs| ==> Returns(fs[k], vs[k])) <==> Returns(fs[2], vs[2]) && Returns(fs[4], vs[4]) && Returns(fs[5], vs[5]);
    ConsumerTagsDistinct();
    FunctionalityPresent(c);
    StructExact(fs, Tag(3), vs);
  }

  // ---------------------------------------------------------------- whole records

  /** The record with another consumer. */
  function WithConsumer(r: RecordData, consumer: Value): RecordData { r.(opening := r.opening.(consumer := consumer)) }

  lemma ConsumerField(r: RecordData, consumer: Value)
    ensures RecordFields(WithConsumer(r, consumer)) == RecordFields(r)[3 := consumer]
  {
    hide UsageList;
  }

  /** A readable record with a consumer of addresses comes back if and only if the addresses do. */
  lemma RecordReturnsIff(r: RecordData, c: Consumer)
    requires ReadableRecord(r) && Readable(c.functionality)
    requires RecordContent(WithConsumer(r, ConsumerValue(c))) < MAX_LENGTH
    ensures var r' := WithConsumer(r, ConsumerValue(c));
            && RecordOctets(r').Ok?
            && (Unmarshal(CHF_RECORD, EXPLICIT_CHOICE, RecordOctets(r').value) == Ok(RecordValue(r')) <==> AddressesReturn(c))
  {
    var r' := WithConsumer(r, ConsumerValue(c));
    var fs, vs := RECORD_FIELDS, RecordFields(r');
    RecordEncodes(r, c);
    FirstPresent(r');
    RecordTagsDistinct();
    hide RecordFields, BuildFields, AllOcts, Build, Encoded, Returns, Absent, Marshal, Unmarshal, DistinctTags, IsTlv, ReadableRecord, AddressesReturn;
    RecordContentSize(r');
    StructExact(fs, Tag(200), vs);
    RecordAlike(vs);
  }

  lemma RecordContentSize(r: RecordData)
    requires forall k :: 0 <= k < |RECORD_FIELDS| ==> Encoded(RECORD_FIELDS[k], RecordFields(r)[k])
    ensures ContentSize(Build(SStruct(RECORD_FIELDS), Tag(200), VStruct(RecordFields(r)))) == RecordContent(r)
  {
    hide RecordFields, BuildFields, AllOcts, Build, Encoded, SumSizes, Concat, Emitted, Absent;
    var fs, vs := RECORD_FIELDS, RecordFields(r);
    EncodedBuilds(fs, vs);
    FirstPresent(r);
    StructMarshalled(fs, Tag(200), vs);
    EmittedConcat(fs, vs);
    StructSize(fs, vs);
  }

  /** All fields of such a record are encoded, and all but the consumer return. */
  lemma RecordEncodes(r: RecordData, c: Consumer)
    requires ReadableRecord(r) && Readable(c.functionality) && RecordContent(WithConsumer(r, ConsumerValue(c))) < MAX_LENGTH
    ensures var vs := RecordFields(WithConsumer(r, ConsumerValue(c)));
            forall k :: 0 <= k < |RECORD_FIELDS| ==>
              Encoded(RECORD_FIELDS[k], vs[k]) && (Returns(RECORD_FIELDS[k], vs[k]) <==> (k == 3 ==> AddressesReturn(c)))
  {
    var r' := WithConsumer(r, ConsumerValue(c));
    var vs := RecordFields(r');
    ConsumerField(r, ConsumerValue(c));
    hide RecordFields, Encoded, Returns, ConsumerValue, ReadableRecord, FieldSurvives, SumSizes, AddressesReturn;
    forall k | 0 <= k < |RECORD_FIELDS|
      ensures Encoded(RECORD_FIELDS[k], vs[k]) && (Returns(RECORD_FIELDS[k], vs[k]) <==> (k == 3 ==> AddressesReturn(c)))
    {
      SizeAtMost(RECORD_FIELDS, vs, k);
      if k == 3 {
        ConsumerInRecord(c);
      } else {
        OtherInRecord(r, k);
      }
    }
  }

  lemma ConsumerInRecord(c: Consumer)
    requires Readable(c.functionality) && FieldSize(RECORD_FIELDS[3], ConsumerValue(c)) < MAX_LENGTH
    ensures Encoded(RECORD_FIELDS[3], ConsumerValue(c)) && (Returns(RECORD_FIELDS[3], ConsumerValue(c)) <==> AddressesReturn(c))
  {
    hide BuildFields, Build, ConsumerFields, AddressesReturn, IsTlv, Unmarshal;
    ConsumerContent(c, Tag(3));
    FieldContent(RECORD_FIELDS[3], ConsumerValue(c));
    ConsumerReturnsIff(c);
    UnmarshalIsParse(CONSUMER.fields, Tag(3), Marshal(CONSUMER, Tag(3), ConsumerValue(c)).value);
  }

  lemma FieldContent(f: Field, v: Value)
    requires !Absent(f, v)
    ensures ContentSize(Build(f.schema, f.params, v)) <= FieldSize(f, v)
  {
    var b := Build(f.schema, f.params, v);
    hide Build;
    if b.Ok? && b.value.EBer? {
      assert Octs(b.value) == Octs(b.value.tagAndLen) + Octs(b.value.value);
    }
  }

  lemma OtherInRecord(r: RecordData, k: nat)
    requires ReadableRecord(r) && k < |RECORD_FIELDS| && k != 3 && FieldSize(RECORD_FIELDS[k], RecordFields(r)[k]) < MAX_LENGTH
    ensures Encoded(RECORD_FIELDS[k], RecordFields(r)[k]) && Returns(RECORD_FIELDS[k], RecordFields(r)[k])
  {
    RecordTagsDistinct();
    if k < 7 { FirstFieldsSurvive(r, k); } else { LastFieldsSurvive(r, k); }
    hide RecordFields, ReadableRecord, FieldSurvives, FieldSize, Encoded, Returns, Build, Absent;
    var f, v := RECORD_FIELDS[k], RecordFields(r)[k];
    if !Absent(f, v) {
      FieldContent(f, v);
    }
    SurvivingIsEncoded(f, v);
  }

  /** The record is the encoding of its only alternative, and comes back if that does. */
  lemma RecordAlike(vs: seq<Value>)
    requires |vs| == |RECORD_FIELDS| && Marshal(SStruct(RECORD_FIELDS), Tag(200), VStruct(vs)).Ok?
    requires var m := Marshal(SStruct(RECORD_FIELDS), Tag(200), VStruct(vs)).value; IsTlv(m) && MemberTag(m) == 200
    ensures var m, v := Marshal(SStruct(RECORD_FIELDS), Tag(200), VStruct(vs)).value, VChoice(1, [VPtr(VStruct(vs))]);
            && Marshal(CHF_RECORD, EXPLICIT_CHOICE, v) == Ok(m)
            && (Unmarshal(CHF_RECORD, EXPLICIT_CHOICE, m) == Ok(v) <==> Unmarshal(SStruct(RECORD_FIELDS), Tag(200), m) == Ok(VStruct(vs)))
  {
    var s := SStruct(RECORD_FIELDS);
    var v := VChoice(1, [VPtr(VStruct(vs))]);
    var m := Marshal(s, Tag(200), VStruct(vs)).value;
    OnlyAlternativeBuilt(vs);
    UntaggedChoiceParses(CHF_RECORD.alts, EXPLICIT_CHOICE, m);
    OnlyAlternativeParsed(m, vs);
    PointerAlike(s, Tag(200), VStruct(vs));
    hide Build, IsTlv, ParseHeader;
  }

  lemma OnlyAlternativeBuilt(vs: seq<Value>)
    ensures Build(CHF_RECORD, EXPLICIT_CHOICE, VChoice(1, [VPtr(VStruct(vs))])) == Build(SStruct(RECORD_FIELDS), Tag(200), VStruct(vs))
  {
    hide BuildFields;
    var s := SStruct(RECORD_FIELDS);
    assert Build(CHF_RECORD, EXPLICIT_CHOICE, VChoice(1, [VPtr(VStruct(vs))])) == Build(SPtr(s), Tag(200), VPtr(VStruct(vs)));
  }

  lemma OnlyAlternativeParsed(m: seq<byte>, vs: seq<Value>)
    ensures ParseAlt(CHF_RECORD.alts, Zeros(CHF_RECORD.alts), 200, m) == Ok(VChoice(1, [VPtr(VStruct(vs))])) <==>
            Parse(SPtr(SStruct(RECORD_FIELDS)), Tag(200), VNil, m) == Ok(VPtr(VStruct(vs)))
  {
    hide Parse;
    assert CHF_RECORD.alts[..0] == [];
    assert Zeros(CHF_RECORD.alts) == [VNil];
    assert FindAlt(CHF_RECORD.alts, 0, 200) == Ok(0);
    var r := Parse(SPtr(SStruct(RECORD_FIELDS)), Tag(200), VNil, m);
    if r.Ok? {
      assert [VNil][0 := r.value] == [r.value];
      assert [r.value] == [VPtr(VStruct(vs))] <==> [r.value][0] == [VPtr(VStruct(vs))][0];
    }
  }

  // ---------------------------------------------------------------- a record that does not come back

  /** A consumer known by its domain name alone. */
  function Named(fqdn: seq<byte>): Consumer { Consumer(1, None, None, None, None, Some(fqdn)) }

  lemma NameFieldSize(fqdn: seq<byte>)
    requires |fqdn| <= 65535
    ensures FieldSize(CONSUMER.fields[5], ConsumerFields(Named(fqdn))[5]) <= |fqdn| + 10
  {
    AddressAlternatives();
    ShortHeads(fqdn);
    hide HeaderOctets, InnerHead, OuterHead, OctetsChosen, ChosenByTag, Marshal;
    TaggedOctetsMarshal(NODE_ADDRESS.alts, OptionalTag(5), DOMAIN_NAME, fqdn);
    PointerAlike(NODE_ADDRESS, OptionalTag(5), OctetsChosen(NODE_ADDRESS.alts, DOMAIN_NAME, fqdn));
  }

  lemma ShortHeads(fqdn: seq<byte>)
    requires |fqdn| <= 65535
    ensures OctetsUnderTag(NODE_ADDRESS.alts, OptionalTag(5), DOMAIN_NAME, fqdn)
    ensures |InnerHead(NODE_ADDRESS.alts, DOMAIN_NAME, fqdn)| <= 5
    ensures |OuterHead(NODE_ADDRESS.alts, OptionalTag(5), DOMAIN_NAME, fqdn)| <= 5
  {
    AddressAlternatives();
    HeadSizes(TagAndLen(CLASS_CONTEXT, false, 1, |fqdn|));
    LenOctetsSize(|fqdn|);
    hide HeaderOctets, LenOctets, ChosenByTag;
    var inner := InnerHead(NODE_ADDRESS.alts, DOMAIN_NAME, fqdn);
    HeadSizes(TagAndLen(CLASS_CONTEXT, true, 5, |inner| + |fqdn|));
    LenOctetsSize(|inner| + |fqdn|);
  }

  lemma NamedContent(fqdn: seq<byte>)
    requires |fqdn| <= 65535
    ensures SumSizes(CONSUMER.fields, ConsumerFields(Named(fqdn))) <= |fqdn| + 13
  {
    hide FieldSize;
    var fs, vs := CONSUMER.fields, ConsumerFields(Named(fqdn));
    SmallIntSize(1, Tag(0));
    NameFieldSize(fqdn);
    assert fs[..5] + [fs[5]] == fs && vs[..5] + [vs[5]] == vs;
    FirstFieldOnly(fs[..5], vs[..5]);
    SumStep(fs, vs, 5);
    assert fs[..6] == fs && vs[..6] == vs;
  }

  lemma NamedRecordContent(fqdn: seq<byte>)
    requires |fqdn| <= 65535
    ensures RecordContent(WithConsumer(PLAIN, ConsumerValue(Named(fqdn)))) < MAX_LENGTH
  {
    var c := Named(fqdn);
    hide RecordFields, FieldSize, SumSizes, ConsumerFields, BuildFields, Build, AllOcts;
    PlainContent();
    ConsumerField(PLAIN, ConsumerValue(c));
    SumUpdated(RECORD_FIELDS, RecordFields(PLAIN), 3, ConsumerValue(c));
    ConsumerContent(c, Tag(3));
    StructSize(CONSUMER.fields, ConsumerFields(c));
    NamedContent(fqdn);
    ConsumerReturnsIff(c);
    StructFieldSize(CONSUMER.fields, Tag(3), ConsumerFields(c));
    LenOctetsSize(SumSizes(CONSUMER.fields, ConsumerFields(c)));
  }

  /** A record opened for a consumer with a domain name comes back, unless the name has 253 to 255 or 65532 to 65535
      octets: one with a name of 253 octets is lost. */
  lemma NamedRecord(fqdn: seq<byte>)
    requires |fqdn| <= 65535
    ensures var r := WithConsumer(PLAIN, ConsumerValue(Named(fqdn)));
            && RecordOctets(r).Ok?
            && (Unmarshal(CHF_RECORD, EXPLICIT_CHOICE, RecordOctets(r).value) == Ok(RecordValue(r)) <==>
                !(253 <= |fqdn| <= 255 || 65532 <= |fqdn|))
  {
    hide RecordOctets, RecordContent, Unmarshal, RecordValue, ReadableRecord, ConsumerValue;
    PlainReadable();
    NamedRecordContent(fqdn);
    RecordReturnsIff(PLAIN, Named(fqdn));
  }

  /** A value the code can receive that does not come back. */
  lemma LongNameLost()
    ensures exists r: RecordData :: RecordOctets(r).Ok? &&
              Unmarshal(CHF_RECORD, EXPLICIT_CHOICE, RecordOctets(r).value) != Ok(RecordValue(r))
  {
    hide RecordOctets, Unmarshal, RecordValue;
    NamedRecord(seq(253, i => 'a' as int));
  }

  // ---------------------------------------------------------------- lists of addresses

  /** Every list of such addresses is one of octets under low tags. */
  lemma AddressesAreOctets(cs: seq<BerTaggedSlice.Chosen>)
    requires forall i :: 0 <= i < |cs| ==> cs[i].alt < 4 && |cs[i].octets| < 256
    ensures BerTaggedSlice.AllOctets(IP_ADDRESS.alts, cs)
  {
    AddressAlternatives();
    hide ChosenByTag;
  }

  /** A list of addresses under a tag, as a PDU address holds its prefixes, never comes back: no address of less than
      256 octets survives the tag being handed on to it. */
  lemma AddressListLost(cs: seq<BerTaggedSlice.Chosen>, tag: nat)
    requires cs != [] && tag <= 30 && forall i :: 0 <= i < |cs| ==> cs[i].alt < 4 && |cs[i].octets| < 256
    requires ContentSize(Build(SSlice(IP_ADDRESS), OptionalTag(tag), VSlice(BerTaggedSlice.ChosenValues(IP_ADDRESS.alts, cs)))) < MAX_LENGTH
    ensures var v := VSlice(BerTaggedSlice.ChosenValues(IP_ADDRESS.alts, cs));
            var m := Marshal(SSlice(IP_ADDRESS), OptionalTag(tag), v);
            m.Ok? && Unmarshal(SSlice(IP_ADDRESS), OptionalTag(tag), m.value) != Ok(v)
  {
    hide Build, Marshal, Unmarshal;
    AddressesAreOctets(cs);
    BerTaggedSlice.TaggedSliceOfOctets(IP_ADDRESS.alts, OptionalTag(tag), cs);
    assert !BerTaggedSlice.OpensWithHeaders(IP_ADDRESS.alts[cs[0].alt].params.tag.value, cs[0].octets);
  }

  // ---------------------------------------------------------------- an address inside an address

  /** A node address that holds an IP address, a CHOICE within a CHOICE: it comes back exactly at the lengths at which its
      two headers are equal, without exception. */
  lemma NodeAddressOfIp(p: Params, x: Value)
    requires PlainTag(p) && p.tag.value <= 30 && Survives(SPtr(IP_ADDRESS), Tag(0), x)
    requires ContentSize(Build(NODE_ADDRESS, p, ChosenValue(NODE_ADDRESS.alts, 0, x))) < MAX_LENGTH
    ensures var v := ChosenValue(NODE_ADDRESS.alts, 0, x);
            var m := Marshal(NODE_ADDRESS, p, v);
            && m.Ok?
            && (Unmarshal(NODE_ADDRESS, p, m.value) == Ok(v) <==> !LongerOutside(|Inside(NODE_ADDRESS.alts, 0, x)|))
  {
    hide Survives, Build, Marshal, Unmarshal, ChosenValue, Inside, LongerOutside;
    assert FindAlt(NODE_ADDRESS.alts, 0, 0) == Ok(0);
    assert Constructed(SPtr(IP_ADDRESS));
    TaggedChoiceLowTags(NODE_ADDRESS.alts, p, 0, x);
  }
}
