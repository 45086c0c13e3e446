/** Where the charging function's values stand in the octets of a record: identifiers, order and tags, in literal numbers. */
module ChfRecordOctets {
  import opened Bytes
  import opened Results
  import opened BerHeader
  import opened BerScalars
  import opened BerTypes
  import opened BerMarshal
  import opened BerUnmarshal
  import opened BerRoundTrip
  import opened BerMemberwise
  import opened BerIdentifiers
  import opened ChfRecordTypes
  import opened SplitBound
  import opened ChfRecordLaws

  // ---------------------------------------------------------------- structs in octets

  /** A struct is its header and the encodings of its present fields, in declaration order. */
  lemma StructOctets(fs: seq<Field>, p: Params, vs: seq<Value>)
    requires |fs| == |vs| && !p.explicitTag && Marshal(SStruct(fs), p, VStruct(vs)).Ok?
    ensures var content := Concat(Emitted(fs, vs));
            var t := TagAndLen(if p.tag.Some? then 2 else 0, true, if p.tag.Some? then p.tag.value else if p.isSet then 17 else 16, |content|);
            Marshal(SStruct(fs), p, VStruct(vs)).value == HeaderOctets(t) + content
  {
    hide HeaderOctets, BuildFields, AllOcts, Emitted, Concat;
    EmittedConcat(fs, vs);
    var parts := EStruct(BuildFields(fs, vs).value.0);
    var t := TagAndLen(if p.tag.Some? then 2 else 0, true, if p.tag.Some? then p.tag.value else SequenceTag(p), |Octs(parts)|);
    assert Build(SStruct(fs), p, VStruct(vs)) == Ok(EBer(EBytes(HeaderOctets(t)), parts));
    BerOctets(HeaderOctets(t), parts);
  }

  /** The field is there, and encoded. */
  predicate Present(f: Field, v: Value) { !Absent(f, v) && FieldBuilds(f, v) }

  lemma {:induction false} AllEmitted(fs: seq<Field>, vs: seq<Value>)
    requires |fs| == |vs| && forall k :: 0 <= k < |fs| ==> Present(fs[k], vs[k])
    ensures |Emitted(fs, vs)| == |fs|
    ensures forall k :: 0 <= k < |fs| ==> Present(fs[k], vs[k]) && Emitted(fs, vs)[k] == Marshal(fs[k].schema, fs[k].params, vs[k]).value
  {
    hide Build, Octs;
    if fs != [] {
      var n := |fs| - 1;
      AllEmitted(fs[..n], vs[..n]);
      assert Present(fs[n], vs[n]);
    }
  }

  /** An integer under a low context tag. */
  function IntTlv(identifier: byte, i: int): seq<byte>
    requires IsInt64(i)
  {
    Int64FitsEight(i);
    [identifier, IntLen(i)] + Octets(i, IntLen(i))
  }

  lemma IntField(i: int, tag: nat)
    requires IsInt64(i) && tag <= 30
    ensures Marshal(SInt, Tag(tag), VInt(i)) == Ok(IntTlv(0x80 + tag, i))
    ensures Marshal(SPtr(SInt), OptionalTag(tag), VPtr(VInt(i))) == Ok(IntTlv(0x80 + tag, i))
    ensures Marshal(WRAPPED_INT, Tag(tag), VWrap(VInt(i))) == Ok(IntTlv(0x80 + tag, i))
    ensures Marshal(SPtr(WRAPPED_INT), OptionalTag(tag), Wrapped(i)) == Ok(IntTlv(0x80 + tag, i))
  {
    Int64FitsEight(i);
    ShortPrimitive(SInt, Tag(tag), VInt(i));
    ShortPrimitive(SInt, OptionalTag(tag), VInt(i));
    hide Octets, Finish;
    assert Octs(Contents(SInt, VInt(i)).value) == Octets(i, IntLen(i));
    SameBuild(i, tag);
  }

  lemma SameBuild(i: int, tag: nat)
    ensures Marshal(SPtr(SInt), OptionalTag(tag), VPtr(VInt(i))) == Marshal(SInt, OptionalTag(tag), VInt(i))
    ensures Marshal(WRAPPED_INT, Tag(tag), VWrap(VInt(i))) == Marshal(SInt, Tag(tag), VInt(i))
    ensures Marshal(SPtr(WRAPPED_INT), OptionalTag(tag), Wrapped(i)) == Marshal(SInt, OptionalTag(tag), VInt(i))
  {
    hide Finish, Octs;
  }

  // ---------------------------------------------------------------- usage

  predicate ContainerWords(c: Container) {
    IsInt64(c.total) && IsInt64(c.uplink) && IsInt64(c.downlink) && IsInt64(c.serviceUnits) && IsInt64(c.localNumber)
  }

  /** A container in octets: total, uplink and downlink volume under tags 4, 5 and 6, service specific units under 7 and the
      local sequence number under 9. */
  function ContainerContent(c: Container): seq<byte>
    requires ContainerWords(c)
  {
    IntTlv(0x84, c.total) + IntTlv(0x85, c.uplink) + IntTlv(0x86, c.downlink) + IntTlv(0x87, c.serviceUnits) + IntTlv(0x89, c.localNumber)
  }

  lemma ContainerPresent(c: Container, k: nat)
    requires ContainerWords(c) && k < 5
    ensures var f, v := CONTAINER.fields[k], ContainerValue(c).fields[k];
            && Present(f, v)
            && Marshal(f.schema, f.params, v).value ==
               if k == 0 then IntTlv(0x84, c.total) else if k == 1 then IntTlv(0x85, c.uplink) else if k == 2 then IntTlv(0x86, c.downlink)
               else if k == 3 then IntTlv(0x87, c.serviceUnits) else IntTlv(0x89, c.localNumber)
  {
    hide Marshal, IntTlv;
    if k == 0 { IntField(c.total, 4); }
    else if k == 1 { IntField(c.uplink, 5); }
    else if k == 2 { IntField(c.downlink, 6); }
    else if k == 3 { IntField(c.serviceUnits, 7); }
    else { IntField(c.localNumber, 9); }
  }

  lemma ContainerEmitted(c: Container)
    requires ContainerWords(c)
    ensures Emitted(CONTAINER.fields, ContainerValue(c).fields) ==
            [IntTlv(0x84, c.total), IntTlv(0x85, c.uplink), IntTlv(0x86, c.downlink), IntTlv(0x87, c.serviceUnits), IntTlv(0x89, c.localNumber)]
    ensures BuildFields(CONTAINER.fields, ContainerValue(c).fields).Ok? && BuildFields(CONTAINER.fields, ContainerValue(c).fields).value.1
  {
    hide Marshal, IntTlv, Emitted, BuildFields, ContainerWords, FieldBuilds, Absent;
    forall k: nat | k < 5 ensures Present(CONTAINER.fields[k], ContainerValue(c).fields[k]) {
      ContainerPresent(c, k);
    }
    AllEmitted(CONTAINER.fields, ContainerValue(c).fields);
    FieldsBuild(CONTAINER.fields, ContainerValue(c).fields);
    ContainerPresent(c, 0);
    ContainerPresent(c, 1);
    ContainerPresent(c, 2);
    ContainerPresent(c, 3);
    ContainerPresent(c, 4);
  }

  lemma FiveParts(a: seq<byte>, b: seq<byte>, c: seq<byte>, d: seq<byte>, e: seq<byte>)
    ensures Concat([a, b, c, d, e]) == a + b + c + d + e
  {
    assert [a, b, c, d, e][..4] == [a, b, c, d] && [a, b, c, d][..3] == [a, b, c] && [a, b, c][..2] == [a, b] && [a, b][..1] == [a];
    assert Concat([a, b, c]) == a + b + c by { assert Concat([a]) == a; assert Concat([a, b]) == a + b; }
    assert Concat([a, b, c, d]) == a + b + c + d;
  }

  /** A container is written as an untagged sequence of these. */
  lemma ContainerOctets(c: Container)
    requires ContainerWords(c)
    ensures |ContainerContent(c)| <= 50
    ensures Marshal(CONTAINER, UNTAGGED, ContainerValue(c)) == Ok([0x30, |ContainerContent(c)|] + ContainerContent(c))
  {
    ContainerEmitted(c);
    hide Emitted, BuildFields, Octets;
    StructBuilt(CONTAINER.fields, ContainerValue(c).fields);
    StructOctets(CONTAINER.fields, UNTAGGED, ContainerValue(c).fields);
    FiveParts(IntTlv(0x84, c.total), IntTlv(0x85, c.uplink), IntTlv(0x86, c.downlink), IntTlv(0x87, c.serviceUnits), IntTlv(0x89, c.localNumber));
    ContentSize(c);
    hide IntTlv, ContainerContent;
    ShortSequence(|ContainerContent(c)|);
  }

  lemma StructBuilt(fs: seq<Field>, vs: seq<Value>)
    requires fs != [] && |fs| == |vs| && BuildFields(fs, vs).Ok? && BuildFields(fs, vs).value.1
    ensures Marshal(SStruct(fs), UNTAGGED, VStruct(vs)).Ok?
  {
    hide BuildFields, Finish, Octs;
  }

  lemma ContentSize(c: Container)
    requires ContainerWords(c)
    ensures |ContainerContent(c)| <= 50
  {
    Int64FitsEight(c.total);
    Int64FitsEight(c.uplink);
    Int64FitsEight(c.downlink);
    Int64FitsEight(c.serviceUnits);
    Int64FitsEight(c.localNumber);
    hide Octets, IntLen;
  }

  lemma ShortSequence(n: nat)
    requires n <= 127
    ensures HeaderOctets(TagAndLen(0, true, 16, n)) == [0x30, n]
  {
  }

  /** The encodings of the elements of a slice. */
  function Elements(e: Schema, p: Params, vs: seq<Value>): (ms: seq<seq<byte>>)
    requires forall k :: 0 <= k < |vs| ==> Marshal(e, p, vs[k]).Ok?
    ensures |ms| == |vs| && forall k :: 0 <= k < |vs| ==> ms[k] == Marshal(e, p, vs[k]).value
  {
    seq(|vs|, k requires 0 <= k < |vs| => Marshal(e, p, vs[k]).value)
  }

  lemma {:induction false} ElementsConcat(e: Schema, p: Params, vs: seq<Value>)
    requires forall k :: 0 <= k < |vs| ==> Marshal(e, p, vs[k]).Ok?
    ensures BuildElems(e, p, vs).Ok? && AllOcts(BuildElems(e, p, vs).value) == Concat(Elements(e, p, vs))
  {
    hide Build;
    if vs != [] {
      var n := |vs| - 1;
      ElementsConcat(e, p, vs[..n]);
      assert Elements(e, p, vs)[..n] == Elements(e, p, vs[..n]);
    }
  }

  /** A slice is its header and the encodings of its elements, untagged and in order. */
  lemma SliceOctets(e: Schema, p: Params, vs: seq<Value>)
    requires (p.explicitTag ==> p.tag.None?) && forall k :: 0 <= k < |vs| ==> Marshal(e, p.(tag := None), vs[k]).Ok?
    ensures var content := Concat(Elements(e, p.(tag := None), vs));
            var t := TagAndLen(if p.tag.Some? then 2 else 0, true, if p.tag.Some? then p.tag.value else if p.isSet then 17 else 16, |content|);
            Marshal(SSlice(e), p, VSlice(vs)) == Ok(HeaderOctets(t) + content)
  {
    ElementsConcat(e, p.(tag := None), vs);
    hide HeaderOctets, BuildElems, AllOcts, Concat, Elements;
    var parts := EStruct(BuildElems(e, p.(tag := None), vs).value);
    var t := TagAndLen(if p.tag.Some? then 2 else 0, true, if p.tag.Some? then p.tag.value else if p.isSet then 17 else 16, |Octs(parts)|);
    assert Build(SSlice(e), p, VSlice(vs)) == Ok(EBer(EBytes(HeaderOctets(t)), parts));
    BerOctets(HeaderOctets(t), parts);
  }

  predicate UsageWords(u: Usage) { IsInt64(u.ratingGroup) && forall k :: 0 <= k < |u.containers| ==> ContainerWords(u.containers[k]) }

  /** The containers of an item in octets, each an untagged sequence, in order. */
  function ContainerParts(cs: seq<Container>): (ms: seq<seq<byte>>)
    requires forall k :: 0 <= k < |cs| ==> ContainerWords(cs[k])
    ensures |ms| == |cs|
  {
    seq(|cs|, k requires 0 <= k < |cs| => ContainerTlv(cs[k]))
  }

  function ContainerTlv(c: Container): seq<byte>
    requires ContainerWords(c)
  {
    ContentSize(c);
    [0x30, |ContainerContent(c)|] + ContainerContent(c)
  }

  /** An item in octets: the rating group under tag 0, the list of containers under 1 and the UPF under 2. */
  function UsageContent(u: Usage): seq<byte>
    requires UsageWords(u)
  {
    var containers := Concat(ContainerParts(u.containers));
    IntTlv(0x80, u.ratingGroup)
    + (HeaderOctets(TagAndLen(2, true, 1, |containers|)) + containers)
    + (HeaderOctets(TagAndLen(2, false, 2, |u.upfId|)) + u.upfId)
  }

  lemma ContainersWritten(cs: seq<Container>, vs: seq<Value>, p: Params)
    requires p == OptionalTag(1) && |vs| == |cs|
    requires forall k :: 0 <= k < |cs| ==> ContainerWords(cs[k]) && vs[k] == ContainerValue(cs[k])
    ensures var content := Concat(ContainerParts(cs));
            Marshal(SSlice(CONTAINER), p, VSlice(vs)) == Ok(HeaderOctets(TagAndLen(2, true, 1, |content|)) + content)
  {
    hide Marshal, HeaderOctets, ContainerValue, ContainerWords, ContainerContent, Concat;
    var q := p.(tag := None);
    forall k | 0 <= k < |vs| ensures Marshal(CONTAINER, q, vs[k]) == Ok(ContainerTlv(cs[k])) {
      ContainerOctets(cs[k]);
      OptionalAlike(CONTAINER.fields, ContainerValue(cs[k]));
    }
    SliceOctets(CONTAINER, p, vs);
    assert Elements(CONTAINER, q, vs) == ContainerParts(cs);
  }

  lemma OptionalAlike(fs: seq<Field>, v: Value)
    ensures Marshal(SStruct(fs), OptionalTag(1).(tag := None), v) == Marshal(SStruct(fs), UNTAGGED, v)
  {
    hide BuildFields, Octs;
  }

  lemma StringWritten(s: seq<byte>)
    ensures Marshal(SPtr(WRAPPED_STRING), OptionalTag(2), VPtr(VWrap(VString(s)))) == Ok(HeaderOctets(TagAndLen(2, false, 2, |s|)) + s)
  {
    hide HeaderOctets;
    assert Build(SString, OptionalTag(2), VString(s)) == Ok(EBer(EBytes(HeaderOctets(TagAndLen(2, false, 2, |s|))), EString(s)));
    BerOctets(HeaderOctets(TagAndLen(2, false, 2, |s|)), EString(s));
  }

  lemma ThreeParts(a: seq<byte>, b: seq<byte>, c: seq<byte>)
    ensures Concat([a, b, c]) == a + b + c
  {
    assert [a, b, c][..2] == [a, b] && [a, b][..1] == [a];
    assert Concat([a]) == a;
  }

  lemma UsageEmitted(u: Usage)
    requires UsageWords(u)
    ensures BuildFields(USAGE.fields, UsageValue(u).fields).Ok? && BuildFields(USAGE.fields, UsageValue(u).fields).value.1
    ensures Concat(Emitted(USAGE.fields, UsageValue(u).fields)) == UsageContent(u)
  {
    hide Marshal, IntTlv, Emitted, BuildFields, HeaderOctets, ContainerValue, ContainerParts, ContainerWords, Concat, FieldBuilds, Absent;
    var fs, vs := USAGE.fields, UsageValue(u).fields;
    IntField(u.ratingGroup, 0);
    ContainersWritten(u.containers, vs[1].elems, OptionalTag(1));
    StringWritten(u.upfId);
    forall k: nat | k < 3 ensures Present(fs[k], vs[k]) { EncodedPresent(fs[k], vs[k]); }
    AllEmitted(fs, vs);
    FieldsBuild(fs, vs);
    var ms := [Marshal(fs[0].schema, fs[0].params, vs[0]).value, Marshal(fs[1].schema, fs[1].params, vs[1]).value, Marshal(fs[2].schema, fs[2].params, vs[2]).value];
    assert Emitted(fs, vs) == ms;
    ThreeParts(ms[0], ms[1], ms[2]);
  }

  lemma EncodedPresent(f: Field, v: Value)
    requires Marshal(f.schema, f.params, v).Ok? && !v.VNil? && (f.params.optional ==> Nillable(f.schema))
    ensures Present(f, v)
  {
    hide Build, Octs;
  }

  /** A usage item is written as an untagged sequence of these. */
  lemma UsageOctets(u: Usage)
    requires UsageWords(u)
    ensures var content := UsageContent(u);
            var m := Marshal(USAGE, UNTAGGED, UsageValue(u));
            m == Ok(HeaderOctets(TagAndLen(0, true, 16, |content|)) + content) && m.value[0] == 0x30
  {
    hide Emitted, BuildFields, HeaderOctets, UsageContent, IntTlv, Concat;
    UsageEmitted(u);
    StructBuilt(USAGE.fields, UsageValue(u).fields);
    StructOctets(USAGE.fields, UNTAGGED, UsageValue(u).fields);
    FirstOctetWritten(USAGE, UNTAGGED, UsageValue(u));
  }

  // ---------------------------------------------------------------- the list and the record

  lemma ListOctetsStart(us: seq<Usage>)
    requires forall k :: 0 <= k < |us| ==> UsageWords(us[k])
    ensures ListOctets(us).Ok? && |ListOctets(us).value| >= 2 && ListOctets(us).value[0] == 0x30
    ensures ListOctets(us).value == HeaderOctets(TagAndLen(0, true, 16, |Concat(UsageParts(us))|)) + Concat(UsageParts(us))
  {
    hide Marshal, HeaderOctets, UsageValue, UsageWords, Concat;
    var vs := UsageList(us).elems;
    assert |vs| == |us| == |UsageParts(us)|;
    forall k | 0 <= k < |us| ensures Marshal(USAGE, EXPLICIT_CHOICE.(tag := None), vs[k]) == Ok(UsageParts(us)[k]) {
      UsageOctets(us[k]);
      ExplicitAlike(USAGE.fields, UsageValue(us[k]));
    }
    SliceOctets(USAGE, EXPLICIT_CHOICE, vs);
    assert Elements(USAGE, EXPLICIT_CHOICE.(tag := None), vs) == UsageParts(us);
    FirstOctetWritten(SSlice(USAGE), EXPLICIT_CHOICE, UsageList(us));
  }

  /** The items of a list in octets, in order. */
  function UsageParts(us: seq<Usage>): (ms: seq<seq<byte>>)
    requires forall k :: 0 <= k < |us| ==> UsageWords(us[k])
    ensures |ms| == |us|
  {
    seq(|us|, k requires 0 <= k < |us| => HeaderOctets(TagAndLen(0, true, 16, |UsageContent(us[k])|)) + UsageContent(us[k]))
  }

  /** Without a tag to wrap, an explicit tag changes nothing. */
  lemma ExplicitAlike(fs: seq<Field>, v: Value)
    ensures Marshal(SStruct(fs), EXPLICIT_CHOICE.(tag := None), v) == Marshal(SStruct(fs), UNTAGGED, v)
  {
    hide BuildFields, Octs;
  }

  /** A record is written under context tag 200, constructed, with its present fields in declaration order. */
  lemma RecordWritten(r: RecordData)
    requires RecordOctets(r).Ok?
    ensures var content := Concat(Emitted(RECORD_FIELDS, RecordFields(r)));
            RecordOctets(r).value == [0xbf, 0x81, 0x48] + LenOctets(|content|) + content
  {
    hide BuildFields, Octs, Emitted, Concat, RecordFields, LenOctets, HeaderOctets, Finish;
    var s, v := SStruct(RECORD_FIELDS), VStruct(RecordFields(r));
    assert Build(CHF_RECORD, EXPLICIT_CHOICE, RecordValue(r)) == Build(SPtr(s), Tag(200), VPtr(v));
    assert Build(SPtr(s), Tag(200), VPtr(v)) == Build(s, Tag(200), v);
    StructOctets(RECORD_FIELDS, Tag(200), RecordFields(r));
    TagOf200(|Concat(Emitted(RECORD_FIELDS, RecordFields(r)))|);
  }

  lemma TagOf200(n: nat)
    ensures HeaderOctets(TagAndLen(2, true, 200, n)) == [0xbf, 0x81, 0x48] + LenOctets(n)
  {
    hide LenOctets;
    assert GroupCount(200) == 2;
    assert Groups(0, 0) == [];
    assert Groups(1, 1) == Groups(0, 0) + [0x81];
    var first: seq<byte> := [2 % 4 * 64 + 0x20 + 31];
    assert TagOctets(TagAndLen(2, true, 200, n)) == first + Groups(1, 1) + [72];
  }

  /** What a record holds under a tag. */
  function Under(r: RecordData, tag: nat): Option<Value> {
    var k := FindField(RECORD_FIELDS, 0, tag);
    if k.Ok? then Some(RecordFields(r)[k.value]) else None
  }

  /** The tags of TS 32.298 section 5.1.5 and what the charging function puts under them. */
  lemma RecordLayout(r: RecordData)
    ensures Under(r, 0) == Some(VWrap(VInt(200)))
    ensures Under(r, 1) == Some(VWrap(VString(r.opening.networkFunction)))
    ensures Under(r, 2) == Some(r.opening.subscriber) && Under(r, 3) == Some(r.opening.consumer)
    ensures Under(r, 5) == Some(if r.usage.None? then VNil else UsageList(r.usage.value))
    ensures Under(r, 6) == Some(VWrap(VOctets(r.opening.openedAt))) && Under(r, 7) == Some(VWrap(VInt(0)))
    ensures Under(r, 8) == Some(if r.sequenceNumber.None? then VNil else VPtr(VInt(r.sequenceNumber.value)))
    ensures Under(r, 9) == Some(VWrap(VInt(r.cause))) && Under(r, 11) == Some(VPtr(VWrap(VInt(r.localNumber))))
    ensures Under(r, 13) == Some(r.opening.pduSession)
    ensures Under(r, 16) == Some(if r.opening.sessionId == [] then VNil else VPtr(VWrap(VOctets(r.opening.sessionId))))
    ensures Under(r, 17) == Some(r.opening.serviceInformation) && Under(r, 19) == Some(r.opening.registration)
    ensures Under(r, 27) == Some(VPtr(VWrap(VInt(r.opening.chargingId))))
  {
    hide UsageList;
    FieldAt(0, 0);
    FieldAt(1, 1);
    FieldAt(2, 2);
    FieldAt(3, 3);
    FieldAt(5, 4);
    FieldAt(6, 5);
    FieldAt(7, 6);
    FieldAt(8, 7);
    FieldAt(9, 8);
    FieldAt(11, 9);
    FieldAt(13, 10);
    FieldAt(16, 11);
    FieldAt(17, 12);
    FieldAt(19, 13);
    FieldAt(27, 14);
    hide FindField;
  }

  lemma FieldAt(tag: nat, k: nat)
    requires k < |RECORD_FIELDS| && RECORD_FIELDS[k].params.tag == Some(tag)
    ensures FindField(RECORD_FIELDS, 0, tag) == Ok(k)
  {
    RecordTagsDistinct();
    FindsField(RECORD_FIELDS, 0, k);
  }
}
