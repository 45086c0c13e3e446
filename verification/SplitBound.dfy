/** How long a record becomes when usage is added to it, compared with the two lengths the split decision adds up. */
module SplitBound {
  import opened Bytes
  import opened Results
  import opened Words
  import opened BerHeader
  import opened BerTypes
  import opened BerMarshal
  import opened BerRoundTrip
  import opened BerLimits
  import opened BerMemberwise
  import opened ChfRecordTypes

  // ---------------------------------------------------------------- lengths of lists

  lemma {:induction false} ElemsAppend(e: Schema, p: Params, a: seq<Value>, b: seq<Value>)
    requires BuildElems(e, p, a).Ok? && BuildElems(e, p, b).Ok?
    ensures BuildElems(e, p, a + b).Ok?
    ensures |AllOcts(BuildElems(e, p, a + b).value)| == |AllOcts(BuildElems(e, p, a).value)| + |AllOcts(BuildElems(e, p, b).value)|
    decreases |b|
  {
    hide Build;
    if b == [] {
      assert a + b == a;
    } else {
      var n := |b| - 1;
      ElemsAppend(e, p, a, b[..n]);
      assert (a + b)[..|a + b| - 1] == a + b[..n];
      var last := Build(e, p, b[n]).value;
      LastPart(BuildElems(e, p, a + b[..n]).value, last);
      LastPart(BuildElems(e, p, b[..n]).value, last);
    }
  }

  lemma LastPart(es: seq<Encoder>, last: Encoder)
    ensures AllOcts(es + [last]) == AllOcts(es) + Octs(last)
  {
    assert (es + [last])[..|es|] == es;
  }

  /** Untagged structs are built alike under all parameters of the same kind. */
  lemma {:induction false} ElemsAlike(fs: seq<Field>, p: Params, q: Params, vs: seq<Value>)
    requires p.tag.None? && q.tag.None? && p.isSet == q.isSet
    ensures BuildElems(SStruct(fs), p, vs) == BuildElems(SStruct(fs), q, vs)
  {
    if vs != [] {
      ElemsAlike(fs, p, q, vs[..|vs| - 1]);
    }
  }

  // ---------------------------------------------------------------- the record

  function RecordOctets(r: RecordData): Result<seq<byte>> { Marshal(CHF_RECORD, EXPLICIT_CHOICE, RecordValue(r)) }

  /** The usage list on its own, as it is marshalled for the split decision. */
  function ListOctets(us: seq<Usage>): Result<seq<byte>> { Marshal(SSlice(USAGE), EXPLICIT_CHOICE, UsageList(us)) }

  /** The octets of the items of a list, without a header. */
  function ItemOctets(us: seq<Usage>): Result<seq<Encoder>> { BuildElems(USAGE, UNTAGGED, UsageList(us).elems) }

  function ItemsSize(us: seq<Usage>): nat {
    var built := ItemOctets(us);
    if built.Ok? then |AllOcts(built.value)| else 0
  }

  /** Octets of a TLV with a low tag. */
  function TlvSize(content: nat): nat { 1 + |LenOctets(content)| + content }

  lemma HeadSizes(t: TagAndLen)
    ensures |HeaderOctets(t)| == |TagOctets(t)| + |LenOctets(t.len)|
    ensures t.tagNumber <= 30 ==> |TagOctets(t)| == 1
    ensures t.tagNumber == 200 ==> |TagOctets(t)| == 3
  {
    hide LenOctets;
    if t.tagNumber == 200 {
      assert GroupCount(200) == 2;
    }
  }

  lemma ListSize(us: seq<Usage>)
    ensures ListOctets(us).Ok? <==> ItemOctets(us).Ok?
    ensures ListOctets(us).Ok? ==> |ListOctets(us).value| == TlvSize(ItemsSize(us))
  {
    hide HeaderOctets, LenOctets, BuildElems, UsageList;
    var vs := UsageList(us).elems;
    ElemsAlike(USAGE.fields, UNTAGGED, EXPLICIT_CHOICE, vs);
    if ItemOctets(us).Ok? {
      var content := EStruct(ItemOctets(us).value);
      var t := TagAndLen(0, true, TAG_SEQUENCE, |Octs(content)|);
      HeadSizes(t);
      assert Build(SSlice(USAGE), EXPLICIT_CHOICE, UsageList(us)) == Ok(EBer(EBytes(HeaderOctets(t)), content));
      assert Octs(EBer(EBytes(HeaderOctets(t)), content)) == HeaderOctets(t) + Octs(content);
    }
  }

  /** The field of the record that holds the list. */
  lemma ListFieldSize(us: seq<Usage>)
    ensures FieldBuilds(RECORD_FIELDS[USAGE_AT], UsageList(us)) <==> ItemOctets(us).Ok?
    ensures ItemOctets(us).Ok? ==> FieldSize(RECORD_FIELDS[USAGE_AT], UsageList(us)) == TlvSize(ItemsSize(us))
  {
    hide HeaderOctets, LenOctets, BuildElems, UsageList;
    var vs := UsageList(us).elems;
    var p := OptionalTag(5);
    assert RECORD_FIELDS[USAGE_AT] == Field(SSlice(USAGE), p);
    ElemsAlike(USAGE.fields, UNTAGGED, p.(tag := None), vs);
    if ItemOctets(us).Ok? {
      var content := EStruct(ItemOctets(us).value);
      var t := TagAndLen(CLASS_CONTEXT, true, 5, |Octs(content)|);
      HeadSizes(t);
      assert Build(SSlice(USAGE), p, UsageList(us)) == Ok(EBer(EBytes(HeaderOctets(t)), content));
      assert Octs(EBer(EBytes(HeaderOctets(t)), content)) == HeaderOctets(t) + Octs(content);
    }
  }

  /** The contents octets of a record: the sum over its fields. */
  function RecordContent(r: RecordData): nat { SumSizes(RECORD_FIELDS, RecordFields(r)) }

  /** A record takes three octets of tag, its length octets and its fields. */
  lemma RecordSize(r: RecordData)
    ensures RecordOctets(r).Ok? <==> forall k :: 0 <= k < |RECORD_FIELDS| ==> FieldBuilds(RECORD_FIELDS[k], RecordFields(r)[k])
    ensures RecordOctets(r).Ok? ==> |RecordOctets(r).value| == 3 + |LenOctets(RecordContent(r))| + RecordContent(r)
  {
    hide HeaderOctets, LenOctets, BuildFields, FieldBuilds, Absent;
    var vs := RecordFields(r);
    FieldsBuild(RECORD_FIELDS, vs);
    FirstPresent(r);
    RecordBuild(vs);
    if BuildFields(RECORD_FIELDS, vs).Ok? {
      StructSize(RECORD_FIELDS, vs);
      HeadSizes(TagAndLen(CLASS_CONTEXT, true, 200, RecordContent(r)));
    }
  }

  lemma RecordLength(r: RecordData)
    requires RecordOctets(r).Ok?
    ensures |RecordOctets(r).value| == 3 + |LenOctets(RecordContent(r))| + RecordContent(r)
  {
    hide LenOctets, Marshal, FieldBuilds, RecordFields, SumSizes;
    RecordSize(r);
  }

  /** The record type is always there. */
  lemma FirstPresent(r: RecordData)
    ensures !Absent(RECORD_FIELDS[0], RecordFields(r)[0])
  {
  }

  lemma RecordBuild(vs: seq<Value>)
    requires |vs| == |RECORD_FIELDS|
    ensures var built := BuildFields(RECORD_FIELDS, vs);
            var m := Marshal(CHF_RECORD, EXPLICIT_CHOICE, VChoice(1, [VPtr(VStruct(vs))]));
            && (m.Ok? <==> built.Ok? && built.value.1)
            && (m.Ok? ==>
                  var content := AllOcts(built.value.0);
                  m.value == HeaderOctets(TagAndLen(CLASS_CONTEXT, true, 200, |content|)) + content)
  {
    hide HeaderOctets, BuildFields;
    var v := VChoice(1, [VPtr(VStruct(vs))]);
    var s := SStruct(RECORD_FIELDS);
    assert Build(CHF_RECORD, EXPLICIT_CHOICE, v) == Build(SPtr(s), Tag(200), VPtr(VStruct(vs)));
    assert Build(SPtr(s), Tag(200), VPtr(VStruct(vs))) == Build(s, Tag(200), VStruct(vs));
    var built := BuildFields(RECORD_FIELDS, vs);
    if built.Ok? && built.value.1 {
      var content := EStruct(built.value.0);
      var head := EBytes(HeaderOctets(TagAndLen(CLASS_CONTEXT, true, 200, |Octs(content)|)));
      assert Build(s, Tag(200), VStruct(vs)) == Ok(EBer(head, content));
      assert Octs(EBer(head, content)) == head.bytes + Octs(content);
    }
  }

  // ---------------------------------------------------------------- the bound

  /** A record with more usage appended to its list. */
  function WithMore(r: RecordData, more: seq<Usage>): RecordData { r.(usage := Some(Items(r) + more)) }

  lemma ItemsAdd(a: seq<Usage>, b: seq<Usage>)
    requires ItemOctets(a).Ok? && ItemOctets(b).Ok?
    ensures ItemOctets(a + b).Ok? && ItemsSize(a + b) == ItemsSize(a) + ItemsSize(b)
  {
    hide BuildElems;
    assert UsageList(a + b).elems == UsageList(a).elems + UsageList(b).elems;
    hide UsageList;
    ElemsAppend(USAGE, UNTAGGED, UsageList(a).elems, UsageList(b).elems);
  }

  lemma NoItems()
    ensures ItemOctets([]) == Ok([]) && ItemsSize([]) == 0
  {
  }

  /** By how much the fields of a record grow. */
  function FieldGrowth(r: RecordData, more: seq<Usage>): int {
    TlvSize(ItemsSize(Items(r) + more)) - if r.usage.Some? then TlvSize(ItemsSize(Items(r))) else 0
  }

  lemma ListPresent(us: seq<Usage>)
    ensures !Absent(RECORD_FIELDS[USAGE_AT], UsageList(us))
  {
  }

  lemma UsageFieldNow(r: RecordData)
    requires RecordOctets(r).Ok?
    ensures ItemOctets(Items(r)).Ok?
    ensures FieldSize(RECORD_FIELDS[USAGE_AT], RecordFields(r)[USAGE_AT]) == if r.usage.Some? then TlvSize(ItemsSize(Items(r))) else 0
  {
    hide FieldSize, FieldBuilds, RecordFields, SumSizes, LenOctets, BuildElems;
    RecordSize(r);
    if r.usage.Some? {
      ListFieldSize(Items(r));
      ListPresent(Items(r));
      assert FieldBuilds(RECORD_FIELDS[USAGE_AT], RecordFields(r)[USAGE_AT]);
    } else {
      NoItems();
      AbsentSize(RECORD_FIELDS[USAGE_AT], RecordFields(r)[USAGE_AT]);
    }
  }

  /** Only the list field differs. */
  lemma OneFieldChanged(r: RecordData, more: seq<Usage>)
    ensures RecordFields(WithMore(r, more)) == RecordFields(r)[USAGE_AT := UsageList(Items(r) + more)]
  {
    hide UsageList;
  }

  lemma UpdatedFields(r: RecordData, more: seq<Usage>)
    requires RecordOctets(r).Ok? && ItemOctets(Items(r) + more).Ok?
    ensures RecordOctets(WithMore(r, more)).Ok?
  {
    var r' := WithMore(r, more);
    ListFieldSize(Items(r'));
    OneFieldChanged(r, more);
    hide FieldSize, SumSizes, BuildElems, LenOctets, Marshal, UsageList, FieldBuilds, ItemsSize, ItemOctets, RecordFields;
    RecordSize(r);
    RecordSize(r');
  }

  lemma UpdatedContent(r: RecordData, more: seq<Usage>)
    requires RecordOctets(r).Ok? && ItemOctets(Items(r) + more).Ok?
    ensures RecordContent(WithMore(r, more)) == RecordContent(r) + FieldGrowth(r, more)
  {
    var r' := WithMore(r, more);
    UsageFieldNow(r);
    ListFieldSize(Items(r'));
    OneFieldChanged(r, more);
    hide FieldSize, SumSizes, BuildElems, LenOctets, Marshal, UsageList, FieldBuilds, ItemsSize, ItemOctets, RecordFields;
    SumUpdated(RECORD_FIELDS, RecordFields(r), USAGE_AT, UsageList(Items(r')));
  }

  /** The exact length of a record after an update that does not split it. */
  lemma UpdatedLength(r: RecordData, more: seq<Usage>)
    requires RecordOctets(r).Ok? && ListOctets(more).Ok?
    ensures RecordOctets(WithMore(r, more)).Ok?
    ensures RecordContent(WithMore(r, more)) == RecordContent(r) + FieldGrowth(r, more)
    ensures |RecordOctets(WithMore(r, more)).value| ==
            |RecordOctets(r).value| + FieldGrowth(r, more) + |LenOctets(RecordContent(WithMore(r, more)))| - |LenOctets(RecordContent(r))|
  {
    hide RecordOctets, ListOctets, ItemOctets, RecordContent, FieldGrowth, LenOctets, RecordFields;
    UsageFieldNow(r);
    ListSize(more);
    ItemsAdd(Items(r), more);
    UpdatedFields(r, more);
    UpdatedContent(r, more);
    RecordLength(r);
    RecordLength(WithMore(r, more));
  }

  /** The octets a length takes at most grow with it, and a sum takes at most one more than the longer part. */
  lemma LenOctetsGrow(a: nat, b: nat)
    requires a + b < MAX_LENGTH
    ensures |LenOctets(a)| <= |LenOctets(a + b)| <= 1 + if |LenOctets(a)| >= |LenOctets(b)| then |LenOctets(a)| else |LenOctets(b)|
  {
    LenOctetsSize(a);
    LenOctetsSize(b);
    LenOctetsSize(a + b);
    hide LenOctets;
  }

  lemma ItemsWithin(r: RecordData)
    requires RecordOctets(r).Ok?
    ensures ItemOctets(Items(r)).Ok? && ItemsSize(Items(r)) <= RecordContent(r)
  {
    UsageFieldNow(r);
    SizeAtMost(RECORD_FIELDS, RecordFields(r), USAGE_AT);
    hide FieldSize, SumSizes, ItemOctets, LenOctets, RecordOctets, ItemsSize, RecordFields;
    if r.usage.None? {
      NoItems();
    }
  }

  lemma ListWithin(r: RecordData)
    requires RecordOctets(r).Ok? && r.usage.Some?
    ensures ItemOctets(Items(r)).Ok? && TlvSize(ItemsSize(Items(r))) <= RecordContent(r)
  {
    UsageFieldNow(r);
    SizeAtMost(RECORD_FIELDS, RecordFields(r), USAGE_AT);
    hide FieldSize, SumSizes, ItemOctets, TlvSize, RecordOctets, ItemsSize, RecordFields;
  }

  lemma TlvGrowth(a: nat, b: nat)
    requires a + b < MAX_LENGTH
    ensures 0 <= TlvSize(a + b) - TlvSize(a) <= TlvSize(b)
  {
    LenOctetsGrow(a, b);
    hide LenOctets;
  }

  /** The fields grow by no more than the marshalled list. */
  lemma GrowthBound(r: RecordData, more: seq<Usage>)
    requires RecordOctets(r).Ok? && ListOctets(more).Ok?
    requires |RecordOctets(r).value| + |ListOctets(more).value| <= 65535
    ensures 0 <= FieldGrowth(r, more) <= |ListOctets(more).value|
    ensures r.usage.None? ==> FieldGrowth(r, more) == |ListOctets(more).value|
  {
    hide RecordOctets, ListOctets, ItemOctets, RecordContent, ItemsSize, LenOctets;
    ItemsWithin(r);
    RecordLength(r);
    ListSize(more);
    ItemsAdd(Items(r), more);
    TlvGrowth(ItemsSize(Items(r)), ItemsSize(more));
    NoItems();
  }

  /** Where the split is not taken, the record ends at most two octets beyond the sum that was compared, and within
      16 bits whenever its contents already had 256 octets. */
  lemma UnsplitBound(r: RecordData, more: seq<Usage>)
    requires RecordOctets(r).Ok? && ListOctets(more).Ok?
    requires |RecordOctets(r).value| + |ListOctets(more).value| <= 65535
    ensures var now := RecordOctets(WithMore(r, more));
            && now.Ok?
            && |now.value| <= |RecordOctets(r).value| + |ListOctets(more).value| + 2 <= 65537
            && (RecordContent(r) >= 256 ==> |now.value| <= 65535 && U16(|now.value|) == |now.value|)
  {
    hide RecordOctets, ListOctets, RecordContent, FieldGrowth, WithMore, LenOctets;
    UpdatedLength(r, more);
    GrowthBound(r, more);
    RecordLength(r);
    var c := RecordContent(r);
    LenOctetsSize(c);
    LenOctetsSize(c + FieldGrowth(r, more));
  }

  /** The header of what is added to a list pays for the length octets of list and record growing. */
  lemma ListGrowthCosts(had: nat, added: nat, content: nat)
    requires TlvSize(had) <= content && content + TlvSize(added) <= 65535
    ensures var growth := TlvSize(had + added) - TlvSize(had);
            3 + |LenOctets(content + growth)| + content + growth <= 65535
            || 3 + |LenOctets(content)| + content + TlvSize(added) > 65535
  {
    TlvGrowth(had, added);
    LenOctetsSize(had);
    LenOctetsSize(added);
    LenOctetsSize(had + added);
    LenOctetsSize(content);
    LenOctetsSize(content + TlvSize(had + added) - TlvSize(had));
    hide LenOctets;
  }

  /** The 16-bit length of the CDR header after an update without a split, for every record: it is exact if and only if
      the record already had a list, or the length octets of the whole record do not grow beyond 16 bits. */
  lemma UnsplitFits(r: RecordData, more: seq<Usage>)
    requires RecordOctets(r).Ok? && ListOctets(more).Ok?
    requires |RecordOctets(r).value| + |ListOctets(more).value| <= 65535
    ensures RecordOctets(WithMore(r, more)).Ok?
    ensures var now := RecordOctets(WithMore(r, more)).value;
            U16(|now|) == |now| <==> r.usage.Some? || FirstUsageFits(r, more)
  {
    hide RecordOctets, ListOctets, RecordContent, ItemOctets, ItemsSize, LenOctets, TlvSize, RecordFields;
    UnsplitBound(r, more);
    UpdatedLength(r, more);
    GrowthBound(r, more);
    if r.usage.Some? {
      RecordLength(r);
      ListSize(more);
      ListWithin(r);
      ItemsAdd(Items(r), more);
      ListGrowthCosts(ItemsSize(Items(r)), ItemsSize(more), RecordContent(r));
    }
  }

  /** The first list leaves the length of the whole record within 16 bits: the sum that was compared, and what the
      record's own length octets grow by. */
  predicate FirstUsageFits(r: RecordData, more: seq<Usage>)
    requires RecordOctets(r).Ok? && ListOctets(more).Ok?
  {
    |RecordOctets(r).value| + |ListOctets(more).value|
    + |LenOctets(RecordContent(r) + |ListOctets(more).value|)| - |LenOctets(RecordContent(r))| <= 65535
  }
}
