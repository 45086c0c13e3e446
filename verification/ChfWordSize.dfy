/** The numbers in charging records are 64-bit words, and stay so. */
module ChfWordSize {
  import opened Bytes
  import opened Results
  import opened Words
  import opened BerScalars
  import opened BerTypes
  import opened BerMarshal
  import opened ChfRecordTypes
  import opened SplitBound
  import opened ChfLifecycle

  lemma {:induction false} AllWordSizedIff(vs: seq<Value>)
    ensures AllWordSized(vs) <==> forall k :: 0 <= k < |vs| ==> WordSized(vs[k])
  {
    hide WordSized;
    if vs != [] {
      AllWordSizedIff(vs[..|vs| - 1]);
    }
  }

  lemma WrappedWordSized(i: int64)
    ensures WordSized(Wrapped(i)) && WordSized(VWrap(VInt(i))) && WordSized(VPtr(VInt(i)))
  {
    assert WordSized(VInt(i));
    assert WordSized(VWrap(VInt(i)));
  }

  lemma OctetsWordSized(s: seq<byte>)
    ensures WordSized(VPtr(VWrap(VString(s)))) && WordSized(VPtr(VWrap(VOctets(s)))) && WordSized(VWrap(VOctets(s))) && WordSized(VWrap(VString(s)))
  {
    assert WordSized(VWrap(VString(s)));
    assert WordSized(VWrap(VOctets(s)));
  }

  lemma ContainerWordSized(r: ReportedContainer, c: Container)
    requires ContainerConverted(r, c)
    ensures WordSized(ContainerValue(c))
  {
    var vs := ContainerValue(c).fields;
    AllWordSizedIff(vs);
    WrappedWordSized(c.total);
    WrappedWordSized(c.uplink);
    WrappedWordSized(c.downlink);
    WrappedWordSized(c.serviceUnits);
    WrappedWordSized(c.localNumber);
    hide AllWordSized;
  }

  /** Reports carry 32-bit numbers. */
  lemma UsageWordSized(r: UsageReport)
    ensures WordSized(UsageValue(Convert(r)))
  {
    var u := Convert(r);
    var vs := UsageValue(u).fields;
    var containers := vs[1].elems;
    forall k | 0 <= k < |containers| ensures WordSized(containers[k]) { ContainerWordSized(r.containers[k], u.containers[k]); }
    hide ContainerValue;
    AllWordSizedIff(containers);
    AllWordSizedIff(vs);
    WrappedWordSized(u.ratingGroup);
    OctetsWordSized(u.upfId);
    hide AllWordSized;
  }

  lemma ListWordSized(rs: seq<UsageReport>)
    ensures WordSized(UsageList(AllConverted(rs)))
  {
    var us := AllConverted(rs);
    hide UsageValue;
    forall k | 0 <= k < |us| ensures WordSized(UsageList(us).elems[k]) { UsageWordSized(rs[k]); }
    AllWordSizedIff(UsageList(us).elems);
  }

  lemma RecordWordSized(r: RecordData)
    ensures WordSized(RecordValue(r)) <==> forall k :: 0 <= k < |RECORD_FIELDS| ==> WordSized(RecordFields(r)[k])
  {
    var vs := RecordFields(r);
    hide RecordFields;
    AllWordSizedIff(vs);
    AllWordSizedIff([VPtr(VStruct(vs))]);
    hide AllWordSized;
    assert [VPtr(VStruct(vs))][0] == VPtr(VStruct(vs));
  }

  /** Replacing one field by a word keeps a record word-sized. */
  lemma FieldReplaced(r: RecordData, r': RecordData, k: nat, v: Value)
    requires k < |RECORD_FIELDS| && RecordFields(r') == RecordFields(r)[k := v] && WordSized(v) && WordSized(RecordValue(r))
    ensures WordSized(RecordValue(r'))
  {
    hide WordSized, RecordFields, RecordValue;
    RecordWordSized(r);
    RecordWordSized(r');
  }

  lemma UsageKeepsWords(r: RecordData, rs: seq<UsageReport>)
    requires WordSized(RecordValue(r))
    ensures WordSized(RecordValue(AddUsage(r, AllConverted(rs))))
  {
    hide WordSized, RecordValue, RecordFields, UsageList;
    var us := AllConverted(rs);
    if us != [] {
      RecordWordSized(r);
      ListWordSized(rs);
      AppendedWordSized(r, us);
      OneFieldChanged(r, us);
      FieldReplaced(r, WithMore(r, us), USAGE_AT, UsageList(Items(r) + us));
    }
  }

  lemma AppendedWordSized(r: RecordData, us: seq<Usage>)
    requires WordSized(RecordFields(r)[USAGE_AT]) && WordSized(UsageList(us))
    ensures WordSized(UsageList(Items(r) + us))
  {
    hide UsageValue, RecordFields;
    AllWordSizedIff(UsageList(Items(r)).elems);
    AllWordSizedIff(UsageList(us).elems);
    AllWordSizedIff(UsageList(Items(r) + us).elems);
    hide AllWordSized;
  }

  lemma EmptiedKeepsWords(r: RecordData)
    requires WordSized(RecordValue(r))
    ensures WordSized(RecordValue(r.(usage := Some([]))))
  {
    assert WordSized(UsageList([]));
    hide WordSized, UsageList, RecordValue;
    assert RecordFields(r.(usage := Some([]))) == RecordFields(r)[USAGE_AT := UsageList([])];
    hide RecordFields;
    FieldReplaced(r, r.(usage := Some([])), USAGE_AT, UsageList([]));
  }

  lemma CauseKeepsWords(r: RecordData, cause: int64)
    requires WordSized(RecordValue(r))
    ensures WordSized(RecordValue(r.(cause := cause)))
  {
    assert WordSized(VWrap(VInt(cause)));
    hide WordSized, UsageList, RecordValue;
    assert RecordFields(r.(cause := cause)) == RecordFields(r)[8 := VWrap(VInt(cause))];
    hide RecordFields;
    FieldReplaced(r, r.(cause := cause), 8, VWrap(VInt(cause)));
  }

  lemma NumberKeepsWords(r: RecordData, n: int64)
    requires WordSized(RecordValue(r))
    ensures WordSized(RecordValue(r.(sequenceNumber := Some(n))))
  {
    assert WordSized(VPtr(VInt(n)));
    hide WordSized, UsageList, RecordValue;
    assert RecordFields(r.(sequenceNumber := Some(n))) == RecordFields(r)[7 := VPtr(VInt(n))];
    hide RecordFields;
    FieldReplaced(r, r.(sequenceNumber := Some(n)), 7, VPtr(VInt(n)));
  }

  /** An opening whose parts are Go values. */
  predicate WordSizedOpening(o: Opening) {
    && WordSized(o.subscriber) && WordSized(o.consumer) && WordSized(o.pduSession) && WordSized(o.serviceInformation)
    && WordSized(o.registration) && IsInt64(o.chargingId)
  }

  lemma OpenedWordSized(o: Opening, n: int64)
    requires WordSizedOpening(o)
    ensures WordSized(RecordValue(Opened(o, n)))
  {
    hide RecordValue;
    var r := Opened(o, n);
    forall k | 0 <= k < |RECORD_FIELDS|
      ensures WordSized(RecordFields(r)[k])
    {
      OpenedFieldWordSized(o, n, k);
    }
    hide RecordFields, WordSized;
    RecordWordSized(r);
  }

  lemma OpenedFieldWordSized(o: Opening, n: int64, k: nat)
    requires WordSizedOpening(o) && k < |RECORD_FIELDS|
    ensures WordSized(RecordFields(Opened(o, n))[k])
  {
    if k < 7 { FirstOpenedWordSized(o, n, k); } else { LastOpenedWordSized(o, n, k); }
  }

  lemma FirstOpenedWordSized(o: Opening, n: int64, k: nat)
    requires WordSizedOpening(o) && k < 7
    ensures WordSized(RecordFields(Opened(o, n))[k])
  {
    hide WordSized;
    WrappedWordSized(200);
    WrappedWordSized(0);
    OctetsWordSized(o.openedAt);
    OctetsWordSized(o.networkFunction);
    NothingWordSized();
  }

  lemma NothingWordSized()
    ensures WordSized(VNil)
  {
  }

  lemma LastOpenedWordSized(o: Opening, n: int64, k: nat)
    requires WordSizedOpening(o) && 7 <= k < |RECORD_FIELDS|
    ensures WordSized(RecordFields(Opened(o, n))[k])
  {
    hide WordSized;
    WrappedWordSized(n);
    WrappedWordSized(0);
    WrappedWordSized(o.chargingId);
    OctetsWordSized(o.sessionId);
    NothingWordSized();
  }
}
