/** The CHF record of TS 32.298 section 5.1.5 as the charging function fills it: its BER schema and values. */
module ChfRecordTypes {
  import opened Bytes
  import opened Results
  import opened Words
  import opened BerTypes

  function Tag(t: nat): Params { Params(Some(t), false, false, false, 0) }

  function OptionalTag(t: nat): Params { Params(Some(t), true, false, false, 0) }

  const UNTAGGED := Params(None, false, false, false, 0)

  /** "explicit,choice", the parameters records are dumped with. */
  const EXPLICIT_CHOICE := Params(None, false, false, true, 0)

  const WRAPPED_INT := SWrap(SInt)
  const WRAPPED_STRING := SWrap(SString)
  const WRAPPED_OCTETS := SWrap(SOctets)
  const WRAPPED_ENUM := SWrap(SEnumerated)

  // ---------------------------------------------------------------- usage

  const CONTAINER := SStruct([
    Field(SPtr(WRAPPED_INT), OptionalTag(4)), Field(SPtr(WRAPPED_INT), OptionalTag(5)), Field(SPtr(WRAPPED_INT), OptionalTag(6)),
    Field(SPtr(SInt), OptionalTag(7)), Field(SPtr(WRAPPED_INT), OptionalTag(9))])

  const USAGE := SStruct([
    Field(WRAPPED_INT, Tag(0)), Field(SSlice(CONTAINER), OptionalTag(1)), Field(SPtr(WRAPPED_STRING), OptionalTag(2))])

  /** A used unit container: total, uplink and downlink volume, service specific units and local sequence number. */
  datatype Container = Container(total: int, uplink: int, downlink: int, serviceUnits: int, localNumber: int)

  /** One entry of the list of multiple unit usage. */
  datatype Usage = Usage(ratingGroup: int, containers: seq<Container>, upfId: seq<byte>)

  function Wrapped(i: int): Value { VPtr(VWrap(VInt(i))) }

  function ContainerValue(c: Container): Value {
    VStruct([Wrapped(c.total), Wrapped(c.uplink), Wrapped(c.downlink), VPtr(VInt(c.serviceUnits)), Wrapped(c.localNumber)])
  }

  function UsageValue(u: Usage): Value {
    VStruct([VWrap(VInt(u.ratingGroup)),
             VSlice(seq(|u.containers|, k requires 0 <= k < |u.containers| => ContainerValue(u.containers[k]))),
             VPtr(VWrap(VString(u.upfId)))])
  }

  function UsageList(us: seq<Usage>): (r: Value)
    ensures r.VSlice? && |r.elems| == |us| && forall k :: 0 <= k < |us| ==> r.elems[k] == UsageValue(us[k])
  {
    VSlice(seq(|us|, k requires 0 <= k < |us| => UsageValue(us[k])))
  }

  // ---------------------------------------------------------------- the record

  const SUBSCRIPTION_ID := SStruct([Field(WRAPPED_ENUM, Tag(0)), Field(SString, Tag(1))])

  const IP_ADDRESS := SChoice([
    Field(SPtr(WRAPPED_OCTETS), Tag(0)), Field(SPtr(WRAPPED_OCTETS), Tag(1)), Field(SPtr(SString), Tag(2)), Field(SPtr(SString), Tag(3)),
    Field(SPtr(SStruct([Field(WRAPPED_OCTETS, UNTAGGED), Field(SPtr(WRAPPED_INT), Params(None, true, false, false, 0))])), Tag(4))])

  const NODE_ADDRESS := SChoice([Field(SPtr(IP_ADDRESS), Tag(0)), Field(SPtr(SString), Tag(1))])

  const CONSUMER := SStruct([
    Field(WRAPPED_ENUM, Tag(0)), Field(SPtr(WRAPPED_STRING), OptionalTag(1)), Field(SPtr(IP_ADDRESS), OptionalTag(2)),
    Field(SPtr(WRAPPED_OCTETS), OptionalTag(3)), Field(SPtr(IP_ADDRESS), OptionalTag(4)), Field(SPtr(NODE_ADDRESS), OptionalTag(5))])

  const NSSAI := SStruct([Field(WRAPPED_INT, Tag(0)), Field(SPtr(WRAPPED_OCTETS), OptionalTag(1))])

  const PDU_SESSION := SStruct([
    Field(WRAPPED_INT, Tag(0)), Field(WRAPPED_INT, Tag(6)), Field(SPtr(NSSAI), OptionalTag(7)), Field(SPtr(WRAPPED_STRING), OptionalTag(13))])

  const REGISTRATION := SStruct([Field(WRAPPED_ENUM, Tag(0))])

  /** The fields the charging function sets, in declaration order. */
  const RECORD_FIELDS := [
    Field(WRAPPED_INT, Tag(0)),                       // record type
    Field(WRAPPED_STRING, Tag(1)),                    // recording network function
    Field(SPtr(SUBSCRIPTION_ID), OptionalTag(2)),
    Field(CONSUMER, Tag(3)),
    Field(SSlice(USAGE), OptionalTag(5)),             // list of multiple unit usage
    Field(WRAPPED_OCTETS, Tag(6)),                    // record opening time
    Field(WRAPPED_INT, Tag(7)),                       // duration
    Field(SPtr(SInt), OptionalTag(8)),                // record sequence number
    Field(WRAPPED_INT, Tag(9)),                       // cause for record closing
    Field(SPtr(WRAPPED_INT), OptionalTag(11)),        // local record sequence number
    Field(SPtr(PDU_SESSION), OptionalTag(13)),
    Field(SPtr(WRAPPED_OCTETS), OptionalTag(16)),     // charging session identifier
    Field(SPtr(SOctets), OptionalTag(17)),            // service specification information
    Field(SPtr(REGISTRATION), OptionalTag(19)),
    Field(SPtr(WRAPPED_INT), OptionalTag(27))]        // charging id

  /** Where the list of multiple unit usage is. */
  const USAGE_AT := 4

  const CHF_RECORD := SChoice([Field(SPtr(SStruct(RECORD_FIELDS)), Tag(200))])

  /** What opening a record fixes: its first four fields, the opening time, and what follows the local number. */
  datatype Opening = Opening(
    networkFunction: seq<byte>, subscriber: Value, consumer: Value, openedAt: seq<byte>,
    pduSession: Value, sessionId: seq<byte>, serviceInformation: Value, registration: Value, chargingId: int)

  /** The contents of a charging record; no list of usage is a nil slice. */
  datatype RecordData = RecordData(
    opening: Opening, usage: Option<seq<Usage>>, sequenceNumber: Option<int>, cause: int, localNumber: int)

  function RecordFields(r: RecordData): (vs: seq<Value>)
    ensures |vs| == |RECORD_FIELDS|
    ensures vs[USAGE_AT] == if r.usage.None? then VNil else UsageList(r.usage.value)
  {
    var o := r.opening;
    [VWrap(VInt(200)), VWrap(VString(o.networkFunction)), o.subscriber, o.consumer,
     if r.usage.None? then VNil else UsageList(r.usage.value),
     VWrap(VOctets(o.openedAt)), VWrap(VInt(0)),
     if r.sequenceNumber.None? then VNil else VPtr(VInt(r.sequenceNumber.value)),
     VWrap(VInt(r.cause)), Wrapped(r.localNumber), o.pduSession,
     if o.sessionId == [] then VNil else VPtr(VWrap(VOctets(o.sessionId))),
     o.serviceInformation, o.registration, Wrapped(o.chargingId)]
  }

  function RecordValue(r: RecordData): Value { VChoice(1, [VPtr(VStruct(RecordFields(r)))]) }

  /** The usage items of a record. */
  function Items(r: RecordData): seq<Usage> { if r.usage.Some? then r.usage.value else [] }

  // ---------------------------------------------------------------- conversion

  /** A reported container and a usage report as they arrive; what the record does not keep is left out. */
  datatype ReportedContainer = ReportedContainer(
    total: int32, uplink: int32, downlink: int32, serviceUnits: int32, localNumber: int32)

  datatype UsageReport = UsageReport(ratingGroup: int32, containers: seq<ReportedContainer>, upfId: seq<byte>)

  /** c is the record's form of a reported container. */
  predicate ContainerConverted(r: ReportedContainer, c: Container) {
    && c.total == r.total && c.uplink == r.uplink && c.downlink == r.downlink
    && c.serviceUnits == r.serviceUnits && c.localNumber == r.localNumber
  }

  predicate Converted(r: UsageReport, u: Usage) {
    && u.ratingGroup == r.ratingGroup && u.upfId == r.upfId && |u.containers| == |r.containers|
    && forall k :: 0 <= k < |r.containers| ==> ContainerConverted(r.containers[k], u.containers[k])
  }

  method UsedUnitContainerToCdr(rs: seq<ReportedContainer>) returns (cs: seq<Container>)
    ensures |cs| == |rs| && forall k :: 0 <= k < |rs| ==> ContainerConverted(rs[k], cs[k])
  {
    cs := [];
    for i := 0 to |rs|
      invariant |cs| == i && forall k :: 0 <= k < i ==> ContainerConverted(rs[k], cs[k])
    {
      cs := cs + [Container(rs[i].total, rs[i].uplink, rs[i].downlink, rs[i].serviceUnits, rs[i].localNumber)];
    }
  }

  /** Converts reports to usage items, one by one and in order. */
  method MultiUnitUsageToCdr(rs: seq<UsageReport>) returns (us: seq<Usage>)
    ensures us == AllConverted(rs)
  {
    us := [];
    for i := 0 to |rs|
      invariant us == AllConverted(rs[..i])
    {
      var cs := UsedUnitContainerToCdr(rs[i].containers);
      ConvertedOnce(rs[i], Usage(rs[i].ratingGroup, cs, rs[i].upfId));
      us := us + [Usage(rs[i].ratingGroup, cs, rs[i].upfId)];
    }
    assert rs[..|rs|] == rs;
  }

  function Convert(r: UsageReport): (u: Usage)
    ensures Converted(r, u)
  {
    Usage(r.ratingGroup,
          seq(|r.containers|, k requires 0 <= k < |r.containers| =>
            var c := r.containers[k]; Container(c.total, c.uplink, c.downlink, c.serviceUnits, c.localNumber)),
          r.upfId)
  }

  function AllConverted(rs: seq<UsageReport>): (us: seq<Usage>)
    ensures |us| == |rs| && forall k :: 0 <= k < |rs| ==> us[k] == Convert(rs[k])
  {
    seq(|rs|, k requires 0 <= k < |rs| => Convert(rs[k]))
  }

  /** A report has one converted form. */
  lemma ConvertedOnce(r: UsageReport, u: Usage)
    requires Converted(r, u)
    ensures u == Convert(r)
  {
    assert u.containers == Convert(r).containers;
  }
}
