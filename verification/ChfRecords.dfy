/** The charging records as objects, shared between the UE's list of records and its map of sessions. */
module ChfRecords {
  import opened Bytes
  import opened Results
  import opened Words
  import opened BerTypes
  import opened BerMarshal
  import opened ChfRecordTypes
  import opened CdrDump
  import opened ChfLifecycle
  import opened ChfWordSize
  import opened Decimals

  /** The record body. */
  class ChargingRecord {
    const opening: Opening
    var listOfMultipleUnitUsage: Option<seq<Usage>>
    var recordSequenceNumber: Option<int>
    var causeForRecClosing: int
    const localRecordSequenceNumber: int

    constructor (data: RecordData)
      ensures Data() == data
    {
      opening, localRecordSequenceNumber := data.opening, data.localNumber;
      listOfMultipleUnitUsage, recordSequenceNumber, causeForRecClosing := data.usage, data.sequenceNumber, data.cause;
    }

    function Data(): RecordData
      reads this
    {
      RecordData(opening, listOfMultipleUnitUsage, recordSequenceNumber, causeForRecClosing, localRecordSequenceNumber)
    }
  }

  /** The record itself: the charging function only ever makes records of the one alternative. */
  class CHFRecord {
    const chargingFunctionRecord: ChargingRecord

    constructor (body: ChargingRecord)
      ensures chargingFunctionRecord == body
    {
      chargingFunctionRecord := body;
    }
  }

  class CHFContext {
    var localRecordSequenceNumber: u64
    var recordSequenceNumber: map<string, int64>

    constructor ()
      ensures localRecordSequenceNumber == 0 && recordSequenceNumber == map[]
    {
      localRecordSequenceNumber, recordSequenceNumber := 0, map[];
    }

    function StoredNumber(session: string): int64
      reads this
    {
      if session in recordSequenceNumber then recordSequenceNumber[session] else 0
    }
  }

  /** Appends the reported usage to a record; a missing record is an error. */
  method UpdateCDR(record: CHFRecord?, reports: seq<UsageReport>) returns (ok: bool)
    modifies if record != null then {record.chargingFunctionRecord} else {}
    ensures ok <==> record != null
    ensures record != null ==>
              record.chargingFunctionRecord.Data() == AddUsage(old(record.chargingFunctionRecord.Data()), AllConverted(reports))
  {
    if record == null {
      return false;
    }
    var chfCdr := record.chargingFunctionRecord;
    if |reports| != 0 {
      var cdrMultiUnitUsage := MultiUnitUsageToCdr(reports);
      var list := if chfCdr.listOfMultipleUnitUsage.Some? then chfCdr.listOfMultipleUnitUsage.value else [];
      chfCdr.listOfMultipleUnitUsage := Some(list + cdrMultiUnitUsage);
    }
    ok := true;
  }

  method CloseCDR(record: CHFRecord, partial: bool)
    modifies record.chargingFunctionRecord
    ensures record.chargingFunctionRecord.Data() == old(record.chargingFunctionRecord.Data()).(cause := if partial then 1 else 0)
  {
    record.chargingFunctionRecord.causeForRecClosing := if partial then 1 else 0;
  }

  /** What opening a record takes from the request: nothing if the request lacks what a record needs. */
  datatype Request = Request(opening: Option<Opening>, consumerName: string, oneTimeEvent: bool, reports: seq<UsageReport>)

  function SessionOctets(session: string): seq<byte> {
    seq(|session|, k requires 0 <= k < |session| => session[k] as int % 0x100)
  }

  /** A record as it is opened: no partial record number, a normal closing as its cause, the given local number, and what
      the request says, with the octets of the session reference. */
  predicate NewlyOpened(r: RecordData, request: Request, session: string, number: int) {
    && request.opening.Some? && r.sequenceNumber == None && r.cause == 0 && r.localNumber == number
    && r.opening == request.opening.value.(sessionId := r.opening.sessionId)
    && |r.opening.sessionId| == |session|
    && forall k :: 0 <= k < |session| ==> r.opening.sessionId[k] == session[k] as int % 0x100
  }

  lemma OpenedNewly(request: Request, session: string, number: int)
    requires request.opening.Some?
    ensures var r := Opened(request.opening.value.(sessionId := SessionOctets(session)), number);
            NewlyOpened(r, request, session, number) && NewlyOpened(AddUsage(r, AllConverted(request.reports)), request, session, number)
    ensures var items := Items(AddUsage(Opened(request.opening.value.(sessionId := SessionOctets(session)), number), AllConverted(request.reports)));
            |items| == |request.reports| && forall k :: 0 <= k < |request.reports| ==> Converted(request.reports[k], items[k])
  {
  }

  /** The reference of a new charging session; one-time events have none. */
  function SessionId(ueId: string, consumerName: string, oneTimeEvent: bool, number: u64): string {
    if oneTimeEvent then "" else ueId + consumerName + FormatInt(I64(number))
  }

  /** Marshals a record and the list of new usage, for the split decision. */
  method MeasureSplit(record: RecordData, reports: seq<UsageReport>) returns (r: Result<nat>)
    requires WordSized(RecordValue(record))
    ensures r == SplitLengths(record, AllConverted(reports))
  {
    ListWordSized(reports);
    hide WordSized, RecordValue, AllConverted, UsageList, Marshal;
    var cdrBytes := BerMarshalWithParams(CHF_RECORD, EXPLICIT_CHOICE, RecordValue(record));
    if cdrBytes.Fail? {
      return Fail(cdrBytes.failure);
    }
    var length := |cdrBytes.value|;
    if |reports| != 0 {
      var cdrMultiUnitUsage := MultiUnitUsageToCdr(reports);
      var chgDataBytes := BerMarshalWithParams(SSlice(USAGE), EXPLICIT_CHOICE, UsageList(cdrMultiUnitUsage));
      if chgDataBytes.Fail? {
        return Fail(chgDataBytes.failure);
      }
      length := length + |chgDataBytes.value|;
    }
    r := Ok(length);
  }

  /** The records of one UE, its sessions' current records, and its CDR file. */
  class UeRecords {
    const supi: string
    var cdr: map<string, CHFRecord>
    var records: seq<CHFRecord>
    var file: Option<seq<byte>>
    ghost var at: map<string, nat>

    constructor (supi: string)
      ensures Valid() && State() == EMPTY && this.supi == supi
    {
      this.supi := supi;
      cdr, records, file, at := map[], [], None, map[];
    }

    ghost function Bodies(): set<ChargingRecord>
      reads this
    {
      set k | 0 <= k < |records| :: records[k].chargingFunctionRecord
    }

    /** No record is listed twice and no body shared; every session points at a listed record. */
    ghost predicate Valid()
      reads this, Bodies()
    {
      && (forall j, k :: 0 <= j < k < |records| ==> records[j].chargingFunctionRecord != records[k].chargingFunctionRecord)
      && at.Keys == cdr.Keys
      && (forall s :: s in cdr ==> at[s] < |records| && records[at[s]] == cdr[s])
      && (forall k :: 0 <= k < |records| ==> WordSized(RecordValue(records[k].chargingFunctionRecord.Data())))
    }

    ghost function Datas(): (rs: seq<RecordData>)
      reads this, Bodies()
      ensures |rs| == |records| && forall k :: 0 <= k < |records| ==> rs[k] == records[k].chargingFunctionRecord.Data()
    {
      seq(|records|, k requires 0 <= k < |records| reads this, Bodies() => records[k].chargingFunctionRecord.Data())
    }

    ghost function State(): (st: UeState)
      requires Valid()
      reads this, Bodies()
      ensures Consistent(st) && st.cdr.Keys == cdr.Keys
    {
      UeState(Datas(), at, file)
    }

    /** The body of one session's record was replaced by r, and nothing else changed. */
    twostate lemma BodyChanged(session: string)
      requires old(Valid()) && unchanged(this) && session in cdr
      requires forall k :: 0 <= k < |records| && k != at[session] ==> unchanged(records[k].chargingFunctionRecord)
      requires WordSized(RecordValue(cdr[session].chargingFunctionRecord.Data()))
      ensures Valid() && State() == OnCurrent(old(State()), session, cdr[session].chargingFunctionRecord.Data())
    {
      assert Datas() == old(Datas())[at[session] := cdr[session].chargingFunctionRecord.Data()];
    }

    /** Objects that are not listed do not matter. */
    twostate lemma Untouched()
      requires old(Valid()) && unchanged(this) && unchanged(old(Bodies()))
      ensures Valid() && State() == old(State()) && Bodies() == old(Bodies())
    {
      assert Datas() == old(Datas());
    }

    /** The record of a session, its place in the list, and its contents. */
    lemma CurrentRecord(session: string)
      requires Valid() && session in cdr
      ensures cdr[session] in records && cdr[session].chargingFunctionRecord in Bodies()
      ensures Current(State(), session) == cdr[session].chargingFunctionRecord.Data()
      ensures WordSized(RecordValue(cdr[session].chargingFunctionRecord.Data()))
    {
      assert records[at[session]] == cdr[session];
    }

    lemma AllRecords()
      requires Valid()
      ensures State().records == Datas() && forall k :: 0 <= k < |records| ==> WordSized(RecordValue(Datas()[k]))
    {
      hide WordSized, RecordValue;
    }

    /** Writes a file of the given records over the UE's CDR file. */
    method DumpCdrFile(list: seq<CHFRecord>, ghost rs: seq<RecordData>) returns (reply: Reply)
      requires Valid() && |rs| == |list|
      requires forall k :: 0 <= k < |list| ==> rs[k] == list[k].chargingFunctionRecord.Data() && WordSized(RecordValue(rs[k]))
      modifies this`file
      ensures Valid() && (State(), reply) == FileWritten(old(State()), DumpRecords(rs))
    {
      hide WordSized, RecordValue, Dumped;
      var values: seq<Value> := [];
      for k := 0 to |list|
        invariant |values| == k && forall j :: 0 <= j < k ==> values[j] == RecordValue(rs[j])
      {
        values := values + [RecordValue(list[k].chargingFunctionRecord.Data())];
      }
      assert values == RecordValues(rs);
      var written := CdrDump.DumpCdrFile(CHF_RECORD, EXPLICIT_CHOICE, values);
      if written.Fail? {
        reply := ReplyTo(written.failure);
        assert Datas() == old(Datas());
      } else {
        file := Some(written.value);
        reply := Accepted;
        assert Datas() == old(Datas());
      }
    }

    /** Lists a new record with a body of its own and points the session at it. */
    method AddRecord(session: string, record: CHFRecord)
      requires Valid() && record.chargingFunctionRecord !in Bodies()
      requires WordSized(RecordValue(record.chargingFunctionRecord.Data()))
      modifies this`cdr, this`records, this`at
      ensures Valid() && records == old(records) + [record] && cdr == old(cdr)[session := record]
      ensures State() == old(Listed(State(), session, record.chargingFunctionRecord.Data()))
    {
      hide WordSized, RecordValue;
      cdr := cdr[session := record];
      at := at[session := |records|];
      records := records + [record];
      assert Datas() == old(Datas()) + [record.chargingFunctionRecord.Data()];
    }

    method AppendUsage(session: string, reports: seq<UsageReport>)
      requires Valid() && session in cdr
      modifies cdr[session].chargingFunctionRecord
      ensures Valid()
      ensures State() == old(OnCurrent(State(), session, AddUsage(Current(State(), session), AllConverted(reports))))
    {
      hide WordSized, RecordValue, AddUsage, AllConverted;
      CurrentRecord(session);
      UsageKeepsWords(cdr[session].chargingFunctionRecord.Data(), reports);
      var _ := UpdateCDR(cdr[session], reports);
      BodyChanged(session);
    }

    method Close(session: string, partial: bool)
      requires Valid() && session in cdr
      modifies cdr[session].chargingFunctionRecord
      ensures Valid()
      ensures State() == old(OnCurrent(State(), session, Current(State(), session).(cause := if partial then 1 else 0)))
    {
      hide WordSized, RecordValue;
      CurrentRecord(session);
      CauseKeepsWords(cdr[session].chargingFunctionRecord.Data(), if partial then 1 else 0);
      CloseCDR(cdr[session], partial);
      BodyChanged(session);
    }

    /** Opening a partial record: the same record goes on under the number after the stored one. */
    method Reopen(session: string, context: CHFContext)
      requires Valid() && session in cdr
      modifies cdr[session].chargingFunctionRecord
      ensures Valid()
      ensures State() == old(OnCurrent(State(), session, Current(State(), session).(sequenceNumber := Some(I64(context.StoredNumber(session) + 1)))))
    {
      CurrentRecord(session);
      var partialRecordSeqNum: int := context.StoredNumber(session);
      partialRecordSeqNum := I64(partialRecordSeqNum + 1);
      NumberKeepsWords(cdr[session].chargingFunctionRecord.Data(), partialRecordSeqNum);
      hide WordSized, RecordValue;
      cdr[session].chargingFunctionRecord.recordSequenceNumber := Some(partialRecordSeqNum);
      BodyChanged(session);
    }

    /** The lengths that decide about the split: the record as it is and the list of new usage. */
    method Lengths(session: string, reports: seq<UsageReport>) returns (r: Result<nat>)
      requires Valid() && session in cdr
      ensures Valid() && State() == old(State())
      ensures r == SplitLengths(Current(State(), session), AllConverted(reports))
    {
      CurrentRecord(session);
      r := MeasureSplit(cdr[session].chargingFunctionRecord.Data(), reports);
      hide SplitLengths, AllConverted;
      assert Datas() == old(Datas());
    }

    /** A copy of the record with an empty list takes its place; the record itself stays as it is. */
    method SplitOff(session: string)
      requires Valid() && session in cdr
      modifies this`cdr, this`records, this`at
      ensures Valid() && session in cdr && fresh(cdr[session].chargingFunctionRecord)
      ensures State() == old(SplitRecord(State(), session))
    {
      CurrentRecord(session);
      EmptiedKeepsWords(cdr[session].chargingFunctionRecord.Data());
      hide WordSized, RecordValue, State, Datas, Listed, Valid;
      var body := new ChargingRecord(cdr[session].chargingFunctionRecord.Data().(usage := Some([])));
      var newRecord := new CHFRecord(body);
      Untouched();
      AddRecord(session, newRecord);
    }

    /** Closes a partial record, dumps it alone and opens it again. */
    method ClosePartial(session: string, context: CHFContext) returns (reply: Reply)
      requires Valid() && session in cdr
      modifies this`file, cdr[session].chargingFunctionRecord
      ensures Valid() && (State(), reply) == old(Partial(State(), session, context.StoredNumber(session)))
    {
      hide DumpRecords, RecordValue, WordSized;
      Close(session, true);
      CurrentRecord(session);
      reply := DumpCdrFile([cdr[session]], [cdr[session].chargingFunctionRecord.Data()]);
      if reply == Accepted {
        Reopen(session, context);
      }
    }

    method ChargingDataUpdate(session: string, reports: seq<UsageReport>, partialRecord: bool, context: CHFContext) returns (reply: Reply)
      requires Valid()
      modifies this, Bodies()
      ensures Valid()
      ensures (State(), reply) == old(Update(State(), session, AllConverted(reports), partialRecord, context.StoredNumber(session)))
    {
      hide DumpRecords, RecordValue, WordSized, AddUsage, AllConverted, SplitLengths, Partial, Valid, State, Datas, Bodies, FileWritten;
      if session !in cdr {
        return NotFound;
      }
      CurrentRecord(session);
      var lengths := Lengths(session, reports);
      if lengths.Fail? {
        return ReplyTo(lengths.failure);
      }
      if lengths.value > 65535 {
        SplitOff(session);
      }
      AppendUsage(session, reports);
      CurrentRecord(session);
      if partialRecord {
        reply := ClosePartial(session, context);
        if reply != Accepted {
          return;
        }
      }
      AllRecords();
      reply := DumpCdrFile(records, Datas());
    }

    method ChargingDataRelease(session: string, reports: seq<UsageReport>) returns (reply: Reply)
      requires Valid()
      modifies this, Bodies()
      ensures Valid()
      ensures (State(), reply) == old(Release(State(), session, AllConverted(reports)))
    {
      hide DumpRecords, RecordValue, WordSized, AddUsage, AllConverted, Valid, State, Datas, Bodies, FileWritten;
      if session !in cdr {
        return BadRequest;
      }
      CurrentRecord(session);
      AppendUsage(session, reports);
      OnCurrentTwice(old(State()), session, Current(State(), session), Current(State(), session).(cause := 0));
      Close(session, false);
      CurrentRecord(session);
      reply := DumpCdrFile([cdr[session]], [cdr[session].chargingFunctionRecord.Data()]);
    }

    /** Opens a record: the local number is taken before the request is looked at. */
    method OpenCDR(request: Request, session: string, context: CHFContext) returns (record: CHFRecord?)
      requires request.opening.Some? ==> WordSizedOpening(request.opening.value)
      modifies context`localRecordSequenceNumber
      ensures context.localRecordSequenceNumber == U64(old(context.localRecordSequenceNumber) + 1)
      ensures record != null <==> request.opening.Some?
      ensures record != null ==>
                fresh(record) && fresh(record.chargingFunctionRecord) && record.chargingFunctionRecord.Data() ==
                Opened(request.opening.value.(sessionId := SessionOctets(session)), I64(context.localRecordSequenceNumber))
      ensures record != null ==> NewlyOpened(record.chargingFunctionRecord.Data(), request, session, I64(context.localRecordSequenceNumber))
                                 && record.chargingFunctionRecord.listOfMultipleUnitUsage == None
    {
      var number: int := context.localRecordSequenceNumber;
      context.localRecordSequenceNumber := U64(number + 1);
      if request.opening.None? {
        return null;
      }
      OpenedNewly(request, session, I64(context.localRecordSequenceNumber));
      var body := new ChargingRecord(Opened(request.opening.value.(sessionId := SessionOctets(session)), I64(context.localRecordSequenceNumber)));
      record := new CHFRecord(body);
    }

    /** Creates a charging session, or serves a one-time event, whose record is closed at once; the cause of a
        normal closing is what the record already holds. */
    method ChargingDataCreate(request: Request, context: CHFContext) returns (reply: Reply, session: string)
      requires Valid() && (request.opening.Some? ==> WordSizedOpening(request.opening.value))
      modifies this, context`localRecordSequenceNumber
      ensures Valid()
      ensures session == SessionId(supi, request.consumerName, request.oneTimeEvent, old(context.localRecordSequenceNumber))
      ensures context.localRecordSequenceNumber == U64(old(context.localRecordSequenceNumber) + 1)
      ensures reply == if request.opening.Some? then Accepted else BadRequest
      ensures State() == if request.opening.None? then old(State())
                         else old(Create(State(), session, request.opening.value.(sessionId := SessionOctets(session)),
                                         I64(U64(context.localRecordSequenceNumber + 1)), AllConverted(request.reports)))
      ensures request.opening.Some? ==>
                && session in cdr && fresh(cdr[session]) && records == old(records) + [cdr[session]]
                && var r := Current(State(), session);
                && NewlyOpened(r, request, session, I64(context.localRecordSequenceNumber))
                && |Items(r)| == |request.reports|
                && forall k :: 0 <= k < |request.reports| ==> Converted(request.reports[k], Items(r)[k])
    {
      hide RecordValue, WordSized, AllConverted, State, Datas, AddUsage, SessionId, SessionOctets, Listed, Valid, WordSizedOpening;
      hide NewlyOpened, Items, Converted, Opened;
      session := SessionId(supi, request.consumerName, request.oneTimeEvent, context.localRecordSequenceNumber);
      var record := NewRecord(request, session, context);
      Untouched();
      if record == null {
        return BadRequest, session;
      }
      AddRecord(session, record);
      CurrentRecord(session);
      OpenedNewly(request, session, I64(context.localRecordSequenceNumber));
      reply := Accepted;
    }

    /** Opens a record and puts the first usage into it; a one-time event is closed at once. */
    method NewRecord(request: Request, session: string, context: CHFContext) returns (record: CHFRecord?)
      requires request.opening.Some? ==> WordSizedOpening(request.opening.value)
      modifies context`localRecordSequenceNumber
      ensures context.localRecordSequenceNumber == U64(old(context.localRecordSequenceNumber) + 1)
      ensures record != null <==> request.opening.Some?
      ensures record != null ==> fresh(record) && fresh(record.chargingFunctionRecord)
      ensures record != null ==>
                var data := record.chargingFunctionRecord.Data();
                && data == AddUsage(Opened(request.opening.value.(sessionId := SessionOctets(session)), I64(context.localRecordSequenceNumber)), AllConverted(request.reports))
                && WordSized(RecordValue(data))
    {
      hide RecordValue, WordSized, AllConverted, SessionOctets;
      record := OpenCDR(request, session, context);
      if record == null {
        return;
      }
      OpenedWordSized(request.opening.value.(sessionId := SessionOctets(session)), I64(context.localRecordSequenceNumber));
      UsageKeepsWords(record.chargingFunctionRecord.Data(), request.reports);
      var _ := UpdateCDR(record, request.reports);
      if request.oneTimeEvent {
        CloseCDR(record, false);
      }
    }
  }
}
