/**
 * The life of the charging records of one UE, on values: what create, update and release do to the list of
 * records, to the record each charging session points at, and to the CDR file.
 */
module ChfLifecycle {
  import opened Bytes
  import opened Results
  import opened Words
  import opened BerTypes
  import opened ChfRecordTypes
  import opened SplitBound
  import opened CdrDump

  datatype Reply = Accepted | BadRequest | NotFound | Crashed

  /** All records in order, the index of the current record of each session, and the file on disk. */
  datatype UeState = UeState(records: seq<RecordData>, cdr: map<string, nat>, file: Option<seq<byte>>)

  predicate Consistent(st: UeState) {
    forall s :: s in st.cdr ==> st.cdr[s] < |st.records|
  }

  function ReplyTo(f: Failure): Reply { if f.Error? then BadRequest else Crashed }

  // ---------------------------------------------------------------- single steps

  /** Usage is appended if there is any; otherwise a nil list stays nil. */
  function AddUsage(r: RecordData, us: seq<Usage>): RecordData {
    if us == [] then r else WithMore(r, us)
  }

  function Opened(opening: Opening, localNumber: int): RecordData { RecordData(opening, None, None, 0, localNumber) }

  function DumpRecords(rs: seq<RecordData>): Result<seq<byte>> { Dumped(CHF_RECORD, EXPLICIT_CHOICE, RecordValues(rs)) }

  function RecordValues(rs: seq<RecordData>): (vs: seq<Value>)
    ensures |vs| == |rs| && forall k :: 0 <= k < |rs| ==> vs[k] == RecordValue(rs[k])
  {
    seq(|rs|, k requires 0 <= k < |rs| => RecordValue(rs[k]))
  }

  function FileWritten(st: UeState, file: Result<seq<byte>>): (r: (UeState, Reply))
    ensures r.0.records == st.records && r.0.cdr == st.cdr
  {
    if file.Fail? then (st, ReplyTo(file.failure)) else (st.(file := Some(file.value)), Accepted)
  }

  // ---------------------------------------------------------------- create, update, release

  /** A new record is listed and becomes the current one of the session. */
  function Listed(st: UeState, session: string, r: RecordData): UeState {
    UeState(st.records + [r], st.cdr[session := |st.records|], st.file)
  }

  function Create(st: UeState, session: string, opening: Opening, localNumber: int, us: seq<Usage>): UeState {
    Listed(st, session, AddUsage(Opened(opening, localNumber), us))
  }

  /** The two lengths that decide about the split. */
  function SplitLengths(r: RecordData, us: seq<Usage>): Result<nat> {
    var record :- RecordOctets(r);
    var list :- if us == [] then Ok([]) else ListOctets(us);
    Ok(|record| + |list|)
  }

  /** A record that would be too long is left as it is, and a copy with an empty list takes its place. */
  function SplitRecord(st: UeState, session: string): UeState
    requires Consistent(st) && session in st.cdr
  {
    Listed(st, session, Current(st, session).(usage := Some([])))
  }

  /** The current record of the session is changed. */
  function OnCurrent(st: UeState, session: string, r: RecordData): (st': UeState)
    requires Consistent(st) && session in st.cdr
    ensures Consistent(st') && st'.cdr == st.cdr
  {
    st.(records := st.records[st.cdr[session] := r])
  }

  function Current(st: UeState, session: string): RecordData
    requires Consistent(st) && session in st.cdr
  {
    st.records[st.cdr[session]]
  }

  /** The state in which an update leaves the records before anything is closed or written. */
  function WithUsage(st: UeState, session: string, us: seq<Usage>, length: nat): (st': UeState)
    requires Consistent(st) && session in st.cdr
    ensures Consistent(st') && session in st'.cdr
  {
    var st1 := if length > 65535 then SplitRecord(st, session) else st;
    OnCurrent(st1, session, AddUsage(Current(st1, session), us))
  }

  /** A partial record is closed, dumped alone, and opened again with the next number after the stored one. */
  function Partial(st: UeState, session: string, stored: int64): (r: (UeState, Reply))
    requires Consistent(st) && session in st.cdr
    ensures Consistent(r.0) && r.0.cdr == st.cdr
  {
    var closed := OnCurrent(st, session, Current(st, session).(cause := 1));
    var dumped := FileWritten(closed, DumpRecords([Current(closed, session)]));
    if dumped.1 != Accepted then dumped
    else (OnCurrent(dumped.0, session, Current(dumped.0, session).(sequenceNumber := Some(I64(stored + 1)))), Accepted)
  }

  function Update(st: UeState, session: string, us: seq<Usage>, partial: bool, stored: int64): (UeState, Reply)
    requires Consistent(st)
  {
    if session !in st.cdr then (st, NotFound)
    else
      var length := SplitLengths(Current(st, session), us);
      if length.Fail? then (st, ReplyTo(length.failure))
      else
        var st1 := WithUsage(st, session, us, length.value);
        var st2 := if partial then Partial(st1, session, stored) else (st1, Accepted);
        if st2.1 != Accepted then st2 else FileWritten(st2.0, DumpRecords(st2.0.records))
  }

  function Release(st: UeState, session: string, us: seq<Usage>): (UeState, Reply)
    requires Consistent(st)
  {
    if session !in st.cdr then (st, BadRequest)
    else
      var st1 := OnCurrent(st, session, AddUsage(Current(st, session), us).(cause := 0));
      FileWritten(st1, DumpRecords([Current(st1, session)]))
  }

  lemma OnCurrentTwice(st: UeState, session: string, r: RecordData, r': RecordData)
    requires Consistent(st) && session in st.cdr
    ensures Current(OnCurrent(st, session, r), session) == r
    ensures OnCurrent(OnCurrent(st, session, r), session, r') == OnCurrent(st, session, r')
  {
  }

  // ---------------------------------------------------------------- runs

  datatype Operation =
    | Creating(session: string, opening: Opening, localNumber: int, reports: seq<UsageReport>)
    | Updating(session: string, reports: seq<UsageReport>, partial: bool)
    | Releasing(session: string, reports: seq<UsageReport>)

  /** The numbers stored per session are never written, so every one reads as zero. */
  function Perform(st: UeState, op: Operation): UeState
    requires Consistent(st)
  {
    match op
    case Creating(s, opening, n, rs) => Create(st, s, opening, n, AllConverted(rs))
    case Updating(s, rs, partial) => Update(st, s, AllConverted(rs), partial, 0).0
    case Releasing(s, rs) => Release(st, s, AllConverted(rs)).0
  }

  /** The usage an operation hands to a record: an update that cannot be marshalled, or an unknown session,
      hands over none. */
  function Taken(st: UeState, op: Operation): seq<Usage>
    requires Consistent(st)
  {
    match op
    case Creating(s, _, _, rs) => AllConverted(rs)
    case Updating(s, rs, _) =>
      if s in st.cdr && SplitLengths(Current(st, s), AllConverted(rs)).Ok? then AllConverted(rs) else []
    case Releasing(s, rs) => if s in st.cdr then AllConverted(rs) else []
  }

  const EMPTY := UeState([], map[], None)

  function Run(ops: seq<Operation>): (st: UeState)
    ensures Consistent(st)
  {
    if ops == [] then EMPTY
    else
      var before := Run(ops[..|ops| - 1]);
      KeepsConsistent(before, ops[|ops| - 1]);
      Perform(before, ops[|ops| - 1])
  }

  lemma KeepsConsistent(st: UeState, op: Operation)
    requires Consistent(st)
    ensures Consistent(Perform(st, op)) && |st.records| <= |Perform(st, op).records| <= |st.records| + 1
  {
    hide SplitLengths, AddUsage, DumpRecords, AllConverted;
  }
}
