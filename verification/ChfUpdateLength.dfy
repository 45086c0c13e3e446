/** The exact length of a record after any accepted update, and when the 16-bit length in its CDR header is exact. */
module ChfUpdateLength {
  import opened Results
  import opened Words
  import opened BerHeader
  import opened BerTypes
  import opened BerMarshal
  import opened BerRoundTrip
  import opened BerMemberwise
  import opened ChfRecordTypes
  import opened SplitBound
  import opened ChfRecordLaws
  import opened ChfLifecycle
  import opened ChfLifecycleEffects

  // ---------------------------------------------------------------- replaced fields

  /** A record that differs in one field is encoded if that field is, and grows by the difference. */
  lemma ReplacedField(r: RecordData, r': RecordData, k: nat, v: Value)
    requires k < |RECORD_FIELDS| && RecordFields(r') == RecordFields(r)[k := v]
    requires RecordOctets(r).Ok? && FieldBuilds(RECORD_FIELDS[k], v)
    ensures RecordOctets(r').Ok?
    ensures RecordContent(r') + FieldSize(RECORD_FIELDS[k], RecordFields(r)[k]) == RecordContent(r) + FieldSize(RECORD_FIELDS[k], v)
  {
    hide RecordFields, FieldBuilds, FieldSize, SumSizes, RecordValue, Marshal;
    RecordSize(r);
    RecordSize(r');
    SumUpdated(RECORD_FIELDS, RecordFields(r), k, v);
  }

  /** The copy a split makes. */
  function Emptied(r: RecordData): RecordData { r.(usage := Some([])) }

  lemma EmptiedField(r: RecordData)
    ensures RecordFields(Emptied(r)) == RecordFields(r)[USAGE_AT := UsageList([])]
  {
    hide UsageList;
  }

  lemma EmptiedEncodes(r: RecordData)
    requires RecordOctets(r).Ok?
    ensures RecordOctets(Emptied(r)).Ok?
  {
    hide RecordFields, UsageList, FieldSize, RecordOctets, RecordContent, ItemOctets, FieldBuilds;
    EmptiedField(r);
    NoItems();
    ListFieldSize([]);
    ReplacedField(r, Emptied(r), USAGE_AT, UsageList([]));
  }

  /** After a split the new record is the emptied one with the whole list in place of an empty one. */
  lemma SplitContent(r: RecordData, us: seq<Usage>)
    requires RecordOctets(r).Ok? && ListOctets(us).Ok?
    ensures RecordOctets(WithMore(Emptied(r), us)).Ok?
    ensures RecordContent(WithMore(Emptied(r), us)) == RecordContent(Emptied(r)) - 2 + |ListOctets(us).value|
  {
    hide RecordOctets, ListOctets, RecordContent, ItemOctets, ItemsSize, TlvSize;
    EmptiedEncodes(r);
    UpdatedLength(Emptied(r), us);
    NoItems();
    assert Items(Emptied(r)) + us == us;
    ListSize(us);
    SmallTlv(0);
  }

  // ---------------------------------------------------------------- partial records

  const CAUSE_AT := 8
  const NUMBER_AT := 7

  lemma ClosedFields(r: RecordData)
    ensures RecordFields(r.(cause := 1)) == RecordFields(r)[CAUSE_AT := VWrap(VInt(1))]
    ensures RecordFields(r.(sequenceNumber := Some(1))) == RecordFields(r)[NUMBER_AT := VPtr(VInt(1))]
  {
    hide UsageList;
  }

  lemma ClosingSizes(r: RecordData)
    requires ClosedPlainly(r)
    ensures FieldSize(RECORD_FIELDS[CAUSE_AT], RecordFields(r)[CAUSE_AT]) == 3
    ensures FieldSize(RECORD_FIELDS[NUMBER_AT], RecordFields(r)[NUMBER_AT]) == if r.sequenceNumber.Some? then 3 else 0
  {
    hide FieldSize, UsageList;
    SmallIntSize(r.cause, Tag(9));
    if r.sequenceNumber.Some? {
      NumberSize();
    } else {
      AbsentSize(RECORD_FIELDS[NUMBER_AT], RecordFields(r)[NUMBER_AT]);
    }
  }

  lemma NumberSize()
    ensures FieldSize(RECORD_FIELDS[NUMBER_AT], VPtr(VInt(1))) == 3
    ensures FieldSize(RECORD_FIELDS[CAUSE_AT], VWrap(VInt(1))) == 3
    ensures FieldBuilds(RECORD_FIELDS[NUMBER_AT], VPtr(VInt(1))) && FieldBuilds(RECORD_FIELDS[CAUSE_AT], VWrap(VInt(1)))
  {
    ScalarFieldSize(SInt, OptionalTag(8), VInt(1));
    SmallIntSize(1, Tag(9));
    assert |Octs(Contents(SInt, VInt(1)).value)| == 1;
    SmallTlv(1);
    hide FieldSize, TlvSize, Octs, Finish;
  }

  /** Closing and numbering a record costs three octets the first time. */
  lemma PartialContent(r: RecordData)
    requires RecordOctets(r).Ok? && ClosedPlainly(r)
    ensures var r' := r.(cause := 1, sequenceNumber := Some(1));
            RecordOctets(r').Ok? && RecordContent(r') == RecordContent(r) + if r.sequenceNumber.Some? then 0 else 3
  {
    hide RecordFields, FieldSize, FieldBuilds, RecordOctets, RecordContent;
    NumberSize();
    ClosedFields(r);
    ClosingSizes(r);
    var r1 := r.(cause := 1);
    ReplacedField(r, r1, CAUSE_AT, VWrap(VInt(1)));
    ClosedFields(r1);
    ClosingSizes(r1);
    ReplacedField(r1, r1.(sequenceNumber := Some(1)), NUMBER_AT, VPtr(VInt(1)));
  }

  // ---------------------------------------------------------------- every update

  /** The record an update works on, with the usage in it. */
  function UpdatedRecord(r: RecordData, us: seq<Usage>, split: bool): RecordData { AddUsage(if split then Emptied(r) else r, us) }

  /** Its contents octets, from the sizes known before. */
  function ContentAfter(r: RecordData, us: seq<Usage>, split: bool): int
    requires us != [] ==> ListOctets(us).Ok?
  {
    if us == [] then RecordContent(if split then Emptied(r) else r)
    else if split then RecordContent(Emptied(r)) - 2 + |ListOctets(us).value|
    else RecordContent(r) + FieldGrowth(r, us)
  }

  lemma UpdatedRecordContent(r: RecordData, us: seq<Usage>, split: bool)
    requires RecordOctets(r).Ok? && (us != [] ==> ListOctets(us).Ok?)
    ensures RecordOctets(UpdatedRecord(r, us, split)).Ok?
    ensures RecordContent(UpdatedRecord(r, us, split)) == ContentAfter(r, us, split)
  {
    hide RecordOctets, ListOctets, RecordContent, FieldGrowth, WithMore, Emptied;
    if split {
      EmptiedEncodes(r);
    }
    if us != [] {
      if split { SplitContent(r, us); } else { UpdatedLength(r, us); }
    }
  }

  /** What an accepted update leaves as current record. */
  lemma CurrentAfterUpdate(st: UeState, session: string, us: seq<Usage>, partial: bool)
    requires Consistent(st) && session in st.cdr && SplitLengths(Current(st, session), us).Ok?
    requires Update(st, session, us, partial, 0).1 == Accepted
    ensures var st' := Update(st, session, us, partial, 0).0;
            var r := UpdatedRecord(Current(st, session), us, SplitLengths(Current(st, session), us).value > 65535);
            && Consistent(st') && session in st'.cdr
            && Current(st', session) == if partial then r.(cause := 1, sequenceNumber := Some(1)) else r
  {
    hide SplitLengths, DumpRecords, WithUsage, Partial, FileWritten, UpdatedRecord;
    var length := SplitLengths(Current(st, session), us).value;
    var st1 := WithUsage(st, session, us, length);
    assert Update(st, session, us, partial, 0) == Finished(st1, session, partial);
    FinishedCurrent(st1, session, partial);
    UsageInCurrent(st, session, us, length);
  }

  /** What an update does after the usage is in its record. */
  function Finished(st: UeState, session: string, partial: bool): (UeState, Reply)
    requires Consistent(st) && session in st.cdr
  {
    var st2 := if partial then Partial(st, session, 0) else (st, Accepted);
    if st2.1 != Accepted then st2 else FileWritten(st2.0, DumpRecords(st2.0.records))
  }

  lemma FinishedCurrent(st: UeState, session: string, partial: bool)
    requires Consistent(st) && session in st.cdr && Finished(st, session, partial).1 == Accepted
    ensures var st' := Finished(st, session, partial).0;
            && Consistent(st') && session in st'.cdr
            && Current(st', session) ==
               if partial then Current(st, session).(cause := 1, sequenceNumber := Some(1)) else Current(st, session)
  {
    hide DumpRecords, Partial, FileWritten;
    if partial {
      if Partial(st, session, 0).1 == Accepted {
        PartialWrites(st, session, 0);
        FileKeepsCurrent(Partial(st, session, 0).0, DumpRecords(Partial(st, session, 0).0.records), session);
      }
    } else {
      FileKeepsCurrent(st, DumpRecords(st.records), session);
    }
  }

  lemma UsageInCurrent(st: UeState, session: string, us: seq<Usage>, length: nat)
    requires Consistent(st) && session in st.cdr
    ensures Current(WithUsage(st, session, us, length), session) == UpdatedRecord(Current(st, session), us, length > 65535)
  {
    hide AddUsage;
  }

  /** The contents octets of the record after an update, partial or not, split or not. */
  function UpdateContent(r: RecordData, us: seq<Usage>, split: bool, partial: bool): int
    requires us != [] ==> ListOctets(us).Ok?
  {
    ContentAfter(r, us, split) + if partial && r.sequenceNumber.None? then 3 else 0
  }

  lemma SplitLengthsOk(r: RecordData, us: seq<Usage>)
    ensures SplitLengths(r, us).Ok? <==> RecordOctets(r).Ok? && (us != [] ==> ListOctets(us).Ok?)
    ensures SplitLengths(r, us).Ok? ==>
              SplitLengths(r, us).value == |RecordOctets(r).value| + if us == [] then 0 else |ListOctets(us).value|
  {
    hide RecordOctets, ListOctets;
  }

  /**
   * Every accepted update of a record the charging function has made: its length is its tag, its length octets and
   * contents known beforehand, and the 16-bit length in the CDR header is exact if and only if that fits.
   */
  lemma UpdateLength(st: UeState, session: string, us: seq<Usage>, partial: bool)
    requires AllClosedPlainly(st) && session in st.cdr && SplitLengths(Current(st, session), us).Ok?
    requires Update(st, session, us, partial, 0).1 == Accepted
    ensures us != [] ==> ListOctets(us).Ok?
    ensures var was, st' := Current(st, session), Update(st, session, us, partial, 0).0;
            var c := UpdateContent(was, us, SplitLengths(was, us).value > 65535, partial);
            && c >= 0 && Consistent(st') && session in st'.cdr
            && var octets := RecordOctets(Current(st', session));
            && octets.Ok? && |octets.value| == 3 + |LenOctets(c)| + c
            && (U16(|octets.value|) == |octets.value| <==> 3 + |LenOctets(c)| + c <= 65535)
  {
    hide RecordOctets, ListOctets, RecordContent, SplitLengths, Update, UpdatedRecord, ContentAfter, LenOctets;
    var was := Current(st, session);
    var split := SplitLengths(was, us).value > 65535;
    SplitLengthsOk(was, us);
    CurrentAfterUpdate(st, session, us, partial);
    UpdatedRecordContent(was, us, split);
    UpdatedClosing(was, us, split);
    var r := UpdatedRecord(was, us, split);
    if partial {
      PartialContent(r);
    }
    RecordLength(if partial then r.(cause := 1, sequenceNumber := Some(1)) else r);
    U16Exact(|RecordOctets(if partial then r.(cause := 1, sequenceNumber := Some(1)) else r).value|);
  }

  lemma U16Exact(n: nat)
    ensures U16(n) == n <==> n <= 65535
  {
  }

  lemma UpdatedClosing(r: RecordData, us: seq<Usage>, split: bool)
    ensures var r' := UpdatedRecord(r, us, split); r'.sequenceNumber == r.sequenceNumber && (ClosedPlainly(r) ==> ClosedPlainly(r'))
  {
    UsageKeepsClosing(if split then Emptied(r) else r, us);
    hide AddUsage;
  }

  // ---------------------------------------------------------------- release

  lemma NormalClosing(r: RecordData)
    requires RecordOctets(r).Ok? && ClosedPlainly(r)
    ensures RecordOctets(r.(cause := 0)).Ok? && RecordContent(r.(cause := 0)) == RecordContent(r)
  {
    hide RecordFields, FieldSize, FieldBuilds, RecordOctets, RecordContent;
    ClosingSizes(r);
    NormalField(r);
    ReplacedField(r, r.(cause := 0), CAUSE_AT, VWrap(VInt(0)));
  }

  lemma NormalField(r: RecordData)
    ensures RecordFields(r.(cause := 0)) == RecordFields(r)[CAUSE_AT := VWrap(VInt(0))]
    ensures FieldSize(RECORD_FIELDS[CAUSE_AT], VWrap(VInt(0))) == 3 && FieldBuilds(RECORD_FIELDS[CAUSE_AT], VWrap(VInt(0)))
  {
    SmallIntSize(0, Tag(9));
    hide FieldSize, UsageList, Octs;
  }

  /** A release never splits: its record takes all of the last usage, and the 16-bit length is exact if and only if it
      still fits. */
  lemma ReleaseLength(st: UeState, session: string, us: seq<Usage>)
    requires AllClosedPlainly(st) && session in st.cdr && RecordOctets(Current(st, session)).Ok? && (us != [] ==> ListOctets(us).Ok?)
    ensures var was, st' := Current(st, session), Release(st, session, us).0;
            var c := ContentAfter(was, us, false);
            && c >= 0 && Consistent(st') && session in st'.cdr
            && var octets := RecordOctets(Current(st', session));
            && octets.Ok? && |octets.value| == 3 + |LenOctets(c)| + c
            && (U16(|octets.value|) == |octets.value| <==> 3 + |LenOctets(c)| + c <= 65535)
  {
    hide RecordOctets, ListOctets, RecordContent, UpdatedRecord, ContentAfter, LenOctets, AddUsage, DumpRecords, ClosedPlainly;
    var was := Current(st, session);
    var r := UpdatedRecord(was, us, false);
    UpdatedRecordContent(was, us, false);
    UpdatedClosing(was, us, false);
    NormalClosing(r);
    ReleasedRecord(st, session, us);
    RecordLength(r.(cause := 0));
    U16Exact(|RecordOctets(r.(cause := 0)).value|);
  }

  lemma ReleasedRecord(st: UeState, session: string, us: seq<Usage>)
    requires Consistent(st) && session in st.cdr
    ensures var st' := Release(st, session, us).0;
            Consistent(st') && session in st'.cdr && Current(st', session) == UpdatedRecord(Current(st, session), us, false).(cause := 0)
  {
    hide AddUsage, DumpRecords;
  }

  // ---------------------------------------------------------------- a split that does not help

  /** A usage item of 65499 octets of name splits a plain record, and the record that takes over is still too long. */
  lemma SplitStillTooLong()
    ensures var us := [LongUsage(65499)];
            && SplitLengths(PLAIN, us).Ok? && SplitLengths(PLAIN, us).value > 65535
            && RecordOctets(UpdatedRecord(PLAIN, us, true)).Ok?
            && |RecordOctets(UpdatedRecord(PLAIN, us, true)).value| > 65535
  {
    hide RecordOctets, ListOctets, RecordContent, SplitLengths, LongUsage, LenOctets;
    var us := [LongUsage(65499)];
    PlainLength();
    PlainContent();
    LongUsageSize(65499);
    SplitLengthsOk(PLAIN, us);
    UpdatedRecordContent(PLAIN, us, true);
    EmptiedPlain();
    RecordLength(UpdatedRecord(PLAIN, us, true));
  }

  lemma EmptiedPlain()
    ensures RecordContent(Emptied(PLAIN)) == 36
  {
    hide RecordFields, FieldSize, RecordOctets, RecordContent, UsageList, ItemsSize, TlvSize, ItemOctets, FieldBuilds;
    PlainLength();
    PlainContent();
    EmptiedField(PLAIN);
    NoItems();
    ListFieldSize([]);
    SmallTlv(0);
    PlainListAbsent();
    AbsentSize(RECORD_FIELDS[USAGE_AT], RecordFields(PLAIN)[USAGE_AT]);
    ReplacedField(PLAIN, Emptied(PLAIN), USAGE_AT, UsageList([]));
  }

  lemma PlainListAbsent()
    ensures Absent(RECORD_FIELDS[USAGE_AT], RecordFields(PLAIN)[USAGE_AT])
  {
  }
}
