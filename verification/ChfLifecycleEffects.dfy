/** What an operation leaves alone, how long records become, and what the file holds afterwards. */
module ChfLifecycleEffects {
  import opened Bytes
  import opened Results
  import opened Words
  import opened BerMarshal
  import opened BerUnmarshal
  import opened BerRoundTrip
  import opened CdrFileCodec
  import opened ChfRecordTypes
  import opened SplitBound
  import opened ChfRecordLaws
  import opened CdrDump
  import opened ChfLifecycle
  import opened ChfLifecycleLaws

  // ---------------------------------------------------------------- one record changes

  /** Nothing but the current record of the session is different. */
  predicate OnlyCurrentDiffers(st: UeState, st': UeState, session: string) {
    && Consistent(st) && session in st.cdr && st'.cdr == st.cdr && |st'.records| == |st.records|
    && forall k :: 0 <= k < |st.records| && k != st.cdr[session] ==> st'.records[k] == st.records[k]
  }

  lemma PartialOnlyCurrent(st: UeState, session: string, stored: int64)
    requires Consistent(st) && session in st.cdr
    ensures OnlyCurrentDiffers(st, Partial(st, session, stored).0, session)
    ensures Current(Partial(st, session, stored).0, session).opening == Current(st, session).opening
    ensures Current(Partial(st, session, stored).0, session).usage == Current(st, session).usage
    ensures Current(Partial(st, session, stored).0, session).localNumber == Current(st, session).localNumber
  {
    hide DumpRecords;
  }

  lemma UpdatePartialTouch(st1: UeState, session: string, partial: bool, stored: int64)
    requires Consistent(st1) && session in st1.cdr
    ensures var st2 := if partial then Partial(st1, session, stored) else (st1, Accepted);
            OnlyCurrentDiffers(st1, st2.0, session) && Current(st2.0, session).usage == Current(st1, session).usage
  {
    hide Partial;
    PartialOnlyCurrent(st1, session, stored);
  }

  /** Usage goes to the current record, or to a new one that takes its place. */
  predicate UsageTo(st: UeState, st': UeState, session: string, us: seq<Usage>, split: bool)
    requires Consistent(st) && session in st.cdr
  {
    && Consistent(st') && session in st'.cdr
    && (!split ==> OnlyCurrentDiffers(st, st', session) && Items(Current(st', session)) == Items(Current(st, session)) + us)
    && (split ==> |st'.records| == |st.records| + 1 && st'.records[..|st.records|] == st.records
                  && st'.cdr == st.cdr[session := |st.records|] && Items(st'.records[|st.records|]) == us)
  }

  lemma WithUsageTouches(st: UeState, session: string, us: seq<Usage>, length: nat)
    requires Consistent(st) && session in st.cdr
    ensures UsageTo(st, WithUsage(st, session, us, length), session, us, length > 65535)
  {
    hide AddUsage, Items;
    var st0 := if length > 65535 then SplitRecord(st, session) else st;
    ItemsAfter(Current(st0, session), us);
    EmptyItems(Current(st, session));
    if length > 65535 {
      assert [] + us == us;
    }
  }

  lemma ThenTouches(st: UeState, st1: UeState, st2: UeState, session: string, us: seq<Usage>, split: bool)
    requires Consistent(st) && session in st.cdr && UsageTo(st, st1, session, us, split)
    requires OnlyCurrentDiffers(st1, st2, session) && Items(Current(st2, session)) == Items(Current(st1, session))
    ensures UsageTo(st, st2, session, us, split)
  {
    hide Items;
    if split {
      assert st2.records[..|st.records|] == st1.records[..|st.records|];
    }
  }

  lemma FileTouches(st: UeState, st1: UeState, file: Result<seq<byte>>, session: string)
    requires OnlyCurrentDiffers(st, st1, session)
    ensures OnlyCurrentDiffers(st, FileWritten(st1, file).0, session)
    ensures Current(FileWritten(st1, file).0, session) == Current(st1, session)
  {
  }

  /** An update that does not split changes the current record alone; one that does leaves all records as they
      were, and puts the new usage into a new record that the session points at from then on. */
  lemma UpdateTouches(st: UeState, session: string, us: seq<Usage>, partial: bool, stored: int64)
    requires Consistent(st) && session in st.cdr && SplitLengths(Current(st, session), us).Ok?
    ensures UsageTo(st, Update(st, session, us, partial, stored).0, session, us, SplitLengths(Current(st, session), us).value > 65535)
  {
    var length := SplitLengths(Current(st, session), us).value;
    hide SplitLengths, DumpRecords, WithUsage, Items, Partial, UsageTo, FileWritten, OnlyCurrentDiffers;
    var st1 := WithUsage(st, session, us, length);
    WithUsageTouches(st, session, us, length);
    UpdatePartialTouch(st1, session, partial, stored);
    var st2 := if partial then Partial(st1, session, stored) else (st1, Accepted);
    FileTouches(st1, st2.0, DumpRecords(st2.0.records), session);
    var st3 := Update(st, session, us, partial, stored).0;
    assert st3 == if st2.1 != Accepted then st2.0 else FileWritten(st2.0, DumpRecords(st2.0.records)).0;
    StillConsistent(st1, st3, session);
    SameUsageSameItems(Current(st2.0, session), Current(st1, session));
    ThenTouches(st, st1, st3, session, us, length > 65535);
  }

  lemma StillConsistent(st: UeState, st': UeState, session: string)
    requires OnlyCurrentDiffers(st, st', session)
    ensures Consistent(st') && session in st'.cdr
  {
  }

  lemma EmptyItems(r: RecordData)
    ensures Items(r.(usage := Some([]))) == []
  {
  }

  lemma SameUsageSameItems(r: RecordData, r': RecordData)
    requires r.usage == r'.usage
    ensures Items(r) == Items(r')
  {
  }

  // ---------------------------------------------------------------- how long records become

  /** After a plain update that was not split, the record is at most two octets longer than the sum that was compared,
      and its CDR length is exact if and only if it already had a list or the first list fits. */
  lemma PlainUpdateLength(st: UeState, session: string, us: seq<Usage>)
    requires Consistent(st) && session in st.cdr && us != []
    requires var lengths := SplitLengths(Current(st, session), us); lengths.Ok? && lengths.value <= 65535
    ensures RecordOctets(Current(st, session)).Ok? && ListOctets(us).Ok?
    ensures var was, st' := Current(st, session), Update(st, session, us, false, 0).0;
            && Consistent(st') && session in st'.cdr && Current(st', session) == WithMore(was, us)
            && var octets := RecordOctets(Current(st', session));
            && octets.Ok? && |octets.value| <= SplitLengths(was, us).value + 2 <= 65537
            && (U16(|octets.value|) == |octets.value| <==> was.usage.Some? || FirstUsageFits(was, us))
            && (RecordContent(was) >= 256 ==> U16(|octets.value|) == |octets.value|)
  {
    UnsplitBound(Current(st, session), us);
    UnsplitFits(Current(st, session), us);
    hide DumpRecords, RecordOctets, ListOctets, RecordContent, WithMore, FirstUsageFits;
  }

  // ---------------------------------------------------------------- closing causes and partial numbers

  /** Records are closed with cause 0 or 1, and a partial record, however often it is reopened, has number 1:
      the number is raised from the stored one, which is never written. */
  predicate ClosedPlainly(r: RecordData) { (r.cause == 0 || r.cause == 1) && (r.sequenceNumber == None || r.sequenceNumber == Some(1)) }

  predicate AllClosedPlainly(st: UeState) { Consistent(st) && forall k :: 0 <= k < |st.records| ==> ClosedPlainly(st.records[k]) }

  lemma UsageKeepsClosing(r: RecordData, us: seq<Usage>)
    ensures AddUsage(r, us).cause == r.cause && AddUsage(r, us).sequenceNumber == r.sequenceNumber
  {
  }

  lemma CurrentClosed(st: UeState, session: string, r: RecordData)
    requires AllClosedPlainly(st) && session in st.cdr && ClosedPlainly(r)
    ensures AllClosedPlainly(OnCurrent(st, session, r))
  {
    hide ClosedPlainly;
  }

  lemma WithUsageClosed(st: UeState, session: string, us: seq<Usage>, length: nat)
    requires AllClosedPlainly(st) && session in st.cdr
    ensures AllClosedPlainly(WithUsage(st, session, us, length))
  {
    hide AddUsage;
    var st1 := if length > 65535 then SplitRecord(st, session) else st;
    UsageKeepsClosing(Current(st1, session), us);
    CurrentClosed(st1, session, AddUsage(Current(st1, session), us));
  }

  lemma PartialClosed(st: UeState, session: string)
    requires AllClosedPlainly(st) && session in st.cdr
    ensures AllClosedPlainly(Partial(st, session, 0).0)
  {
    hide DumpRecords;
    var closed := OnCurrent(st, session, Current(st, session).(cause := 1));
    CurrentClosed(st, session, Current(st, session).(cause := 1));
    var dumped := FileWritten(closed, DumpRecords([Current(closed, session)]));
    if dumped.1 == Accepted {
      CurrentClosed(dumped.0, session, Current(dumped.0, session).(sequenceNumber := Some(1)));
    }
  }

  lemma UpdateClosed(st: UeState, session: string, us: seq<Usage>, partial: bool)
    requires AllClosedPlainly(st)
    ensures AllClosedPlainly(Update(st, session, us, partial, 0).0)
  {
    hide SplitLengths, DumpRecords, WithUsage, Partial, ClosedPlainly;
    if session in st.cdr && SplitLengths(Current(st, session), us).Ok? {
      var length := SplitLengths(Current(st, session), us).value;
      WithUsageClosed(st, session, us, length);
      PartialClosed(WithUsage(st, session, us, length), session);
    }
  }

  lemma ReleaseClosed(st: UeState, session: string, us: seq<Usage>)
    requires AllClosedPlainly(st)
    ensures AllClosedPlainly(Release(st, session, us).0)
  {
    hide DumpRecords, AddUsage;
    if session in st.cdr {
      UsageKeepsClosing(Current(st, session), us);
      CurrentClosed(st, session, AddUsage(Current(st, session), us).(cause := 0));
    }
  }

  lemma {:induction false} PartialNumbersStayOne(ops: seq<Operation>)
    ensures AllClosedPlainly(Run(ops))
  {
    hide Update, Release, AddUsage, AllConverted;
    if ops != [] {
      var st, op := Run(ops[..|ops| - 1]), ops[|ops| - 1];
      PartialNumbersStayOne(ops[..|ops| - 1]);
      match op
      case Creating(_, opening, n, rs) => UsageKeepsClosing(Opened(opening, n), AllConverted(rs));
      case Updating(s, rs, partial) => UpdateClosed(st, s, AllConverted(rs), partial);
      case Releasing(s, rs) => ReleaseClosed(st, s, AllConverted(rs));
    }
  }

  // ---------------------------------------------------------------- what closing and splitting write

  lemma PartialWrites(st: UeState, session: string, stored: int64)
    requires Consistent(st) && session in st.cdr && Partial(st, session, stored).1 == Accepted
    ensures Current(Partial(st, session, stored).0, session) ==
            Current(st, session).(cause := 1, sequenceNumber := Some(I64(stored + 1)))
  {
    hide DumpRecords;
  }

  lemma FileKeepsCurrent(st: UeState, file: Result<seq<byte>>, session: string)
    requires Consistent(st) && session in st.cdr
    ensures var st' := FileWritten(st, file).0; Consistent(st') && st'.cdr == st.cdr && Current(st', session) == Current(st, session)
  {
  }

  /** An accepted partial update leaves its record closed with cause 1 and numbered after the stored number; a split
      record has the opening and the local number of the one it takes over from. */
  lemma PartialUpdateWrites(st: UeState, session: string, us: seq<Usage>, stored: int64)
    requires Consistent(st) && session in st.cdr && Update(st, session, us, true, stored).1 == Accepted
    ensures var st' := Update(st, session, us, true, stored).0;
            && Consistent(st') && session in st'.cdr
            && var now, was := Current(st', session), Current(st, session);
            && now.cause == 1 && now.sequenceNumber == Some(I64(stored + 1))
            && now.opening == was.opening && now.localNumber == was.localNumber
  {
    hide SplitLengths, DumpRecords, WithUsage, Partial, FileWritten;
    var st1 := WithUsage(st, session, us, SplitLengths(Current(st, session), us).value);
    WithUsageKeepsOpening(st, session, us, SplitLengths(Current(st, session), us).value);
    var st2 := Partial(st1, session, stored);
    if st2.1 == Accepted {
      PartialWrites(st1, session, stored);
      FileKeepsCurrent(st2.0, DumpRecords(st2.0.records), session);
    }
  }

  lemma WithUsageKeepsOpening(st: UeState, session: string, us: seq<Usage>, length: nat)
    requires Consistent(st) && session in st.cdr
    ensures var now, was := Current(WithUsage(st, session, us, length), session), Current(st, session);
            now.opening == was.opening && now.localNumber == was.localNumber
  {
  }

  /** An accepted release closes the record with cause 0, with the usage appended and nothing else changed. */
  lemma ReleaseWrites(st: UeState, session: string, us: seq<Usage>)
    requires Consistent(st) && session in st.cdr
    ensures var st' := Release(st, session, us).0;
            && OnlyCurrentDiffers(st, st', session)
            && Current(st', session).cause == 0 && Items(Current(st', session)) == Items(Current(st, session)) + us
            && Current(st', session).opening == Current(st, session).opening
            && Current(st', session).sequenceNumber == Current(st, session).sequenceNumber
            && Current(st', session).localNumber == Current(st, session).localNumber
  {
    hide DumpRecords;
    ItemsAfter(Current(st, session), us);
  }

  /** After any run, a release of a known session leaves its record closed normally with the last usage in place, and all
      other records, closed as they were, untouched. */
  lemma ReleasedRun(ops: seq<Operation>, session: string, reports: seq<UsageReport>)
    requires session in Run(ops).cdr
    ensures var st, st' := Run(ops), Run(ops + [Releasing(session, reports)]);
            && OnlyCurrentDiffers(st, st', session) && AllClosedPlainly(st')
            && Current(st', session).cause == 0
            && Items(Current(st', session)) == Items(Current(st, session)) + AllConverted(reports)
            && AllItems(st'.records) == AllTaken(ops) + multiset(AllConverted(reports))
  {
    hide AddUsage, DumpRecords, AllConverted, Items, AllItems, Release, Update;
    var all := ops + [Releasing(session, reports)];
    assert all[..|all| - 1] == ops;
    ReleaseWrites(Run(ops), session, AllConverted(reports));
    PartialNumbersStayOne(all);
    UsageConserved(all);
  }

  // ---------------------------------------------------------------- what the file holds

  /** Records that are read back from a file: readable, and short enough for the CDR header. */
  predicate Storable(r: RecordData) { ReadableRecord(r) && RecordOctets(r).Ok? && |RecordOctets(r).value| <= 65535 }

  /** The file decodes to exactly these records, in order. */
  predicate Holds(file: seq<byte>, rs: seq<RecordData>) {
    var r := DecodeFile(file);
    r.Ok? && |r.value.cdrs| == |rs| && r.value.end == |file| &&
    forall k :: 0 <= k < |rs| ==> Unmarshal(CHF_RECORD, EXPLICIT_CHOICE, r.value.cdrs[k].bytes) == Ok(RecordValue(rs[k]))
  }

  predicate SmallFile(rs: seq<RecordData>) {
    var parts := AllRecordBytes(CHF_RECORD, EXPLICIT_CHOICE, RecordValues(rs));
    parts.Ok? ==> TotalSize(parts.value) < TWO_32
  }

  lemma StorableIsDumpable(r: RecordData)
    requires Storable(r)
    ensures Dumpable(CHF_RECORD, EXPLICIT_CHOICE, RecordValue(r))
  {
    hide ReadableRecord, Survives, RecordValue, Marshal;
    RecordSurvives(r);
  }

  /** Dumping storable records and decoding the file gives back the same records in the same order. */
  lemma DumpHolds(rs: seq<RecordData>)
    requires (forall k :: 0 <= k < |rs| ==> Storable(rs[k])) && SmallFile(rs)
    ensures DumpRecords(rs).Ok? && Holds(DumpRecords(rs).value, rs)
  {
    hide Storable, Dumpable, AllRecordBytes, DecodeFile, Unmarshal, RecordValue, Dumped, TotalSize;
    forall k | 0 <= k < |rs| ensures Dumpable(CHF_RECORD, EXPLICIT_CHOICE, RecordValues(rs)[k]) { StorableIsDumpable(rs[k]); }
    EndToEnd(CHF_RECORD, EXPLICIT_CHOICE, RecordValues(rs));
  }

  /** After an accepted update the file holds all records of the UE. */
  lemma UpdateFile(st: UeState, session: string, us: seq<Usage>, partial: bool, stored: int64)
    requires Consistent(st)
    requires var (st', reply) := Update(st, session, us, partial, stored);
             reply == Accepted && SmallFile(st'.records) && forall k :: 0 <= k < |st'.records| ==> Storable(st'.records[k])
    ensures var st' := Update(st, session, us, partial, stored).0; st'.file.Some? && Holds(st'.file.value, st'.records)
  {
    hide SplitLengths, WithUsage, Partial, DumpRecords, Storable, SmallFile, Holds;
    DumpHolds(Update(st, session, us, partial, stored).0.records);
  }

  /** Closing a partial record leaves a file of that record alone, as it was closed and before it is numbered anew. */
  lemma PartialFile(st: UeState, session: string, stored: int64)
    requires Consistent(st) && session in st.cdr && Partial(st, session, stored).1 == Accepted
    requires var closed := Current(st, session).(cause := 1); SmallFile([closed]) && Storable(closed)
    ensures var st', closed := Partial(st, session, stored).0, Current(st, session).(cause := 1);
            st'.file.Some? && Holds(st'.file.value, [closed])
  {
    hide DumpRecords, Storable, SmallFile, Holds;
    DumpHolds([Current(st, session).(cause := 1)]);
  }

  // ---------------------------------------------------------------- replies

  predicate MarshalPanics(r: RecordData) { Marshal(CHF_RECORD, EXPLICIT_CHOICE, RecordValue(r)) == Fail(Panic) }

  lemma DumpPanicsIff(rs: seq<RecordData>)
    ensures DumpRecords(rs).Fail? <==> exists k :: 0 <= k < |rs| && MarshalPanics(rs[k])
    ensures DumpRecords(rs).Fail? ==> DumpRecords(rs) == Fail(Panic)
  {
    hide Marshal, DumpFile, RecordValue, AllRecordBytes;
    DumpedParts(CHF_RECORD, EXPLICIT_CHOICE, RecordValues(rs));
    if k :| 0 <= k < |rs| && MarshalPanics(rs[k]) {
      assert RecordValues(rs)[k] == RecordValue(rs[k]);
    }
  }

  /** An update is answered "not found" for an unknown session, "bad request" where the record or the new usage is refused
      by the marshaller, and crashes where that panics; once the usage is in, only a record that panics stops it. */
  lemma UpdateReplies(st: UeState, session: string, us: seq<Usage>, partial: bool, stored: int64)
    requires Consistent(st)
    ensures var (st', reply) := Update(st, session, us, partial, stored);
            && (reply == NotFound <==> session !in st.cdr)
            && (session in st.cdr ==>
                  var record, list := RecordOctets(Current(st, session)), if us == [] then Ok([]) else ListOctets(us);
                  && (reply == BadRequest <==> record == Fail(Error) || (record.Ok? && list == Fail(Error)))
                  && (record == Fail(Panic) || (record.Ok? && list == Fail(Panic)) ==> reply == Crashed)
                  && (record.Ok? && list.Ok? && reply == Crashed ==> exists k :: 0 <= k < |st'.records| && MarshalPanics(st'.records[k]))
                  && (record.Ok? && list.Ok? && reply == Accepted ==> forall k :: 0 <= k < |st'.records| ==> !MarshalPanics(st'.records[k])))
  {
    hide RecordOctets, ListOctets, DumpRecords, WithUsage, MarshalPanics;
    if session in st.cdr && SplitLengths(Current(st, session), us).Ok? {
      var st1 := WithUsage(st, session, us, SplitLengths(Current(st, session), us).value);
      if partial {
        PartialReplies(st1, session, stored);
      }
      hide Partial;
      var st2 := if partial then Partial(st1, session, stored) else (st1, Accepted);
      DumpPanicsIff(st2.0.records);
    }
  }

  lemma PartialReplies(st: UeState, session: string, stored: int64)
    requires Consistent(st) && session in st.cdr
    ensures var (st', reply) := Partial(st, session, stored);
            && (reply == Accepted || reply == Crashed)
            && (reply == Crashed ==> exists k :: 0 <= k < |st'.records| && MarshalPanics(st'.records[k]))
  {
    hide DumpRecords, MarshalPanics;
    var closed := OnCurrent(st, session, Current(st, session).(cause := 1));
    DumpPanicsIff([Current(closed, session)]);
    if Partial(st, session, stored).1 == Crashed {
      var k :| 0 <= k < 1 && MarshalPanics([Current(closed, session)][k]);
      assert MarshalPanics(closed.records[st.cdr[session]]);
    }
  }

  /** A release is refused for an unknown session, and crashes exactly where its record panics the marshaller. */
  lemma ReleaseReplies(st: UeState, session: string, us: seq<Usage>)
    requires Consistent(st)
    ensures var (st', reply) := Release(st, session, us);
            && (reply == BadRequest <==> session !in st.cdr)
            && (session !in st.cdr ==> st' == st)
            && (session in st.cdr ==> Consistent(st') && st'.cdr == st.cdr && (reply == Crashed <==> MarshalPanics(Current(st', session))))
            && reply != NotFound
  {
    hide DumpRecords, MarshalPanics, AddUsage;
    if session in st.cdr {
      var st1 := OnCurrent(st, session, AddUsage(Current(st, session), us).(cause := 0));
      var dumped := [Current(st1, session)];
      DumpPanicsIff(dumped);
      assert dumped[0] == Current(st1, session);
    }
  }

  /** After an accepted release the file holds the released record alone. */
  lemma ReleaseFile(st: UeState, session: string, us: seq<Usage>)
    requires Consistent(st) && session in st.cdr
    requires var (st', reply) := Release(st, session, us);
             reply == Accepted && Consistent(st') && session in st'.cdr && SmallFile([Current(st', session)]) && Storable(Current(st', session))
    ensures var st' := Release(st, session, us).0; st'.file.Some? && Holds(st'.file.value, [Current(st', session)])
  {
    hide AddUsage, DumpRecords, Storable, SmallFile, Holds;
    DumpHolds([Current(Release(st, session, us).0, session)]);
  }
}
