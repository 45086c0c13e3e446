/** The usage of a charging session, across all the records it was split over, is what was reported, in order. */
module ChfSessionOrder {
  import opened Bytes
  import opened Results
  import opened Words
  import opened ChfRecordTypes
  import opened ChfLifecycle
  import opened ChfLifecycleLaws

  /** The usage in the records of one session, in the order of the records. */
  function UsageFor(owners: seq<string>, rs: seq<RecordData>, session: string): seq<Usage>
    requires |owners| == |rs|
  {
    if rs == [] then []
    else
      var n := |rs| - 1;
      UsageFor(owners[..n], rs[..n], session) + if owners[n] == session then Items(rs[n]) else []
  }

  /** Each session points at its own last record. */
  predicate PointsAtLast(st: UeState, owners: seq<string>) {
    && Consistent(st) && |owners| == |st.records|
    && forall s :: s in st.cdr ==> owners[st.cdr[s]] == s && forall k :: st.cdr[s] < k < |owners| ==> owners[k] != s
  }

  lemma UsageForAdded(owners: seq<string>, rs: seq<RecordData>, owner: string, r: RecordData, session: string)
    requires |owners| == |rs|
    ensures UsageFor(owners + [owner], rs + [r], session) == UsageFor(owners, rs, session) + if owner == session then Items(r) else []
  {
    assert (owners + [owner])[..|rs|] == owners && (rs + [r])[..|rs|] == rs;
  }

  /** Appending usage to the last record of a session appends it to the session's usage and to no other's. */
  lemma {:induction false} UsageForChanged(owners: seq<string>, rs: seq<RecordData>, k: nat, r: RecordData, us: seq<Usage>, session: string)
    requires |owners| == |rs| && k < |rs| && Items(r) == Items(rs[k]) + us
    requires forall j :: k < j < |rs| ==> owners[j] != owners[k]
    ensures UsageFor(owners, rs[k := r], session) == UsageFor(owners, rs, session) + if owners[k] == session then us else []
  {
    hide Items;
    var n := |rs| - 1;
    if k < n {
      UsageForChanged(owners[..n], rs[..n], k, r, us, session);
      assert rs[k := r][..n] == rs[..n][k := r];
      LastStays(UsageFor(owners[..n], rs[..n], session), if owners[n] == session then Items(rs[n]) else [], us, owners[k] == session);
    } else {
      assert rs[k := r][..n] == rs[..n];
    }
  }

  lemma LastStays(a: seq<Usage>, last: seq<Usage>, us: seq<Usage>, own: bool)
    requires own ==> last == []
    ensures (a + if own then us else []) + last == a + last + if own then us else []
  {
  }

  /** Usage us went to the session and to no other. */
  ghost predicate Received(st: UeState, owners: seq<string>, st': UeState, owners': seq<string>, session: string, us: seq<Usage>) {
    && PointsAtLast(st, owners) && PointsAtLast(st', owners')
    && forall s :: UsageFor(owners', st'.records, s) == UsageFor(owners, st.records, s) + if s == session then us else []
  }

  lemma CurrentReceives(st: UeState, owners: seq<string>, session: string, r: RecordData, us: seq<Usage>)
    requires PointsAtLast(st, owners) && session in st.cdr && Items(r) == Items(Current(st, session)) + us
    ensures Received(st, owners, OnCurrent(st, session, r), owners, session, us)
  {
    hide Items, UsageFor;
    forall s
      ensures UsageFor(owners, OnCurrent(st, session, r).records, s) == UsageFor(owners, st.records, s) + if s == session then us else []
    {
      UsageForChanged(owners, st.records, st.cdr[session], r, us, s);
    }
  }

  /** A new record becomes the current one of its session. */
  lemma NewReceives(st: UeState, owners: seq<string>, session: string, r: RecordData)
    requires PointsAtLast(st, owners)
    ensures Received(st, owners, Listed(st, session, r), owners + [session], session, Items(r))
  {
    hide Items, UsageFor;
    var st' := Listed(st, session, r);
    forall s
      ensures UsageFor(owners + [session], st'.records, s) == UsageFor(owners, st.records, s) + if s == session then Items(r) else []
    {
      UsageForAdded(owners, st.records, session, r, s);
    }
  }

  lemma ReceivedTwice(st: UeState, o: seq<string>, st1: UeState, o1: seq<string>, st2: UeState, o2: seq<string>, session: string, us: seq<Usage>, vs: seq<Usage>)
    requires Received(st, o, st1, o1, session, us) && Received(st1, o1, st2, o2, session, vs)
    ensures Received(st, o, st2, o2, session, us + vs)
  {
    hide UsageFor;
    forall s
      ensures UsageFor(o2, st2.records, s) == UsageFor(o, st.records, s) + if s == session then us + vs else []
    {
      assert UsageFor(o2, st2.records, s) == UsageFor(o1, st1.records, s) + if s == session then vs else [];
      assert UsageFor(o1, st1.records, s) == UsageFor(o, st.records, s) + if s == session then us else [];
    }
  }

  lemma ReceivedPoints(st: UeState, o: seq<string>, st1: UeState, o1: seq<string>, session: string, us: seq<Usage>)
    requires Received(st, o, st1, o1, session, us)
    ensures PointsAtLast(st, o) && PointsAtLast(st1, o1)
  {
  }

  /** Writing the file hands over nothing. */
  lemma FileReceives(st: UeState, owners: seq<string>, file: Result<seq<byte>>, session: string)
    requires PointsAtLast(st, owners)
    ensures Received(st, owners, FileWritten(st, file).0, owners, session, [])
  {
    hide UsageFor;
  }

  /** Records added by an operation belong to its session. */
  function OwnersAfter(st: UeState, owners: seq<string>, op: Operation): seq<string>
    requires Consistent(st)
  {
    owners + if |Perform(st, op).records| > |st.records| then [op.session] else []
  }

  lemma WithUsageReceives(st: UeState, owners: seq<string>, session: string, us: seq<Usage>, length: nat)
    requires PointsAtLast(st, owners) && session in st.cdr
    ensures Received(st, owners, WithUsage(st, session, us, length), owners + if length > 65535 then [session] else [], session, us)
  {
    var st1 := if length > 65535 then SplitRecord(st, session) else st;
    var o1 := owners + if length > 65535 then [session] else [];
    if length > 65535 {
      NewReceives(st, owners, session, Current(st, session).(usage := Some([])));
    } else {
      assert o1 == owners;
    }
    ItemsAfter(Current(st1, session), us);
    hide AddUsage, Items, Received;
    CurrentReceives(st1, o1, session, AddUsage(Current(st1, session), us), us);
    if length > 65535 {
      ReceivedTwice(st, owners, st1, o1, WithUsage(st, session, us, length), o1, session, [], us);
      assert [] + us == us;
    }
  }

  lemma PartialReceives(st: UeState, owners: seq<string>, session: string, stored: int64)
    requires PointsAtLast(st, owners) && session in st.cdr
    ensures Received(st, owners, Partial(st, session, stored).0, owners, session, [])
  {
    hide DumpRecords, UsageFor;
    var closed := OnCurrent(st, session, Current(st, session).(cause := 1));
    assert forall r: RecordData :: Items(r) + [] == Items(r);
    CurrentReceives(st, owners, session, Current(st, session).(cause := 1), []);
    var dumped := FileWritten(closed, DumpRecords([Current(closed, session)]));
    if dumped.1 == Accepted {
      CurrentReceives(dumped.0, owners, session, Current(dumped.0, session).(sequenceNumber := Some(I64(stored + 1))), []);
    }
  }

  lemma UpdateReceives(st: UeState, owners: seq<string>, session: string, us: seq<Usage>, partial: bool, stored: int64)
    requires PointsAtLast(st, owners) && Consistent(st) && session in st.cdr && SplitLengths(Current(st, session), us).Ok?
    ensures var length := SplitLengths(Current(st, session), us).value;
            Received(st, owners, Update(st, session, us, partial, stored).0, owners + if length > 65535 then [session] else [], session, us)
  {
    var length := SplitLengths(Current(st, session), us).value;
    var o1 := owners + if length > 65535 then [session] else [];
    hide UsageFor, DumpRecords, WithUsage, Partial, SplitLengths, Received, PointsAtLast;
    WithUsageReceives(st, owners, session, us, length);
    var st1 := WithUsage(st, session, us, length);
    ReceivedPoints(st, owners, st1, o1, session, us);
    assert us + [] == us;
    var st2 := if partial then Partial(st1, session, stored) else (st1, Accepted);
    if partial {
      PartialReceives(st1, o1, session, stored);
      ReceivedTwice(st, owners, st1, o1, st2.0, o1, session, us, []);
    }
    ReceivedPoints(st, owners, st2.0, o1, session, us);
    FileReceives(st2.0, o1, DumpRecords(st2.0.records), session);
    ReceivedTwice(st, owners, st2.0, o1, FileWritten(st2.0, DumpRecords(st2.0.records)).0, o1, session, us, []);
  }

  lemma UpdateSize(st: UeState, session: string, us: seq<Usage>, partial: bool, stored: int64)
    requires Consistent(st) && session in st.cdr && SplitLengths(Current(st, session), us).Ok?
    ensures |Update(st, session, us, partial, stored).0.records| == |st.records| + if SplitLengths(Current(st, session), us).value > 65535 then 1 else 0
  {
    hide DumpRecords, SplitLengths, AddUsage;
  }

  lemma ReleaseReceives(st: UeState, owners: seq<string>, session: string, us: seq<Usage>)
    requires PointsAtLast(st, owners) && session in st.cdr
    ensures Received(st, owners, Release(st, session, us).0, owners, session, us)
  {
    hide DumpRecords, UsageFor, AddUsage;
    ItemsAfter(Current(st, session), us);
    CurrentReceives(st, owners, session, AddUsage(Current(st, session), us).(cause := 0), us);
  }

  lemma CreateReceives(st: UeState, owners: seq<string>, session: string, opening: Opening, n: int, us: seq<Usage>)
    requires PointsAtLast(st, owners)
    ensures Received(st, owners, Create(st, session, opening, n, us), owners + [session], session, us)
  {
    ItemsAfter(Opened(opening, n), us);
    assert Items(Opened(opening, n)) + us == us;
    hide AddUsage, UsageFor;
    NewReceives(st, owners, session, AddUsage(Opened(opening, n), us));
  }

  lemma NothingReceived(st: UeState, owners: seq<string>, session: string)
    requires PointsAtLast(st, owners)
    ensures Received(st, owners, st, owners, session, [])
  {
    hide UsageFor;
  }

  lemma RefusedUpdate(st: UeState, session: string, us: seq<Usage>, partial: bool, stored: int64)
    requires Consistent(st) && (session in st.cdr ==> SplitLengths(Current(st, session), us).Fail?)
    ensures Update(st, session, us, partial, stored).0 == st
  {
    hide SplitLengths;
  }

  /** An operation hands the usage it takes to its own session. */
  lemma OperationReceives(st: UeState, owners: seq<string>, op: Operation)
    requires PointsAtLast(st, owners)
    ensures Received(st, owners, Perform(st, op), OwnersAfter(st, owners, op), op.session, Taken(st, op))
  {
    hide Update, Release, SplitLengths, Received, AllConverted, AddUsage;
    var us := AllConverted(op.reports);
    assert owners + [] == owners;
    match op
    case Creating(s, opening, n, _) =>
      CreateReceives(st, owners, s, opening, n, us);
    case Updating(s, _, partial) =>
      if s in st.cdr && SplitLengths(Current(st, s), us).Ok? {
        UpdateSize(st, s, us, partial, 0);
        UpdateReceives(st, owners, s, us, partial, 0);
      } else {
        RefusedUpdate(st, s, us, partial, 0);
        NothingReceived(st, owners, s);
      }
    case Releasing(s, _) =>
      if s in st.cdr {
        ReleaseSize(st, s, us);
        ReleaseReceives(st, owners, s, us);
      } else {
        UnknownRelease(st, s, us);
        NothingReceived(st, owners, s);
      }
  }

  lemma ReleaseSize(st: UeState, session: string, us: seq<Usage>)
    requires Consistent(st)
    ensures |Release(st, session, us).0.records| == |st.records|
  {
    hide DumpRecords, AddUsage;
  }

  lemma UnknownRelease(st: UeState, session: string, us: seq<Usage>)
    requires Consistent(st) && session !in st.cdr
    ensures Release(st, session, us) == (st, BadRequest)
  {
  }

  // ---------------------------------------------------------------- runs

  /** The session each record of a run was opened for. */
  function Owners(ops: seq<Operation>): seq<string> {
    if ops == [] then [] else OwnersAfter(Run(ops[..|ops| - 1]), Owners(ops[..|ops| - 1]), ops[|ops| - 1])
  }

  /** The usage taken for one session during a run, in order. */
  function TakenFor(ops: seq<Operation>, session: string): seq<Usage> {
    if ops == [] then []
    else
      var op := ops[|ops| - 1];
      TakenFor(ops[..|ops| - 1], session) + if op.session == session then Taken(Run(ops[..|ops| - 1]), op) else []
  }

  lemma {:induction false} RunPoints(ops: seq<Operation>)
    ensures PointsAtLast(Run(ops), Owners(ops))
    ensures forall s :: UsageFor(Owners(ops), Run(ops).records, s) == TakenFor(ops, s)
  {
    hide Perform, Taken, OwnersAfter;
    if ops != [] {
      var init := ops[..|ops| - 1];
      RunPoints(init);
      OperationReceives(Run(init), Owners(init), ops[|ops| - 1]);
    }
  }

  /** Over every run: each session points at its own last record, and the usage in its records, in the order of the
      records, is exactly the usage taken for it, in the order it was reported. */
  lemma SessionUsageInOrder(ops: seq<Operation>, session: string)
    ensures PointsAtLast(Run(ops), Owners(ops))
    ensures UsageFor(Owners(ops), Run(ops).records, session) == TakenFor(ops, session)
  {
    RunPoints(ops);
  }
}
