/** What every run of create, update and release keeps. */
module ChfLifecycleLaws {
  import opened Results
  import opened Words
  import opened ChfRecordTypes
  import opened ChfLifecycle

  // ---------------------------------------------------------------- usage is conserved

  /** All usage items of a list of records. */
  function AllItems(rs: seq<RecordData>): multiset<Usage> {
    if rs == [] then multiset{} else AllItems(rs[..|rs| - 1]) + multiset(Items(rs[|rs| - 1]))
  }

  /** Changing one record changes all items by the difference. */
  lemma {:induction false} AllItemsChanged(rs: seq<RecordData>, k: nat, r: RecordData)
    requires k < |rs|
    ensures AllItems(rs[k := r]) + multiset(Items(rs[k])) == AllItems(rs) + multiset(Items(r))
  {
    hide Items;
    var n := |rs| - 1;
    if k < n {
      AllItemsChanged(rs[..n], k, r);
      assert rs[k := r][..n] == rs[..n][k := r];
      AddBoth(AllItems(rs[..n][k := r]), AllItems(rs[..n]), multiset(Items(rs[k])), multiset(Items(r)), multiset(Items(rs[n])));
    } else {
      assert rs[k := r][..n] == rs[..n];
      assert AllItems(rs[k := r]) == AllItems(rs[..n]) + multiset(Items(r));
    }
  }

  lemma AddBoth(a: multiset<Usage>, b: multiset<Usage>, x: multiset<Usage>, y: multiset<Usage>, c: multiset<Usage>)
    requires a + x == b + y
    ensures a + c + x == b + c + y
  {
    assert forall u :: a[u] + x[u] == (a + x)[u] == b[u] + y[u];
  }

  lemma AllItemsAdded(rs: seq<RecordData>, r: RecordData)
    ensures AllItems(rs + [r]) == AllItems(rs) + multiset(Items(r))
  {
    assert (rs + [r])[..|rs|] == rs;
  }

  lemma ItemsAfter(r: RecordData, us: seq<Usage>)
    ensures Items(AddUsage(r, us)) == Items(r) + us
  {
  }

  lemma CurrentChanged(st: UeState, session: string, r: RecordData, us: seq<Usage>)
    requires Consistent(st) && session in st.cdr && Items(r) == Items(Current(st, session)) + us
    ensures AllItems(OnCurrent(st, session, r).records) == AllItems(st.records) + multiset(us)
  {
    hide Items;
    AllItemsChanged(st.records, st.cdr[session], r);
    SumOfParts(Items(Current(st, session)), us);
    Cancel(AllItems(OnCurrent(st, session, r).records), AllItems(st.records), multiset(Items(Current(st, session))), multiset(us));
  }

  lemma SumOfParts(a: seq<Usage>, b: seq<Usage>)
    ensures multiset(a + b) == multiset(a) + multiset(b)
  {
  }

  lemma Cancel(now: multiset<Usage>, was: multiset<Usage>, a: multiset<Usage>, b: multiset<Usage>)
    requires now + a == was + (a + b)
    ensures now == was + b
  {
    assert forall u :: now[u] + a[u] == (now + a)[u] == was[u] + a[u] + b[u];
  }

  lemma SplitAddsNothing(st: UeState, session: string)
    requires Consistent(st) && session in st.cdr
    ensures AllItems(SplitRecord(st, session).records) == AllItems(st.records)
  {
    AllItemsAdded(st.records, Current(st, session).(usage := Some([])));
    assert Items(Current(st, session).(usage := Some([]))) == [];
    hide AllItems;
    assert AllItems(st.records) + multiset([]) == AllItems(st.records);
  }

  lemma WithUsageAdds(st: UeState, session: string, us: seq<Usage>, length: nat)
    requires Consistent(st) && session in st.cdr
    ensures AllItems(WithUsage(st, session, us, length).records) == AllItems(st.records) + multiset(us)
  {
    hide AllItems, AddUsage, Items;
    var st1 := if length > 65535 then SplitRecord(st, session) else st;
    if length > 65535 { SplitAddsNothing(st, session); }
    ItemsAfter(Current(st1, session), us);
    CurrentChanged(st1, session, AddUsage(Current(st1, session), us), us);
  }

  lemma SameItems(st: UeState, session: string, r: RecordData)
    requires Consistent(st) && session in st.cdr && Items(r) == Items(Current(st, session))
    ensures AllItems(OnCurrent(st, session, r).records) == AllItems(st.records)
  {
    hide AllItems, Items;
    assert Items(r) + [] == Items(r);
    CurrentChanged(st, session, r, []);
    assert AllItems(st.records) + multiset([]) == AllItems(st.records);
  }

  lemma PartialKeepsItems(st: UeState, session: string, stored: int64)
    requires Consistent(st) && session in st.cdr
    ensures AllItems(Partial(st, session, stored).0.records) == AllItems(st.records)
  {
    hide AllItems, DumpRecords;
    var closed := OnCurrent(st, session, Current(st, session).(cause := 1));
    SameItems(st, session, Current(st, session).(cause := 1));
    var dumped := FileWritten(closed, DumpRecords([Current(closed, session)]));
    if dumped.1 == Accepted {
      SameItems(dumped.0, session, Current(dumped.0, session).(sequenceNumber := Some(I64(stored + 1))));
    }
  }

  lemma UpdateConserves(st: UeState, session: string, us: seq<Usage>, partial: bool, stored: int64)
    requires Consistent(st)
    ensures AllItems(Update(st, session, us, partial, stored).0.records) == AllItems(st.records)
            + if session in st.cdr && SplitLengths(Current(st, session), us).Ok? then multiset(us) else multiset{}
  {
    hide AllItems, WithUsage, Partial, SplitLengths, DumpRecords;
    if session in st.cdr && SplitLengths(Current(st, session), us).Ok? {
      var length := SplitLengths(Current(st, session), us).value;
      WithUsageAdds(st, session, us, length);
      PartialKeepsItems(WithUsage(st, session, us, length), session, stored);
    }
  }

  lemma ReleaseConserves(st: UeState, session: string, us: seq<Usage>)
    requires Consistent(st)
    ensures AllItems(Release(st, session, us).0.records) == AllItems(st.records) + if session in st.cdr then multiset(us) else multiset{}
  {
    hide AllItems, DumpRecords, AddUsage;
    if session in st.cdr {
      ItemsAfter(Current(st, session), us);
      CurrentChanged(st, session, AddUsage(Current(st, session), us).(cause := 0), us);
    }
  }

  lemma CreateConserves(st: UeState, session: string, opening: Opening, n: int, us: seq<Usage>)
    ensures AllItems(Create(st, session, opening, n, us).records) == AllItems(st.records) + multiset(us)
  {
    hide AllItems;
    ItemsAfter(Opened(opening, n), us);
    assert Items(Opened(opening, n)) + us == us;
    AllItemsAdded(st.records, AddUsage(Opened(opening, n), us));
  }

  /** One operation adds to the records exactly the usage it takes. */
  lemma OperationConserves(st: UeState, op: Operation)
    requires Consistent(st)
    ensures AllItems(Perform(st, op).records) == AllItems(st.records) + multiset(Taken(st, op))
  {
    hide AllItems, Update, Release, Create, SplitLengths, AllConverted;
    match op
    case Creating(s, opening, n, rs) => CreateConserves(st, s, opening, n, AllConverted(rs));
    case Updating(s, rs, partial) => UpdateConserves(st, s, AllConverted(rs), partial, 0);
    case Releasing(s, rs) => ReleaseConserves(st, s, AllConverted(rs));
  }

  /** All usage taken during a run. */
  function AllTaken(ops: seq<Operation>): multiset<Usage> {
    if ops == [] then multiset{}
    else AllTaken(ops[..|ops| - 1]) + multiset(Taken(Run(ops[..|ops| - 1]), ops[|ops| - 1]))
  }

  /** Over every run, the usage in all records of the UE is exactly the usage taken: none is lost or doubled by
      splitting, closing, reopening or releasing. */
  lemma {:induction false} UsageConserved(ops: seq<Operation>)
    ensures AllItems(Run(ops).records) == AllTaken(ops)
  {
    hide Perform, Taken;
    if ops != [] {
      UsageConserved(ops[..|ops| - 1]);
      KeepsConsistent(Run(ops[..|ops| - 1]), ops[|ops| - 1]);
      OperationConserves(Run(ops[..|ops| - 1]), ops[|ops| - 1]);
    }
  }
}
