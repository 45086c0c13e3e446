/** Charging data requests as a whole: the reservation and the record handling, fed by one list of usage reports. */
module ChfProcessor {
  import opened Bytes
  import opened Results
  import opened Words
  import opened Charging
  import opened ReservationSteps
  import opened Reservation
  import opened ChfRecordTypes
  import opened ChfLifecycle
  import opened ChfLifecycleEffects
  import opened ChfRecords

  datatype SbiContainer = SbiContainer(
    indicator: Indicator, total: int32, uplink: int32, downlink: int32, serviceUnits: int32, localNumber: int32)

  /** One usage report of a request, with which of its peer requests are processed. */
  datatype MultipleUnitUsage = MultipleUnitUsage(
    ratingGroup: int32, upfId: seq<byte>, containers: seq<SbiContainer>, requested: Option<int32>, peers: Peers)

  /** What the reservation sees of a report, and what the record keeps of it. */
  function ToUnitUsage(m: MultipleUnitUsage): UnitUsage {
    UnitUsage(m.ratingGroup,
              seq(|m.containers|, k requires 0 <= k < |m.containers| => UsedUnit(m.containers[k].indicator, m.containers[k].total)),
              m.requested, m.peers)
  }

  function ToReport(m: MultipleUnitUsage): UsageReport {
    UsageReport(m.ratingGroup,
                seq(|m.containers|, k requires 0 <= k < |m.containers| =>
                  var c := m.containers[k]; ReportedContainer(c.total, c.uplink, c.downlink, c.serviceUnits, c.localNumber)),
                m.upfId)
  }

  function UnitUsages(ms: seq<MultipleUnitUsage>): seq<UnitUsage> {
    seq(|ms|, k requires 0 <= k < |ms| => ToUnitUsage(ms[k]))
  }

  function Reports(ms: seq<MultipleUnitUsage>): seq<UsageReport> {
    seq(|ms|, k requires 0 <= k < |ms| => ToReport(ms[k]))
  }

  // ---------------------------------------------------------------- what both make of a report

  /** The volume the online containers of a report add up to. */
  function TotalOnline(cs: seq<SbiContainer>): int {
    if cs == [] then 0 else (if cs[0].indicator == Indicator.Online then cs[0].total else 0) + TotalOnline(cs[1..])
  }

  predicate AnyOnline(cs: seq<SbiContainer>) { exists k :: 0 <= k < |cs| && cs[k].indicator == Indicator.Online }

  /** u is the report as the reservation sees it: the same group, request and peers, and each container's total volume. */
  predicate SeenAs(m: MultipleUnitUsage, u: UnitUsage) {
    && u.ratingGroup == m.ratingGroup && u.requested == m.requested && u.peers == m.peers && |u.used| == |m.containers|
    && forall k :: 0 <= k < |m.containers| ==>
         u.used[k].indicator == m.containers[k].indicator && u.used[k].totalVolume == m.containers[k].total
  }

  predicate AllSeenAs(ms: seq<MultipleUnitUsage>, us: seq<UnitUsage>) {
    |us| == |ms| && forall k :: 0 <= k < |ms| ==> SeenAs(ms[k], us[k])
  }

  /** The item holds each container's volumes, units and number. */
  predicate KeptAs(m: MultipleUnitUsage, item: Usage) {
    && item.ratingGroup == m.ratingGroup && item.upfId == m.upfId && |item.containers| == |m.containers|
    && forall k :: 0 <= k < |m.containers| ==>
         var c := m.containers[k];
         item.containers[k] == Container(c.total, c.uplink, c.downlink, c.serviceUnits, c.localNumber)
  }

  /** now is what was there before, or nothing of it, and then one item for every report, in order. */
  predicate Recorded(was: seq<Usage>, ms: seq<MultipleUnitUsage>, now: seq<Usage>, split: bool) {
    && |now| == (if split then 0 else |was|) + |ms|
    && (!split ==> now[..|was|] == was)
    && forall k :: 0 <= k < |ms| ==> KeptAs(ms[k], now[|now| - |ms| + k])
  }

  lemma {:induction false} SameVolume(cs: seq<SbiContainer>, used: seq<UsedUnit>)
    requires |used| == |cs|
    requires forall k :: 0 <= k < |cs| ==> used[k].indicator == cs[k].indicator && used[k].totalVolume == cs[k].total
    ensures Volume(used) == TotalOnline(cs)
    ensures OnlineUse(used) <==> AnyOnline(cs)
  {
    if cs != [] {
      SameVolume(cs[1..], used[1..]);
    }
  }

  /** One report is seen in one way. */
  lemma SeenOnce(ms: seq<MultipleUnitUsage>, us: seq<UnitUsage>)
    ensures AllSeenAs(ms, us) <==> us == UnitUsages(ms)
  {
    if AllSeenAs(ms, us) {
      forall k | 0 <= k < |ms| ensures us[k] == ToUnitUsage(ms[k]) {
        assert SeenAs(ms[k], us[k]);
        assert us[k].used == ToUnitUsage(ms[k]).used;
      }
    }
  }

  lemma ItemsKept(was: seq<Usage>, ms: seq<MultipleUnitUsage>, split: bool)
    ensures Recorded(was, ms, (if split then [] else was) + AllConverted(Reports(ms)), split)
  {
    var us := AllConverted(Reports(ms));
    forall k | 0 <= k < |ms| ensures KeptAs(ms[k], us[k]) {
      assert us[k] == Convert(ToReport(ms[k])) && Converted(ToReport(ms[k]), us[k]);
    }
  }

  /** The only report of a request on its group, which requests nothing and whose peers answer. */
  predicate LastUsage(ms: seq<MultipleUnitUsage>, k: nat) {
    && k < |ms| && (forall j :: 0 <= j < |ms| && j != k ==> ms[j].ratingGroup != ms[k].ratingGroup)
    && AnyOnline(ms[k].containers) && ms[k].requested.None? && ms[k].peers.rating && ms[k].peers.account
  }

  /** The group once the given volume is settled. */
  function SettledAt(g: Group, total: int): Group
    requires g.account.Some?
  {
    var price := total * g.account.value.unitCost % 0x1_0000_0000;
    Group(Some(Account(I64(g.account.value.quota + g.reserved - price), g.account.value.unitCost)), true, 0,
          if price < g.reserved then Reserve else Debit, g.unitCost, (g.requestNum + 1) % 0x1_0000_0000)
  }

  lemma SettledByContainers(g: Group, ms: seq<MultipleUnitUsage>, k: nat, triggers: seq<Trigger>)
    requires g.account.Some? && LastUsage(ms, k)
    ensures RunReports(g, UnitUsages(ms), ms[k].ratingGroup, triggers).group == SettledAt(g, TotalOnline(ms[k].containers))
  {
    hide RunReports, AfterUsage, OnlineUse, AnyOnline, TotalOnline, Volume, I64;
    var us := UnitUsages(ms);
    SameVolume(ms[k].containers, us[k].used);
    OnlyReport(g, us, k, triggers);
    UsageSettled(g, us[k], triggers);
  }

  /** What a request does to one group: the run over its reports as the reservation sees them. If the last usage of the
      group is reported alone, that settles at the price of its own containers. */
  ghost predicate Served(g: Group, g': Group, ms: seq<MultipleUnitUsage>, rg: int32, triggers: seq<Trigger>) {
    && (forall us :: AllSeenAs(ms, us) ==> g' == RunReports(g, us, rg, triggers).group)
    && g' == RunReports(g, UnitUsages(ms), rg, triggers).group
    && forall k: nat :: LastUsage(ms, k) && ms[k].ratingGroup == rg && g.account.Some? ==>
         g' == SettledAt(g, TotalOnline(ms[k].containers))
  }

  lemma RunServes(ms: seq<MultipleUnitUsage>, triggers: seq<Trigger>)
    ensures forall g: Group, rg: int32 :: Served(g, RunReports(g, UnitUsages(ms), rg, triggers).group, ms, rg, triggers)
  {
    hide RunReports, SettledAt, TotalOnline, AnyOnline, AllSeenAs, UnitUsages;
    forall us | AllSeenAs(ms, us) ensures us == UnitUsages(ms) { SeenOnce(ms, us); }
    forall g: Group, k: nat | LastUsage(ms, k) && g.account.Some?
      ensures RunReports(g, UnitUsages(ms), ms[k].ratingGroup, triggers).group == SettledAt(g, TotalOnline(ms[k].containers))
    {
      SettledByContainers(g, ms, k, triggers);
    }
  }

  // ---------------------------------------------------------------- the requests

  /** An update of an unknown session touches nothing. Otherwise the reservation is made first, and its decision about a
      partial record goes into the record handling; a record that is then refused does not take the reservation back. */
  method ChargingDataUpdate(
    ue: ChfUe, records: UeRecords, store: AccountStore, context: CHFContext,
    session: string, usages: seq<MultipleUnitUsage>, triggers: seq<Trigger>) returns (reply: Reply, answers: seq<Granted>)
    requires ue.NoDuplicates() && records.Valid()
    modifies ue, store, records, records.Bodies()
    ensures ue.NoDuplicates() && records.Valid()
    ensures reply == NotFound <==> session !in old(records.cdr)
    ensures reply == NotFound ==>
              records.State() == old(records.State()) && forall rg: int32 :: ue.GroupOf(rg, store) == old(ue.GroupOf(rg, store))
    ensures reply != NotFound ==>
              && (records.State(), reply) == old(Update(records.State(), session, AllConverted(Reports(usages)),
                                                        PartialAfterAll(UnitUsages(usages), triggers), context.StoredNumber(session)))
              && forall rg: int32 :: Served(old(ue.GroupOf(rg, store)), ue.GroupOf(rg, store), usages, rg, triggers)
    ensures reply == Accepted ==>
              && session in records.cdr
              && Recorded(Items(old(Current(records.State(), session))), usages, Items(Current(records.State(), session)),
                          |records.records| > old(|records.records|))
    ensures reply != Accepted ==> answers == []
    ensures reply == Accepted ==>
              forall rg: int32 :: AnswersFor(answers, rg) == RunReports(old(ue.GroupOf(rg, store)), UnitUsages(usages), rg, triggers).answers
  {
    hide Update, RunReports, AnswersFor, PartialAfterAll, AllConverted, UnitUsages, Reports, Consistent, RecordValue, ChfUe.NoDuplicates;
    hide Served, Recorded, Items;
    answers := [];
    if session !in records.cdr {
      return NotFound, answers;
    }
    NeverUnknown(records.State(), session, AllConverted(Reports(usages)), PartialAfterAll(UnitUsages(usages), triggers), context.StoredNumber(session));
    ghost var before := records.State();
    var partialRecord;
    answers, partialRecord := ue.SessionChargingReservation(UnitUsages(usages), triggers, store);
    assert records.State() == before;
    reply := records.ChargingDataUpdate(session, Reports(usages), partialRecord, context);
    UpdateRecords(before, session, usages, partialRecord, context.StoredNumber(session));
    RunServes(usages, triggers);
    if reply != Accepted {
      answers := [];
    }
  }

  /** A release makes the reservation in any case, also for an unknown session, whose records it leaves alone. */
  method ChargingDataRelease(
    ue: ChfUe, records: UeRecords, store: AccountStore,
    session: string, usages: seq<MultipleUnitUsage>, triggers: seq<Trigger>) returns (reply: Reply)
    requires ue.NoDuplicates() && records.Valid()
    modifies ue, store, records, records.Bodies()
    ensures ue.NoDuplicates() && records.Valid()
    ensures (records.State(), reply) == old(Release(records.State(), session, AllConverted(Reports(usages))))
    ensures forall rg: int32 :: Served(old(ue.GroupOf(rg, store)), ue.GroupOf(rg, store), usages, rg, triggers)
    ensures session in old(records.cdr) ==>
              && session in records.cdr
              && Recorded(Items(old(Current(records.State(), session))), usages, Items(Current(records.State(), session)), false)
  {
    hide Release, UnitUsages, Reports, RunReports, AnswersFor, PartialAfterAll, AllConverted, Consistent, RecordValue, ChfUe.NoDuplicates;
    hide Served, Recorded, Items;
    ghost var before := records.State();
    var _, _ := ue.SessionChargingReservation(UnitUsages(usages), triggers, store);
    assert records.State() == before;
    reply := records.ChargingDataRelease(session, Reports(usages));
    if session in old(records.cdr) {
      ReleaseRecords(before, session, usages);
    }
    RunServes(usages, triggers);
  }

  /** An accepted update has recorded every report, in the record it found or in the one that took over. */
  lemma UpdateRecords(st: UeState, session: string, ms: seq<MultipleUnitUsage>, partial: bool, stored: int64)
    requires Consistent(st) && session in st.cdr
    ensures var (st', reply) := Update(st, session, AllConverted(Reports(ms)), partial, stored);
            reply == Accepted ==>
              && Consistent(st') && session in st'.cdr
              && Recorded(Items(Current(st, session)), ms, Items(Current(st', session)), |st'.records| > |st.records|)
  {
    var us := AllConverted(Reports(ms));
    hide SplitLengths, Partial, WithUsage, DumpRecords, AllConverted, Reports, Recorded, Items;
    if Update(st, session, us, partial, stored).1 == Accepted {
      var split := SplitLengths(Current(st, session), us).value > 65535;
      UpdateTouches(st, session, us, partial, stored);
      hide Update;
      assert [] + us == us;
      ItemsKept(Items(Current(st, session)), ms, split);
    }
  }

  lemma ReleaseRecords(st: UeState, session: string, ms: seq<MultipleUnitUsage>)
    requires Consistent(st) && session in st.cdr
    ensures var st' := Release(st, session, AllConverted(Reports(ms))).0;
            Consistent(st') && session in st'.cdr && Recorded(Items(Current(st, session)), ms, Items(Current(st', session)), false)
  {
    hide AllConverted, Reports, Recorded, Items, Release;
    ReleaseWrites(st, session, AllConverted(Reports(ms)));
    StillConsistent(st, Release(st, session, AllConverted(Reports(ms))).0, session);
    ItemsKept(Items(Current(st, session)), ms, false);
  }

  /** A known session is never reported as unknown. */
  lemma NeverUnknown(st: UeState, session: string, us: seq<Usage>, partial: bool, stored: int64)
    requires Consistent(st) && session in st.cdr
    ensures Update(st, session, us, partial, stored).1 != NotFound
  {
    hide SplitLengths, DumpRecords, AddUsage;
  }
}
