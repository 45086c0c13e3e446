/** The mutable UE context and account store, and the nested loops of sessionChargingReservation over them. */
module Reservation {
  import opened Words
  import opened Results
  import opened Charging
  import opened ReservationSteps
  import opened Decimals

  /** The charging data collection of one subscriber, keyed by the unsigned rating group. */
  class AccountStore {
    var accounts: map<u32, Account>

    constructor (accounts: map<u32, Account>)
      ensures this.accounts == accounts
    {
      this.accounts := accounts;
    }

    function Find(rg: int32): Option<Account>
      reads this
    {
      if U32(rg) in accounts then Some(accounts[U32(rg)]) else None
    }

    /** The operator changes the unit cost of a rating group. */
    method Retariff(rg: int32, cost: u32)
      modifies this
      ensures Find(rg) == if old(Find(rg)).Some? then Some(old(Find(rg)).value.(unitCost := cost)) else None
      ensures forall other: int32 :: other != rg ==> Find(other) == old(Find(other))
    {
      if U32(rg) in accounts {
        KeysDiffer(rg);
        accounts := accounts[U32(rg) := accounts[U32(rg)].(unitCost := cost)];
      }
    }

    /** Serves a credit control request, if it arrives: the stored quota is read, changed and written back; the answer
        to a debit carries the remaining balance, where that is defined. */
    method HandleCCR(rg: int32, processed: bool, a: CcAction) returns (r: Option<CcAnswer>, remaining: Option<UnitValue>)
      modifies this
      ensures var before := old(Find(rg));
              var debit := Account1(before, processed, a);
              && (r.Some? <==> debit.Some?)
              && (debit.Some? ==> Find(rg) == Some(debit.value.0) && r.value == debit.value.1)
              && (r.Some? <==> processed && before.Some?)
              && (debit.None? ==> accounts == old(accounts))
              && remaining == if debit.Some? && !a.Refund? then RemainingBalance(debit.value.0.quota) else None
      ensures r.Some? ==>
                var before, asked := old(Find(rg)).value, I64(a.units);
                && (a.Refund? ==> Find(rg) == Some(Account(I64(before.quota + asked), before.unitCost)) && r.value == CcAnswer(0, false))
                && (a.TerminationDebit? ==> Find(rg) == Some(Account(I64(before.quota - asked), before.unitCost)) && r.value == CcAnswer(0, false))
                && (a.UpdateDebit? && asked <= before.quota ==>
                      Find(rg) == Some(Account(I64(before.quota - asked), before.unitCost)) && r.value == CcAnswer(a.units, false))
                && (a.UpdateDebit? && asked > before.quota ==>
                      Find(rg) == Some(Account(0, before.unitCost)) && r.value.terminate && I64(r.value.granted) == before.quota)
      ensures forall other: int32 :: other != rg ==> Find(other) == old(Find(other))
    {
      hide RemainingBalance;
      remaining := None;
      if !processed || U32(rg) !in accounts {
        return None, None;
      }
      var quota := accounts[U32(rg)].quota;
      var granted, terminate := 0, false;
      match a {
        case Refund(units) =>
          quota := I64(quota + I64(units));
        case UpdateDebit(units) =>
          var requestQuota := I64(units);
          if requestQuota > quota {
            terminate := true;
            requestQuota := quota;
          }
          granted := U64(requestQuota);
          quota := I64(quota - requestQuota);
          remaining := RemainingBalance(quota);
        case TerminationDebit(units) =>
          quota := I64(quota - I64(units));
          remaining := RemainingBalance(quota);
      }
      KeysDiffer(rg);
      WordsAgree(a.units, accounts[U32(rg)].quota);
      accounts := accounts[U32(rg) := accounts[U32(rg)].(quota := quota)];
      r := Some(CcAnswer(granted, terminate));
    }
  }

  lemma WordsAgree(units: u64, quota: int64)
    ensures U64(I64(units)) == units && I64(U64(quota)) == quota
  {
    U64OfI64(units);
    if quota < 0 {
      assert U64(quota) == quota + TWO_64;
    }
  }

  /** Different rating groups have different keys. */
  lemma KeysDiffer(rg: int32)
    ensures forall other: int32 :: other != rg ==> U32(other) != U32(rg)
  {
  }

  lemma RunReportsSnoc(us: seq<UnitUsage>, i: nat, triggers: seq<Trigger>)
    requires i < |us|
    ensures us[..i + 1][..i] == us[..i] && us[..i + 1][i] == us[i]
    ensures PartialAfterAll(us[..i + 1], triggers) == PartialAfter(PartialAfterAll(us[..i], triggers), us[i], triggers)
    ensures forall g, rg: int32 ::
              RunReports(g, us[..i + 1], rg, triggers) ==
              var before := RunReports(g, us[..i], rg, triggers);
              if us[i].ratingGroup != rg then before
              else var o := AfterUsage(before.group, us[i], triggers);
                   GroupRun(o.group, before.charged + o.charged, before.answers + if o.answer.Some? then [o.answer.value] else [])
  {
    hide AfterUsage, PartialAfter;
    assert us[..i + 1][..i] == us[..i];
  }

  lemma NothingScanned(used: seq<UsedUnit>)
    ensures !UnderCreditControl(used[..0]) && OnlineVolume(used[..0]) == 0 && used[..|used|] == used
  {
  }

  lemma OneMoreScanned(used: seq<UsedUnit>, i: nat)
    requires i < |used|
    ensures UnderCreditControl(used[..i + 1]) <==> UnderCreditControl(used[..i]) || used[i].indicator.Online?
    ensures OnlineVolume(used[..i + 1]) == U32(OnlineVolume(used[..i]) + if used[i].indicator.Online? then U32(used[i].totalVolume) else 0)
  {
    assert used[..i + 1][..i] == used[..i];
    if used[i].indicator.Online? {
      assert used[..i + 1][i].indicator.Online?;
    }
    if k :| 0 <= k < i && used[..i][k].indicator.Online? {
      assert used[..i + 1][k].indicator.Online?;
    }
  }

  lemma AnswersStart(us: seq<UnitUsage>, triggers: seq<Trigger>)
    ensures us[..0] == [] && !PartialAfterAll(us[..0], triggers)
    ensures forall rg: int32 :: AnswersFor([], rg) == []
    ensures forall g, rg: int32 :: RunReports(g, us[..0], rg, triggers) == GroupRun(g, 0, [])
  {
  }

  lemma AnswersForSnoc(answers: seq<Granted>, a: Granted)
    ensures forall rg: int32 :: AnswersFor(answers + [a], rg) == AnswersFor(answers, rg) + if a.ratingGroup == rg then [a] else []
  {
    assert (answers + [a])[..|answers|] == answers;
  }

  /** A reservation that goes ahead charges the price of the usage. */
  lemma ChargedIsUsed(g: Group, u: UnitUsage)
    requires u.requested.Some? && u.requested.value > 0
    ensures ReserveMore(g, u).charged == U32(OnlineVolume(u.used) * UnitCostSeen(g.account, u.peers.firstCost))
  {
    hide OnlineVolume, UnitCostSeen, Account1, RateReserve;
  }

  /** A report raises the request number by one if it is answered, and not otherwise. */
  lemma CountedOnce(g: Group, u: UnitUsage)
    ensures var o := InMode(g, u);
            o.group.requestNum == if o.answer.Some? then U32(g.requestNum + 1) else g.requestNum
  {
    hide RateReserve, RateDebit, HandleCcr, OnlineVolume;
  }

  lemma AnswerIsOwn(g: Group, u: UnitUsage, triggers: seq<Trigger>)
    ensures var o := AfterUsage(g, u, triggers); o.answer.Some? ==> o.answer.value.ratingGroup == u.ratingGroup
  {
    hide RateReserve, RateDebit, HandleCcr, OnlineVolume;
  }

  class ChfUe {
    var ratingGroups: seq<int32>
    var reservedQuota: map<int32, int64>
    var unitCost: map<int32, u32>
    var ratingType: map<int32, Mode>
    var acctRequestNum: map<int32, u32>

    constructor ()
      ensures ratingGroups == [] && forall rg: int32, store: AccountStore :: GroupOf(rg, store) == Group(store.Find(rg), false, 0, Unset, 0, 0)
    {
      ratingGroups := [];
      reservedQuota, unitCost, ratingType, acctRequestNum := map[], map[], map[], map[];
    }

    ghost predicate NoDuplicates()
      reads this
    {
      forall i, j :: 0 <= i < j < |ratingGroups| ==> ratingGroups[i] != ratingGroups[j]
    }

    /** A Go map read: absent keys read as zero. */
    static function Get<V>(m: map<int32, V>, rg: int32, zero: V): V { if rg in m then m[rg] else zero }

    /** Everything the UE context and the store hold for one rating group. */
    ghost function GroupOf(rg: int32, store: AccountStore): Group
      reads this, store
    {
      Group(store.Find(rg), rg in ratingGroups, Get(reservedQuota, rg, 0), Get(ratingType, rg, Unset),
            Get(unitCost, rg, 0), Get(acctRequestNum, rg, 0))
    }

    method FindRatingGroup(rg: int32) returns (found: bool)
      ensures found <==> rg in ratingGroups
    {
      for i := 0 to |ratingGroups|
        invariant rg !in ratingGroups[..i]
      {
        if ratingGroups[i] == rg {
          return true;
        }
      }
      found := false;
    }

    /** ue.RatingType[rg] = mode */
    method SetRatingType(rg: int32, mode: Mode, store: AccountStore)
      modifies this`ratingType
      ensures ratingType == old(ratingType)[rg := mode]
      ensures GroupOf(rg, store) == old(GroupOf(rg, store)).(mode := mode)
      ensures forall other: int32 :: other != rg ==> GroupOf(other, store) == old(GroupOf(other, store))
    {
      ratingType := ratingType[rg := mode];
    }

    /** A recharge puts the group back into reserve mode; nothing else changes. */
    method NotifyRecharge(rg: int32, store: AccountStore)
      modifies this`ratingType
      ensures GroupOf(rg, store) == old(GroupOf(rg, store)).(mode := Reserve)
      ensures forall other: int32 :: other != rg ==> GroupOf(other, store) == old(GroupOf(other, store))
    {
      SetRatingType(rg, Reserve, store);
    }

    /** A rating group seen for the first time starts in reserve mode. */
    method AddRatingGroup(rg: int32, store: AccountStore)
      requires NoDuplicates() && rg !in ratingGroups
      modifies this`ratingGroups, this`ratingType
      ensures NoDuplicates() && ratingGroups == old(ratingGroups) + [rg]
      ensures GroupOf(rg, store) == old(GroupOf(rg, store)).(known := true, mode := Reserve)
      ensures forall other: int32 :: other != rg ==> GroupOf(other, store) == old(GroupOf(other, store))
    {
      ratingGroups := ratingGroups + [rg];
      ratingType := ratingType[rg := Reserve];
    }

    /** ue.AcctRequestNum[rg]++ */
    method CountRequest(rg: int32, store: AccountStore)
      modifies this`acctRequestNum
      ensures GroupOf(rg, store) == old(GroupOf(rg, store)).(requestNum := U32(old(GroupOf(rg, store)).requestNum + 1))
      ensures forall other: int32 :: other != rg ==> GroupOf(other, store) == old(GroupOf(other, store))
    {
      var requestNum: int := Get(acctRequestNum, rg, 0);
      acctRequestNum := acctRequestNum[rg := U32(requestNum + 1)];
    }

    /** The loop over the used unit containers and, inside it, over the triggers of the request. */
    method ScanContainers(u: UnitUsage, triggers: seq<Trigger>, partial0: bool, store: AccountStore)
      returns (credit: bool, finalSeen: bool, total: u32, partial: bool)
      modifies this`ratingType
      ensures credit <==> UnderCreditControl(u.used)
      ensures finalSeen <==> credit && Final in triggers
      ensures total == OnlineVolume(u.used)
      ensures partial == if credit && triggers != [] then triggers[|triggers| - 1] != Final else partial0
      ensures GroupOf(u.ratingGroup, store) ==
              if finalSeen then old(GroupOf(u.ratingGroup, store)).(mode := Debit) else old(GroupOf(u.ratingGroup, store))
      ensures forall other: int32 :: other != u.ratingGroup ==> GroupOf(other, store) == old(GroupOf(other, store))
    {
      hide UnderCreditControl, OnlineVolume;
      NothingScanned(u.used);
      credit, finalSeen, total, partial := false, false, 0, partial0;
      var i := 0;
      while i < |u.used|
        invariant 0 <= i <= |u.used|
        invariant credit <==> UnderCreditControl(u.used[..i])
        invariant finalSeen <==> credit && Final in triggers
        invariant total == OnlineVolume(u.used[..i])
        invariant partial == if credit && triggers != [] then triggers[|triggers| - 1] != Final else partial0
        invariant ratingType == if finalSeen then old(ratingType)[u.ratingGroup := Debit] else old(ratingType)
      {
        OneMoreScanned(u.used, i);
        if u.used[i].indicator == Online {
          credit := true;
          var j := 0;
          while j < |triggers|
            invariant 0 <= j <= |triggers| && (j == 0 ==> partial == if credit && triggers != [] && UnderCreditControl(u.used[..i]) then triggers[|triggers| - 1] != Final else partial0)
            invariant j > 0 ==> partial == (triggers[j - 1] != Final)
            invariant finalSeen <==> Final in triggers[..j] || (UnderCreditControl(u.used[..i]) && Final in triggers)
            invariant ratingType == if finalSeen then old(ratingType)[u.ratingGroup := Debit] else old(ratingType)
          {
            partial := true;
            if triggers[j] == Final {
              finalSeen := true;
              ratingType := ratingType[u.ratingGroup := Debit];
              partial := false;
            }
            j := j + 1;
          }
          assert triggers[..j] == triggers;
          total := U32(total + U32(u.used[i].totalVolume));
        }
        i := i + 1;
      }
      assert u.used[..i] == u.used;
    }

    /** Asks the rating function for the unit cost; 1 if there is no answer. */
    method GetUnitCost(rg: int32, processed: bool, store: AccountStore) returns (cost: u32)
      ensures cost == UnitCostSeen(store.Find(rg), processed)
    {
      var sua := RateReserve(store.Find(rg), 0);
      cost := 1;
      if processed && sua.Some? {
        cost := sua.value.unitCost;
      }
    }

    /** The reserve branch: charge the usage, debit the account if the reservation is used up, grant units. */
    method ReserveBranch(u: UnitUsage, totalUsedUnit: u32, store: AccountStore) returns (answer: Option<Granted>, ghost charged: u32)
      requires totalUsedUnit == OnlineVolume(u.used) && Get(ratingType, u.ratingGroup, Unset) == Reserve
      modifies this`unitCost, this`reservedQuota, this`ratingType, store
      ensures var g := old(GroupOf(u.ratingGroup, store));
              var o := ReserveMore(g, u);
              GroupOf(u.ratingGroup, store) == o.group.(requestNum := g.requestNum) && answer == o.answer && charged == o.charged
      ensures forall other: int32 :: other != u.ratingGroup ==> GroupOf(other, store) == old(GroupOf(other, store))
    {
      hide RateReserve, HandleCcr, OnlineVolume, UnitCostSeen, Account1, Grant;
      var rg := u.ratingGroup;
      charged := 0;
      if u.requested.None? || u.requested.value <= 0 {
        return None, charged;
      }
      var cost := ChargeUsage(u, totalUsedUnit, store);
      var requestedQuota := U32(u.requested.value * cost);
      charged := U32(totalUsedUnit * cost);
      var terminate := false;
      if reservedQuota[rg] <= 0 {
        var acctDebitRsp := DebitAccount(u, requestedQuota, store);
        if acctDebitRsp.None? {
          return None, charged;
        }
        terminate := acctDebitRsp.value.terminate;
      }
      answer := GrantUnits(u, charged, requestedQuota, terminate, store);
      ChargedIsUsed(old(GroupOf(rg, store)), u);
    }

    /** Takes the price of the usage off the reservation, at the unit cost the rating function gives. */
    method ChargeUsage(u: UnitUsage, totalUsedUnit: u32, store: AccountStore) returns (cost: u32)
      modifies this`unitCost, this`reservedQuota
      ensures u.ratingGroup in reservedQuota
      ensures var g := old(GroupOf(u.ratingGroup, store));
              && cost == UnitCostSeen(g.account, u.peers.firstCost)
              && GroupOf(u.ratingGroup, store) == g.(unitCost := cost, reserved := I64(g.reserved - U32(totalUsedUnit * cost)))
      ensures forall other: int32 :: other != u.ratingGroup ==> GroupOf(other, store) == old(GroupOf(other, store))
    {
      var rg := u.ratingGroup;
      cost := GetUnitCost(rg, u.peers.firstCost, store);
      unitCost := unitCost[rg := cost];
      var usedQuota := U32(totalUsedUnit * cost);
      var reserved: int := Get(reservedQuota, rg, 0);
      reservedQuota := reservedQuota[rg := I64(reserved - usedQuota)];
    }

    /** Asks the account to cover what is missing and the requested quota, and adds what it grants. */
    method DebitAccount(u: UnitUsage, requestedQuota: u32, store: AccountStore) returns (r: Option<CcAnswer>)
      requires u.ratingGroup in reservedQuota
      modifies this`reservedQuota, this`ratingType, store
      ensures var g := old(GroupOf(u.ratingGroup, store));
              var debit := Account1(g.account, u.peers.account, UpdateDebit(U64(requestedQuota - g.reserved)));
              && (r.Some? <==> debit.Some?)
              && GroupOf(u.ratingGroup, store) == (if debit.None? then g
                   else g.(account := Some(debit.value.0), reserved := I64(g.reserved + I64(debit.value.1.granted)),
                           mode := if debit.value.1.terminate then Debit else g.mode))
              && (r.Some? ==> r.value == debit.value.1)
      ensures forall other: int32 :: other != u.ratingGroup ==> GroupOf(other, store) == old(GroupOf(other, store))
    {
      var rg := u.ratingGroup;
      var reserved: int := reservedQuota[rg];
      var rsp, _ := store.HandleCCR(rg, u.peers.account, UpdateDebit(U64(requestedQuota - reserved)));
      r := rsp;
      if r.Some? {
        reservedQuota := reservedQuota[rg := I64(reserved + I64(r.value.granted))];
        if r.value.terminate {
          ratingType := ratingType[rg := Debit];
        }
      }
    }

    /** Asks the rating function what the requested quota buys. */
    method GrantUnits(u: UnitUsage, ghost used: u32, requestedQuota: u32, terminate: bool, store: AccountStore) returns (answer: Option<Granted>)
      requires u.requested.Some? && u.requested.value > 0
      modifies this`unitCost
      ensures var g := old(GroupOf(u.ratingGroup, store));
              var o := Grant(g, u, used, requestedQuota, terminate);
              GroupOf(u.ratingGroup, store) == o.group.(requestNum := g.requestNum) && answer == o.answer
      ensures forall other: int32 :: other != u.ratingGroup ==> GroupOf(other, store) == old(GroupOf(other, store))
    {
      var rg := u.ratingGroup;
      var sua := RateReserve(store.Find(rg), requestedQuota);
      if !u.peers.rating || sua.None? {
        return None;
      }
      var cost := GetUnitCost(rg, u.peers.secondCost, store);
      unitCost := unitCost[rg := cost];
      var requestedTotalVolume: u32 := u.requested.value;
      var grantedUnit := sua.value.allowedUnits;
      if !(grantedUnit < requestedTotalVolume) {
        grantedUnit := requestedTotalVolume;
      }
      answer := Some(Granted(rg, grantedUnit, terminate));
    }

    /** The debit branch: price the usage, then refund or debit the difference to the reservation. */
    method DebitBranch(u: UnitUsage, totalUsedUnit: u32, store: AccountStore) returns (answer: Option<Granted>, ghost charged: u32)
      requires totalUsedUnit == OnlineVolume(u.used)
      modifies this`reservedQuota, this`ratingType, store
      ensures var g := old(GroupOf(u.ratingGroup, store));
              var o := Settle(g, u);
              GroupOf(u.ratingGroup, store) == o.group.(requestNum := g.requestNum) && answer == o.answer && charged == o.charged
      ensures forall other: int32 :: other != u.ratingGroup ==> GroupOf(other, store) == old(GroupOf(other, store))
    {
      hide HandleCcr, OnlineVolume;
      var rg := u.ratingGroup;
      charged := 0;
      var sua := RateDebit(store.Find(rg), totalUsedUnit);
      if !u.peers.rating {
        return None, charged;
      }
      var reserved: int := Get(reservedQuota, rg, 0);
      var action;
      if sua.price < reserved {
        var reservedRemained := reserved - sua.price;
        action := Refund(U64(reservedRemained));
        ratingType := ratingType[rg := Reserve];
      } else {
        U64OfI64(sua.price - reserved);
        action := TerminationDebit(U64(I64(sua.price - reserved)));
      }
      var rsp, _ := store.HandleCCR(rg, u.peers.account, action);
      if rsp.None? {
        return None, charged;
      }
      reservedQuota := reservedQuota[rg := 0];
      charged := sua.price;
      answer := Some(Granted(rg, 0, false));
    }

    /** One turn of the outer loop. */
    method HandleReport(u: UnitUsage, triggers: seq<Trigger>, partial0: bool, store: AccountStore)
      returns (answer: Option<Granted>, partial: bool, ghost charged: u32)
      requires NoDuplicates()
      modifies this, store
      ensures NoDuplicates() && ratingGroups == if u.ratingGroup in old(ratingGroups) then old(ratingGroups) else old(ratingGroups) + [u.ratingGroup]
      ensures var o := AfterUsage(old(GroupOf(u.ratingGroup, store)), u, triggers);
              GroupOf(u.ratingGroup, store) == o.group && answer == o.answer && charged == o.charged
      ensures partial == PartialAfter(partial0, u, triggers)
      ensures forall other: int32 :: other != u.ratingGroup ==> GroupOf(other, store) == old(GroupOf(other, store))
    {
      hide InMode, OnlineVolume, UnderCreditControl;
      var rg := u.ratingGroup;
      charged := 0;
      var found := FindRatingGroup(rg);
      if !found {
        AddRatingGroup(rg, store);
      }
      var credit, finalSeen, total;
      credit, finalSeen, total, partial := ScanContainers(u, triggers, partial0, store);
      if !credit {
        return None, partial, charged;
      }
      if u.requested.None? {
        SetRatingType(rg, Debit, store);
        partial := false;
      } else if finalSeen && u.requested.value > 0 {
        SetRatingType(rg, Reserve, store);
      }
      answer, charged := HandleInMode(u, total, store);
    }

    /** The switch over the mode of the group; a report that gets an answer is counted. */
    method HandleInMode(u: UnitUsage, total: u32, store: AccountStore) returns (answer: Option<Granted>, ghost charged: u32)
      requires total == OnlineVolume(u.used)
      modifies this`unitCost, this`reservedQuota, this`ratingType, this`acctRequestNum, store
      ensures var o := InMode(old(GroupOf(u.ratingGroup, store)), u);
              GroupOf(u.ratingGroup, store) == o.group && answer == o.answer && charged == o.charged
      ensures forall other: int32 :: other != u.ratingGroup ==> GroupOf(other, store) == old(GroupOf(other, store))
    {
      CountedOnce(old(GroupOf(u.ratingGroup, store)), u);
      hide ReserveMore, Settle, OnlineVolume;
      charged := 0;
      var mode := Get(ratingType, u.ratingGroup, Unset);
      if mode == Reserve {
        answer, charged := ReserveBranch(u, total, store);
      } else if mode == Debit {
        answer, charged := DebitBranch(u, total, store);
      } else {
        answer := Some(Granted(u.ratingGroup, 0, false));
      }
      if answer.Some? {
        CountRequest(u.ratingGroup, store);
      }
    }

    /**
     * Handles the reports of a request in order. Every rating group ends as if only its own reports had
     * been handled, the answers of a group are its own, and no group is listed twice.
     */
    method SessionChargingReservation(us: seq<UnitUsage>, triggers: seq<Trigger>, store: AccountStore)
      returns (answers: seq<Granted>, partial: bool)
      requires NoDuplicates()
      modifies this, store
      ensures NoDuplicates() && old(ratingGroups) <= ratingGroups
      ensures forall rg: int32 :: GroupOf(rg, store) == RunReports(old(GroupOf(rg, store)), us, rg, triggers).group
      ensures forall rg: int32 :: AnswersFor(answers, rg) == RunReports(old(GroupOf(rg, store)), us, rg, triggers).answers
      ensures partial == PartialAfterAll(us, triggers)
      ensures InReportOrder(answers, us)
      ensures forall rg: int32 :: EndsLast(us, rg) && old(store.Find(rg)).Some? ==>
                && GroupOf(rg, store).reserved == 0 && GroupOf(rg, store).mode in {Reserve, Debit}
                && var own := AnswersFor(answers, rg); own != [] && own[|own| - 1] == Granted(rg, 0, false)
    {
      hide AfterUsage, PartialAfter, RunReports, PartialAfterAll, AnswersFor, EndsLast, InReportOrder;
      NoneYet(us);
      AnswersStart(us, triggers);
      answers := [];
      partial := false;
      var i := 0;
      while i < |us|
        invariant 0 <= i <= |us|
        invariant NoDuplicates() && old(ratingGroups) <= ratingGroups
        invariant forall rg: int32 :: GroupOf(rg, store) == RunReports(old(GroupOf(rg, store)), us[..i], rg, triggers).group
        invariant forall rg: int32 :: AnswersFor(answers, rg) == RunReports(old(GroupOf(rg, store)), us[..i], rg, triggers).answers
        invariant partial == PartialAfterAll(us[..i], triggers)
        invariant InReportOrder(answers, us[..i])
      {
        label Turn:
        var answer;
        ghost var charged;
        RunReportsSnoc(us, i, triggers);
        answer, partial, charged := HandleReport(us[i], triggers, partial, store);
        AnswerIsOwn(old@Turn(GroupOf(us[i].ratingGroup, store)), us[i], triggers);
        NextInOrder(answers, answer, us, i);
        if answer.Some? {
          AnswersForSnoc(answers, answer.value);
          answers := answers + [answer.value];
        } else {
          assert answers + [] == answers;
        }
        i := i + 1;
      }
      assert us[..i] == us;
      forall rg: int32 | EndsLast(us, rg) && old(store.Find(rg)).Some?
        ensures GroupOf(rg, store).reserved == 0 && GroupOf(rg, store).mode in {Reserve, Debit}
        ensures var own := AnswersFor(answers, rg); own != [] && own[|own| - 1] == Granted(rg, 0, false)
      {
        EndedLast(old(GroupOf(rg, store)), us, rg, triggers);
      }
    }
  }
}
