/** What one usage report does to its rating group, case by case and in plain numbers. */
module ReservationSteps {
  import opened Words
  import opened Results
  import opened Charging
  import opened ReservationLaws
  import opened ReservationExact

  /** A container under online charging is among those reported. */
  predicate OnlineUse(used: seq<UsedUnit>) { exists k :: 0 <= k < |used| && used[k].indicator == Indicator.Online }

  /** The volume of the online containers, before it is cut to 32 bits. */
  function Volume(used: seq<UsedUnit>): int {
    if used == [] then 0 else (if used[0].indicator == Indicator.Online then used[0].totalVolume else 0) + Volume(used[1..])
  }

  /** The 32-bit price of that volume. */
  function PriceOf(used: seq<UsedUnit>, cost: u32): nat { Volume(used) * cost % 0x1_0000_0000 }

  /** The report ends the reservation of its group: it requests nothing, or no volume under FINAL, or finds the group in
      debit mode. */
  predicate Ends(g: Group, u: UnitUsage, triggers: seq<Trigger>) {
    || u.requested.None?
    || (Final in triggers && u.requested.value <= 0)
    || (Final !in triggers && g.known && g.mode == Debit)
  }

  /** The report keeps the reservation going: it requests a volume under FINAL, or any, without FINAL, of a group that is
      new or in reserve mode. */
  predicate Continues(g: Group, u: UnitUsage, triggers: seq<Trigger>) {
    u.requested.Some? && if Final in triggers then u.requested.value > 0 else !g.known || g.mode == Reserve
  }

  /** The unit cost of the account if the rating function is asked for it and it is positive, and 1 otherwise. */
  function LearnedCost(account: Option<Account>, answered: bool): u32 {
    if answered && account.Some? && account.value.unitCost > 0 then account.value.unitCost else 1
  }

  // ---------------------------------------------------------------- volumes and prices

  lemma {:induction false} VolumeSnoc(used: seq<UsedUnit>)
    requires used != []
    ensures var last := used[|used| - 1];
            Volume(used) == Volume(used[..|used| - 1]) + if last.indicator == Indicator.Online then last.totalVolume else 0
  {
    if |used| > 1 {
      VolumeSnoc(used[1..]);
      assert used[1..][..|used| - 2] == used[..|used| - 1][1..];
    }
  }

  lemma AddedWraps(x: int, y: int)
    ensures (x % TWO_32 + y % TWO_32) % TWO_32 == (x + y) % TWO_32
  {
  }

  /** The volume the loop adds up is the sum of the online containers modulo 2^32. */
  lemma {:induction false} VolumeWraps(used: seq<UsedUnit>)
    ensures OnlineVolume(used) == Volume(used) % 0x1_0000_0000
  {
    if used != [] {
      var init, last := used[..|used| - 1], used[|used| - 1];
      VolumeWraps(init);
      VolumeSnoc(used);
      AddedWraps(Volume(init), if last.indicator.Online? then last.totalVolume else 0);
    }
  }

  lemma WholeWords(x: int, k: int)
    ensures (x + k * TWO_32) % TWO_32 == x % TWO_32
  {
  }

  lemma FactorWraps(x: int, cost: u32)
    ensures (x % TWO_32) * cost % TWO_32 == x * cost % TWO_32
  {
    var q, r := x / TWO_32, x % TWO_32;
    assert x * cost == r * cost + (q * cost) * TWO_32;
    WholeWords(r * cost, q * cost);
  }

  lemma PriceWraps(used: seq<UsedUnit>, cost: u32)
    ensures U32(OnlineVolume(used) * cost) == PriceOf(used, cost)
  {
    VolumeWraps(used);
    FactorWraps(Volume(used), cost);
    hide OnlineVolume, Volume;
  }

  lemma NoPrice(used: seq<UsedUnit>)
    ensures PriceOf(used, 0) == 0
  {
  }

  // ---------------------------------------------------------------- which case a report is

  lemma OnlineIsUnderControl(used: seq<UsedUnit>)
    ensures UnderCreditControl(used) <==> OnlineUse(used)
  {
  }

  lemma HandledAs(g: Group, u: UnitUsage, triggers: seq<Trigger>)
    requires OnlineUse(u.used)
    ensures Ends(g, u, triggers) ==> AfterUsage(g, u, triggers) == Settle(g.(known := true, mode := Debit), u)
    ensures Continues(g, u, triggers) ==> AfterUsage(g, u, triggers) == ReserveMore(g.(known := true, mode := Reserve), u)
  {
    OnlineIsUnderControl(u.used);
    hide UnderCreditControl, ReserveMore, Settle;
  }

  /** Every report is one of the two, or asks a group without a mode, which no handled group is. */
  lemma OneOfThree(g: Group, u: UnitUsage, triggers: seq<Trigger>)
    requires OnlineUse(u.used)
    ensures !(Ends(g, u, triggers) && Continues(g, u, triggers))
    ensures !Ends(g, u, triggers) && !Continues(g, u, triggers) ==>
              && g.known && g.mode == Unset
              && AfterUsage(g, u, triggers) == Outcome(g.(requestNum := (g.requestNum + 1) % 0x1_0000_0000), 0, Some(Granted(u.ratingGroup, 0, false)))
  {
    OnlineIsUnderControl(u.used);
    hide UnderCreditControl, OnlineUse, ReserveMore, Settle;
  }

  /** Without a container under online charging a report only makes its group known, in reserve mode. */
  lemma NotOnline(g: Group, u: UnitUsage, triggers: seq<Trigger>)
    requires !OnlineUse(u.used)
    ensures AfterUsage(g, u, triggers) == Outcome(if g.known then g else g.(known := true, mode := Reserve), 0, None)
  {
    OnlineIsUnderControl(u.used);
    hide UnderCreditControl, ReserveMore, Settle;
  }

  /** Usage that comes with a request for no volume is neither charged nor answered while the group is in reserve mode. */
  lemma NothingAsked(g: Group, u: UnitUsage, triggers: seq<Trigger>)
    requires OnlineUse(u.used) && Continues(g, u, triggers) && u.requested.value <= 0
    ensures AfterUsage(g, u, triggers) == Outcome(g.(known := true, mode := Reserve), 0, None)
  {
    HandledAs(g, u, triggers);
    hide AfterUsage;
  }

  // ---------------------------------------------------------------- settlement

  /** The price of a settlement: at the unit cost of the account, and nothing without one. */
  function FinalPrice(g: Group, used: seq<UsedUnit>): nat { PriceOf(used, if g.account.Some? then g.account.value.unitCost else 0) }

  lemma RatedFinally(g: Group, used: seq<UsedUnit>)
    ensures RateDebit(g.account, OnlineVolume(used)).price == FinalPrice(g, used)
  {
    if g.account.Some? {
      PriceWraps(used, g.account.value.unitCost);
    } else {
      NoPrice(used);
    }
    hide OnlineVolume, Volume;
  }

  lemma ClosingBalance(quota: int64, reserved: int64, price: u32)
    ensures var a := if price < reserved then Refund(U64(reserved - price)) else TerminationDebit(U64(price - reserved));
            HandleCcr(quota, a).0 == I64(quota + reserved - price)
  {
    ClosingMoves(quota, reserved, price);
    hide HandleCcr, I64, U64;
    var a := if price < reserved then Refund(U64(reserved - price)) else TerminationDebit(U64(price - reserved));
    Same64Shift(HandleCcr(quota, a).0 + price, quota + reserved, 0 - price);
    SameWord(HandleCcr(quota, a).0, quota + reserved - price);
  }

  /** A report that ends the reservation, answered by both peers, in any earlier mode and under any triggers: the usage is
      charged at the account's unit cost, nothing stays reserved, the balance gets the rest of the reservation or pays what
      exceeds it, and the group goes on in reserve mode if and only if something was left. */
  lemma UsageSettled(g: Group, u: UnitUsage, triggers: seq<Trigger>)
    requires OnlineUse(u.used) && Ends(g, u, triggers) && u.peers.rating && u.peers.account && g.account.Some?
    ensures var price := FinalPrice(g, u.used);
            AfterUsage(g, u, triggers) ==
            Outcome(Group(Some(Account(I64(g.account.value.quota + g.reserved - price), g.account.value.unitCost)), true, 0,
                          if price < g.reserved then Reserve else Debit, g.unitCost, (g.requestNum + 1) % 0x1_0000_0000),
                    price, Some(Granted(u.ratingGroup, 0, false)))
  {
    HandledAs(g, u, triggers);
    RatedFinally(g, u.used);
    ClosingBalance(g.account.value.quota, g.reserved, FinalPrice(g, u.used));
    hide AfterUsage, HandleCcr, OnlineVolume, FinalPrice, RateDebit, OnlineUse, I64, U64;
  }

  /** Unanswered, it charges nothing; the mode is that of the settlement as far as the price was learned. */
  lemma SettlementUnanswered(g: Group, u: UnitUsage, triggers: seq<Trigger>)
    requires OnlineUse(u.used) && Ends(g, u, triggers) && !(u.peers.rating && u.peers.account && g.account.Some?)
    ensures AfterUsage(g, u, triggers) ==
            Outcome(g.(known := true, mode := if u.peers.rating && FinalPrice(g, u.used) < g.reserved then Reserve else Debit), 0, None)
  {
    HandledAs(g, u, triggers);
    RatedFinally(g, u.used);
    hide AfterUsage, OnlineVolume, FinalPrice, RateDebit, OnlineUse;
  }

  // ---------------------------------------------------------------- going on

  /** The reservation left once the usage is charged at the cost learned, and the quota requested at that cost. */
  function LeftOver(g: Group, u: UnitUsage): int64 { I64(g.reserved - PriceOf(u.used, LearnedCost(g.account, u.peers.firstCost))) }

  function RequestedQuota(g: Group, u: UnitUsage): u32
    requires u.requested.Some?
  {
    u.requested.value * LearnedCost(g.account, u.peers.firstCost) % 0x1_0000_0000
  }

  /** The answer to a request: as many units as the quota buys, and no more than requested; without charging data none. */
  predicate AnsweredWith(g: Group, u: UnitUsage, terminate: bool, o: Outcome)
    requires u.requested.Some?
  {
    if u.peers.rating && (g.account.Some? ==> g.account.value.unitCost > 0) then
      && o.answer.Some? && o.answer.value.ratingGroup == u.ratingGroup && o.answer.value.terminate == terminate
      && (g.account.None? ==> o.answer.value.units == 0)
      && (g.account.Some? ==>
            var bought := RequestedQuota(g, u) / g.account.value.unitCost;
            o.answer.value.units == if bought < u.requested.value then bought else u.requested.value)
      && o.group.unitCost == LearnedCost(g.account, u.peers.secondCost)
      && o.group.requestNum == (g.requestNum + 1) % 0x1_0000_0000
    else
      o.answer == None && o.group.unitCost == LearnedCost(g.account, u.peers.firstCost) && o.group.requestNum == g.requestNum
  }

  lemma SeenIsLearned(account: Option<Account>, answered: bool)
    ensures UnitCostSeen(account, answered) == LearnedCost(account, answered)
  {
  }

  lemma GrantAnswers(g: Group, g1: Group, u: UnitUsage, used: u32, terminate: bool)
    requires u.requested.Some? && u.requested.value > 0
    requires g1.unitCost == LearnedCost(g.account, u.peers.firstCost) && g1.requestNum == g.requestNum
    requires g1.account.Some? == g.account.Some? && (g.account.Some? ==> g1.account.value.unitCost == g.account.value.unitCost)
    ensures var o := Grant(g1, u, used, RequestedQuota(g, u), terminate);
            && AnsweredWith(g, u, terminate, o) && o.charged == used
            && o.group == g1.(unitCost := o.group.unitCost, requestNum := o.group.requestNum)
  {
    SeenIsLearned(g1.account, u.peers.secondCost);
    hide UnitCostSeen, RequestedQuota;
  }

  lemma ChargedFirst(g: Group, u: UnitUsage)
    requires u.requested.Some?
    ensures var cost := LearnedCost(g.account, u.peers.firstCost);
            && AfterCharge(g, u) == (g.(unitCost := cost, reserved := LeftOver(g, u)), PriceOf(u.used, cost))
            && U32(u.requested.value * UnitCostSeen(g.account, u.peers.firstCost)) == RequestedQuota(g, u)
  {
    SeenIsLearned(g.account, u.peers.firstCost);
    PriceWraps(u.used, LearnedCost(g.account, u.peers.firstCost));
    hide UnitCostSeen, OnlineVolume, LearnedCost, PriceOf;
  }

  /** A request for a volume while something of the reservation is left: the usage is taken off it, and the account is not
      asked. */
  lemma ReservationLasts(g: Group, u: UnitUsage, triggers: seq<Trigger>)
    requires OnlineUse(u.used) && Continues(g, u, triggers) && u.requested.value > 0 && LeftOver(g, u) > 0
    ensures var o := AfterUsage(g, u, triggers);
            && o.charged == PriceOf(u.used, LearnedCost(g.account, u.peers.firstCost))
            && o.group.account == g.account && o.group.known && o.group.reserved == LeftOver(g, u) && o.group.mode == Reserve
            && AnsweredWith(g, u, false, o)
  {
    HandledAs(g, u, triggers);
    var g0 := g.(known := true, mode := Reserve);
    hide AfterUsage, OnlineUse, Continues, ReserveMore, AfterCharge, LeftOver, PriceOf, LearnedCost, UnitCostSeen, Grant, RequestedQuota, AnsweredWith;
    ReserveInHalves(g0, u);
    ChargedFirst(g0, u);
    SameNumbers(g, g0, u);
    var used := PriceOf(u.used, LearnedCost(g.account, u.peers.firstCost));
    GrantAnswers(g, AfterCharge(g0, u).0, u, used, false);
  }

  /** Known and mode do not enter the numbers of a step. */
  lemma SameNumbers(g: Group, g0: Group, u: UnitUsage)
    requires g0 == g.(known := true, mode := Reserve)
    ensures LeftOver(g0, u) == LeftOver(g, u) && (u.requested.Some? ==> RequestedQuota(g0, u) == RequestedQuota(g, u))
  {
  }

  /** With nothing left and no answer from the account, the usage is charged and nothing else happens. */
  lemma AccountUnanswered(g: Group, u: UnitUsage, triggers: seq<Trigger>)
    requires OnlineUse(u.used) && Continues(g, u, triggers) && u.requested.value > 0 && LeftOver(g, u) <= 0
    requires !(u.peers.account && g.account.Some?)
    ensures var cost := LearnedCost(g.account, u.peers.firstCost);
            AfterUsage(g, u, triggers) ==
            Outcome(Group(g.account, true, LeftOver(g, u), Reserve, cost, g.requestNum), PriceOf(u.used, cost), None)
  {
    HandledAs(g, u, triggers);
    var g0 := g.(known := true, mode := Reserve);
    hide AfterUsage, OnlineUse, Continues, ReserveMore, AfterCharge, LeftOver, PriceOf, LearnedCost, UnitCostSeen, Grant;
    ReserveInHalves(g0, u);
    ChargedFirst(g0, u);
    SameNumbers(g, g0, u);
  }

  /** What the account gives: what is missing and the requested quota, or, with TERMINATE, all it has. */
  function Given(g: Group, u: UnitUsage): int64
    requires u.requested.Some? && g.account.Some?
  {
    if AskedOf(g, u) > g.account.value.quota then g.account.value.quota else AskedOf(g, u)
  }

  function AskedOf(g: Group, u: UnitUsage): int64
    requires u.requested.Some?
  {
    I64(RequestedQuota(g, u) - LeftOver(g, u))
  }

  lemma WordTwice(x: int)
    ensures I64(U64(x)) == I64(x)
  {
    I64Carry(x);
    U64Carry(x);
    I64Carry(U64(x));
    hide I64, U64, Carry;
    Same64ByCarry(I64(U64(x)), x, 0 - x / TWO_64 - Carry(U64(x)));
    SameWord(I64(U64(x)), x);
  }

  lemma AccountGives(g: Group, g1: Group, u: UnitUsage)
    requires u.requested.Some? && u.peers.account && g.account.Some? && g1.account == g.account && g1.reserved == LeftOver(g, u)
    ensures var debit := Account1(g1.account, true, UpdateDebit(U64(RequestedQuota(g, u) - g1.reserved)));
            && debit.Some?
            && debit.value.0 == Account(I64(g.account.value.quota - Given(g, u)), g.account.value.unitCost)
            && I64(debit.value.1.granted) == Given(g, u)
            && (debit.value.1.terminate <==> AskedOf(g, u) > g.account.value.quota)
  {
    WordTwice(RequestedQuota(g, u) - LeftOver(g, u));
    InRange(Given(g, u));
    hide RequestedQuota, LeftOver, I64, U64;
  }

  /** With nothing left, the account pays for what is missing and the requested quota as far as it can; if it cannot, the
      answer carries TERMINATE and the group goes to debit mode. */
  lemma ReservationRenewed(g: Group, u: UnitUsage, triggers: seq<Trigger>)
    requires OnlineUse(u.used) && Continues(g, u, triggers) && u.requested.value > 0 && LeftOver(g, u) <= 0
    requires u.peers.account && g.account.Some?
    ensures var o, terminate := AfterUsage(g, u, triggers), AskedOf(g, u) > g.account.value.quota;
            && o.charged == PriceOf(u.used, LearnedCost(g.account, u.peers.firstCost))
            && o.group.account == Some(Account(I64(g.account.value.quota - Given(g, u)), g.account.value.unitCost))
            && o.group.known && o.group.reserved == I64(LeftOver(g, u) + Given(g, u))
            && o.group.mode == (if terminate then Debit else Reserve)
            && AnsweredWith(g, u, terminate, o)
  {
    HandledAs(g, u, triggers);
    var g0 := g.(known := true, mode := Reserve);
    hide AfterUsage, OnlineUse, Continues, ReserveMore, AfterCharge, LeftOver, PriceOf, LearnedCost, UnitCostSeen, Grant, RequestedQuota, AnsweredWith, Given, AskedOf, I64, U64, Account1;
    ReserveInHalves(g0, u);
    ChargedFirst(g0, u);
    SameNumbers(g, g0, u);
    var (g1, used) := AfterCharge(g0, u);
    AccountGives(g, g1, u);
    var debit := Account1(g1.account, true, UpdateDebit(U64(RequestedQuota(g, u) - g1.reserved))).value;
    GrantAnswers(g, Covered(g1, debit), u, used, debit.1.terminate);
  }

  /** A known group always has a mode, so that every report with online usage ends its reservation or continues it. */
  lemma {:induction false} ModeStays(g: Group, es: seq<Event>, rg: int32)
    requires g.known ==> g.mode != Unset
    ensures var g' := RunEvents(g, es, rg).group; g'.known ==> g'.mode != Unset
  {
    hide RunReports;
    if es != [] {
      ModeStays(g, es[..|es| - 1], rg);
      var e := es[|es| - 1];
      if e.Request? {
        ModeAfterReports(RunEvents(g, es[..|es| - 1], rg).group, e.us, rg, e.triggers);
      }
    }
  }

  lemma {:induction false} ModeAfterReports(g: Group, us: seq<UnitUsage>, rg: int32, triggers: seq<Trigger>)
    requires g.known ==> g.mode != Unset
    ensures var g' := RunReports(g, us, rg, triggers).group; g'.known ==> g'.mode != Unset
  {
    hide AfterUsage;
    if us != [] {
      ModeAfterReports(g, us[..|us| - 1], rg, triggers);
      ModeAfterReport(RunReports(g, us[..|us| - 1], rg, triggers).group, us[|us| - 1], triggers);
    }
  }

  lemma ModeAfterReport(g: Group, u: UnitUsage, triggers: seq<Trigger>)
    requires g.known ==> g.mode != Unset
    ensures AfterUsage(g, u, triggers).group.mode != Unset
  {
    hide OnlineVolume, UnderCreditControl, HandleCcr, RateReserve, RateDebit, UnitCostSeen;
  }

  // ---------------------------------------------------------------- the report after a settlement

  lemma NoWrap(x: int)
    requires -TWO_63 <= x < TWO_63
    ensures I64(x) == x
  {
  }

  /** A request for a volume, without FINAL and answered by all peers, of a group with no reservation in reserve mode: the
      balance pays for the usage and for what is requested. */
  lemma ReservedAnew(s: Group, v: UnitUsage, triggers: seq<Trigger>)
    requires s.known && s.mode == Reserve && s.reserved == 0 && s.account.Some? && s.account.value.unitCost > 0
    requires OnlineUse(v.used) && v.requested.Some? && v.requested.value > 0 && Final !in triggers
    requires v.peers.firstCost && v.peers.rating && v.peers.account
    ensures var o, cost, balance := AfterUsage(s, v, triggers), s.account.value.unitCost, s.account.value.quota;
            var used, wanted := PriceOf(v.used, cost), v.requested.value * cost % 0x1_0000_0000;
            && o.charged == used && o.answer.Some?
            && o.answer.value.units == (if wanted / cost < v.requested.value then wanted / cost else v.requested.value)
            && (o.answer.value.terminate <==> wanted + used > balance)
            && o.group.reserved == (if wanted + used > balance then I64(balance - used) else wanted)
            && o.group.mode == (if wanted + used > balance then Debit else Reserve)
  {
    var cost := s.account.value.unitCost;
    assert LearnedCost(s.account, true) == cost;
    hide AfterUsage, PriceOf, OnlineUse, I64, LearnedCost;
    var used: int := PriceOf(v.used, cost);
    var wanted: int := RequestedQuota(s, v);
    NoWrap(0 - used);
    NoWrap(wanted + used);
    NoWrap(wanted);
    hide RequestedQuota;
    ReservationRenewed(s, v, triggers);
  }

  /**
   * After an answered settlement, the next report that requests a volume without FINAL is a reserve step, granted what its
   * price buys, if the settlement refunded something; otherwise it is settled like the one before and granted nothing.
   */
  lemma NextReport(g: Group, u: UnitUsage, triggers: seq<Trigger>, v: UnitUsage, triggers': seq<Trigger>)
    requires OnlineUse(u.used) && Ends(g, u, triggers) && u.peers.rating && u.peers.account
    requires g.account.Some? && g.account.value.unitCost > 0
    requires OnlineUse(v.used) && v.requested.Some? && v.requested.value > 0 && Final !in triggers'
    requires v.peers.firstCost && v.peers.rating && v.peers.account
    ensures var s, cost := AfterUsage(g, u, triggers).group, g.account.value.unitCost;
            var o, used, wanted := AfterUsage(s, v, triggers'), PriceOf(v.used, cost), v.requested.value * cost % 0x1_0000_0000;
            && s.reserved == 0 && s.account.Some? && o.charged == used && o.answer.Some?
            && var units, terminate := o.answer.value.units, o.answer.value.terminate;
            && (FinalPrice(g, u.used) < g.reserved ==>
                  && units == (if wanted / cost < v.requested.value then wanted / cost else v.requested.value)
                  && (terminate <==> wanted + used > s.account.value.quota)
                  && o.group.reserved == (if terminate then I64(s.account.value.quota - used) else wanted))
            && (FinalPrice(g, u.used) >= g.reserved ==> units == 0 && !terminate && o.group.reserved == 0 && o.group.mode == Debit)
  {
    hide AfterUsage, PriceOf, OnlineUse, I64;
    UsageSettled(g, u, triggers);
    var s := AfterUsage(g, u, triggers).group;
    if FinalPrice(g, u.used) < g.reserved {
      ReservedAnew(s, v, triggers');
    } else {
      UsageSettled(s, v, triggers');
    }
  }

  // ---------------------------------------------------------------- a whole request

  /** The last report of a request on a group is one that requests nothing, answered by both peers. */
  ghost predicate EndsLast(us: seq<UnitUsage>, rg: int32) {
    exists k: nat :: LastOn(us, rg, k) && OnlineUse(us[k].used) && us[k].requested.None? && us[k].peers.rating && us[k].peers.account
  }

  predicate LastOn(us: seq<UnitUsage>, rg: int32, k: nat) {
    k < |us| && us[k].ratingGroup == rg && forall j :: k < j < |us| ==> us[j].ratingGroup != rg
  }

  lemma ReportKeepsAccount(g: Group, u: UnitUsage, triggers: seq<Trigger>)
    ensures AfterUsage(g, u, triggers).group.account.Some? <==> g.account.Some?
  {
    hide OnlineVolume, UnderCreditControl, ModeFor, HandleCcr, RateReserve, RateDebit, UnitCostSeen;
  }

  /** Whatever else a request reports on a group, it ends with nothing reserved and an answer of no units if its last report
      on the group is such a one. */
  lemma {:induction false} RequestSettles(g: Group, us: seq<UnitUsage>, rg: int32, triggers: seq<Trigger>, k: nat)
    requires g.account.Some? && LastOn(us, rg, k)
    requires OnlineUse(us[k].used) && us[k].requested.None? && us[k].peers.rating && us[k].peers.account
    ensures var r := RunReports(g, us, rg, triggers);
            && r.group.reserved == 0 && r.group.account.Some? && r.group.mode in {Reserve, Debit}
            && r.answers != [] && r.answers[|r.answers| - 1] == Granted(rg, 0, false)
  {
    hide AfterUsage, OnlineUse;
    var n := |us| - 1;
    if k == n {
      AccountStays(g, us[..n], rg, triggers);
      UsageSettled(RunReports(g, us[..n], rg, triggers).group, us[n], triggers);
    } else {
      RequestSettles(g, us[..n], rg, triggers, k);
    }
  }

  /** Answers are to the reports in their order: their groups are those of some of the reports, left to right. */
  ghost predicate InReportOrder(answers: seq<Granted>, us: seq<UnitUsage>) {
    exists at: seq<nat> :: AnswerAt(answers, us, at)
  }

  predicate AnswerAt(answers: seq<Granted>, us: seq<UnitUsage>, at: seq<nat>) {
    && |at| == |answers|
    && (forall k :: 0 <= k < |at| ==> at[k] < |us| && answers[k].ratingGroup == us[at[k]].ratingGroup)
    && forall j, k :: 0 <= j < k < |at| ==> at[j] < at[k]
  }

  lemma NextInOrder(answers: seq<Granted>, answer: Option<Granted>, us: seq<UnitUsage>, i: nat)
    requires i < |us| && InReportOrder(answers, us[..i]) && (answer.Some? ==> answer.value.ratingGroup == us[i].ratingGroup)
    ensures InReportOrder(answers + if answer.Some? then [answer.value] else [], us[..i + 1])
  {
    var at: seq<nat> :| AnswerAt(answers, us[..i], at);
    if answer.Some? {
      assert AnswerAt(answers + [answer.value], us[..i + 1], at + [i]);
    } else {
      assert answers + [] == answers && AnswerAt(answers, us[..i + 1], at);
    }
  }

  lemma NoneYet(us: seq<UnitUsage>)
    ensures InReportOrder([], us[..0])
  {
    assert AnswerAt([], us[..0], []);
  }

  /** A group with one report in a request sees that report alone. */
  lemma {:induction false} OnlyReport(g: Group, us: seq<UnitUsage>, k: nat, triggers: seq<Trigger>)
    requires k < |us| && forall j :: 0 <= j < |us| && j != k ==> us[j].ratingGroup != us[k].ratingGroup
    ensures RunReports(g, us, us[k].ratingGroup, triggers).group == AfterUsage(g, us[k], triggers).group
  {
    hide AfterUsage;
    var n := |us| - 1;
    if k == n {
      NoReport(g, us[..n], us[n].ratingGroup, triggers);
    } else {
      OnlyReport(g, us[..n], k, triggers);
    }
  }

  lemma {:induction false} NoReport(g: Group, us: seq<UnitUsage>, rg: int32, triggers: seq<Trigger>)
    requires forall j :: 0 <= j < |us| ==> us[j].ratingGroup != rg
    ensures RunReports(g, us, rg, triggers) == GroupRun(g, 0, [])
  {
    hide AfterUsage;
    if us != [] {
      NoReport(g, us[..|us| - 1], rg, triggers);
    }
  }

  lemma EndedLast(g: Group, us: seq<UnitUsage>, rg: int32, triggers: seq<Trigger>)
    requires g.account.Some? && EndsLast(us, rg)
    ensures var r := RunReports(g, us, rg, triggers);
            && r.group.reserved == 0 && r.group.mode in {Reserve, Debit}
            && r.answers != [] && r.answers[|r.answers| - 1] == Granted(rg, 0, false)
  {
    hide RunReports, OnlineUse;
    var k: nat :| LastOn(us, rg, k) && OnlineUse(us[k].used) && us[k].requested.None? && us[k].peers.rating && us[k].peers.account;
    RequestSettles(g, us, rg, triggers, k);
  }

  lemma {:induction false} AccountStays(g: Group, us: seq<UnitUsage>, rg: int32, triggers: seq<Trigger>)
    ensures RunReports(g, us, rg, triggers).group.account.Some? <==> g.account.Some?
  {
    hide AfterUsage;
    if us != [] {
      AccountStays(g, us[..|us| - 1], rg, triggers);
      ReportKeepsAccount(RunReports(g, us[..|us| - 1], rg, triggers).group, us[|us| - 1], triggers);
    }
  }
}
