/** What closing a session leaves, which grants are covered, and when a subscriber can never overspend. */
module ReservationSafety {
  import opened Words
  import opened Results
  import opened Charging
  import opened ReservationLaws
  import opened ReservationExact
  import opened ReservationSteps

  // ---------------------------------------------------------------- what is charged

  /** The steps that charge: a reserve step for a positive volume, and a debit step whose peers answer. */
  predicate Charges(g: Group, u: UnitUsage, triggers: seq<Trigger>) {
    && OnlineUse(u.used)
    && (|| (Continues(g, u, triggers) && u.requested.value > 0)
        || (Ends(g, u, triggers) && u.peers.rating && u.peers.account))
  }

  /** The unit cost in the stored charging data, if there is any. */
  function AccountCost(g: Group): Option<u32> { if g.account.Some? then Some(g.account.value.unitCost) else None }

  /** The unit cost usage is charged at: where it ends the reservation that of the account; elsewhere too, if the rating
      function answers the first request for it and it is positive, and 1 otherwise. */
  function CostCharged(cost: Option<u32>, ends: bool, firstCost: bool): u32 {
    if ends then if cost.Some? then cost.value else 0
    else if firstCost && cost.Some? && cost.value > 0 then cost.value else 1
  }

  lemma SeenIsCharged(g: Group, firstCost: bool)
    ensures UnitCostSeen(g.account, firstCost) == CostCharged(AccountCost(g), false, firstCost)
  {
  }

  lemma SettleCharges(g: Group, u: UnitUsage)
    ensures Settle(g, u).charged ==
            if u.peers.rating && u.peers.account && g.account.Some?
            then U32(OnlineVolume(u.used) * CostCharged(AccountCost(g), true, u.peers.firstCost)) else 0
  {
    hide OnlineVolume, HandleCcr;
  }

  lemma ReserveCharges(g: Group, u: UnitUsage)
    ensures ReserveMore(g, u).charged ==
            if u.requested.Some? && u.requested.value > 0
            then U32(OnlineVolume(u.used) * CostCharged(AccountCost(g), false, u.peers.firstCost)) else 0
  {
    SeenIsCharged(g, u.peers.firstCost);
    if u.requested.Some? && u.requested.value > 0 {
      ReserveInHalves(g, u);
      hide UnitCostSeen, OnlineVolume, Secure, ReserveMore, CostCharged;
      SecureCharges(AfterCharge(g, u).0, u, AfterCharge(g, u).1, U32(u.requested.value * UnitCostSeen(g.account, u.peers.firstCost)));
    }
  }

  /** A charging step charges the 32-bit price of the reported volume at that cost; every other step charges nothing. */
  lemma ChargedIsPrice(g: Group, u: UnitUsage, triggers: seq<Trigger>)
    ensures AfterUsage(g, u, triggers).charged ==
            if Charges(g, u, triggers)
            then U32(OnlineVolume(u.used) * CostCharged(AccountCost(g), Ends(g, u, triggers), u.peers.firstCost)) else 0
  {
    hide OnlineVolume, OnlineUse, ReserveMore, Settle, CostCharged, AfterUsage, Ends;
    if !OnlineUse(u.used) {
      NotOnline(g, u, triggers);
    } else {
      HandledAs(g, u, triggers);
      OneOfThree(g, u, triggers);
      ReserveCharges(g.(known := true, mode := Reserve), u);
      SettleCharges(g.(known := true, mode := Debit), u);
      NoAccountNoCost(g, u);
    }
  }

  lemma NoAccountNoCost(g: Group, u: UnitUsage)
    ensures g.account.None? ==> OnlineVolume(u.used) * CostCharged(AccountCost(g), true, u.peers.firstCost) == 0
  {
    hide OnlineVolume;
  }

  /** The prices of the reports on a group that charge, all at the account's unit cost or at 1. */
  function Prices(g: Group, us: seq<UnitUsage>, rg: int32, triggers: seq<Trigger>, cost: Option<u32>): nat {
    if us == [] then 0
    else
      var u, before := us[|us| - 1], RunReports(g, us[..|us| - 1], rg, triggers).group;
      Prices(g, us[..|us| - 1], rg, triggers, cost)
      + if u.ratingGroup == rg && Charges(before, u, triggers)
        then U32(OnlineVolume(u.used) * CostCharged(cost, Ends(before, u, triggers), u.peers.firstCost)) else 0
  }

  lemma AccountKeepsCost(g: Group, u: UnitUsage, triggers: seq<Trigger>)
    ensures AccountCost(AfterUsage(g, u, triggers).group) == AccountCost(g)
  {
    hide OnlineVolume, UnderCreditControl, ModeFor, HandleCcr, RateReserve, RateDebit, UnitCostSeen;
  }

  /** What a request charges a group is the sum of the 32-bit prices of the reports that charge, at the unit cost its
      account has from the start, or at 1 where that was not learned, whatever is granted or refunded in between. */
  lemma {:induction false} RequestCharges(g: Group, us: seq<UnitUsage>, rg: int32, triggers: seq<Trigger>)
    ensures var r := RunReports(g, us, rg, triggers);
            AccountCost(r.group) == AccountCost(g) && r.charged == Prices(g, us, rg, triggers, AccountCost(g))
  {
    hide AfterUsage, Charges, OnlineVolume, U32, CostCharged, Ends, AccountCost;
    if us != [] {
      var init, u := us[..|us| - 1], us[|us| - 1];
      RequestCharges(g, init, rg, triggers);
      if u.ratingGroup == rg {
        ChargedIsPrice(RunReports(g, init, rg, triggers).group, u, triggers);
        AccountKeepsCost(RunReports(g, init, rg, triggers).group, u, triggers);
      }
    }
  }

  /** A charging step charges the account's price exactly where it ends the reservation, or where the first request for the unit
      cost is answered with a positive one; otherwise only if that cost is 1. */
  lemma AccountPriceIff(g: Group, u: UnitUsage, triggers: seq<Trigger>)
    requires g.account.Some? && Charges(g, u, triggers)
    ensures CostCharged(AccountCost(g), Ends(g, u, triggers), u.peers.firstCost) == g.account.value.unitCost <==>
            || Ends(g, u, triggers)
            || (u.peers.firstCost && g.account.value.unitCost > 0)
            || g.account.value.unitCost == 1
  {
    hide Ends, Continues, OnlineUse;
  }

  /** Ten units at a tariff of 5 are charged 10 where the rating function does not answer. */
  lemma ChargedAtOne(u: UnitUsage)
    requires u == UnitUsage(1, [UsedUnit(Online, 10)], Some(20), Peers(false, true, true, true))
    ensures AfterUsage(Group(Some(Account(1000, 5)), true, 100, Reserve, 5, 0), u, []).charged == 10
  {
    var g := Group(Some(Account(1000, 5)), true, 100, Reserve, 5, 0);
    assert u.used[..0] == [] && u.used[0].indicator.Online?;
    assert OnlineVolume(u.used) == 10 && OnlineUse(u.used);
    hide OnlineVolume, OnlineUse, AfterUsage;
    ChargedIsPrice(g, u, []);
  }

  lemma SecureCharges(g: Group, u: UnitUsage, used: u32, wanted: u32)
    requires u.requested.Some? && u.requested.value > 0
    ensures Secure(g, u, used, wanted).charged == used
  {
    SecureKeepsFunds(g, u, used, wanted);
  }

  // ---------------------------------------------------------------- settlement

  /** The report ends the reservation and both peers answer: the session of the group is closed. */
  predicate Closes(g: Group, u: UnitUsage, triggers: seq<Trigger>) {
    OnlineUse(u.used) && Ends(g, u, triggers) && u.peers.rating && u.peers.account && g.account.Some?
  }

  lemma ClosedLeavesNothing(g: Group, u: UnitUsage, triggers: seq<Trigger>)
    requires Closes(g, u, triggers)
    ensures var o := AfterUsage(g, u, triggers); o.group.reserved == 0 && o.group.account.Some? && g.account.Some?
  {
    UsageSettled(g, u, triggers);
    hide AfterUsage, OnlineUse, Ends;
  }

  lemma ReportsAppend(g: Group, us: seq<UnitUsage>, u: UnitUsage, rg: int32, triggers: seq<Trigger>)
    ensures var before := RunReports(g, us, rg, triggers);
            RunReports(g, us + [u], rg, triggers) ==
            if u.ratingGroup != rg then before
            else var o := AfterUsage(before.group, u, triggers);
                 GroupRun(o.group, before.charged + o.charged, before.answers + if o.answer.Some? then [o.answer.value] else [])
  {
    hide AfterUsage;
    assert (us + [u])[..|us|] == us;
  }

  /** Reports on other groups do nothing to this one. */
  lemma {:induction false} OthersPass(g: Group, us: seq<UnitUsage>, vs: seq<UnitUsage>, rg: int32, triggers: seq<Trigger>)
    requires forall k :: 0 <= k < |vs| ==> vs[k].ratingGroup != rg
    ensures RunReports(g, us + vs, rg, triggers) == RunReports(g, us, rg, triggers)
  {
    hide RunReports;
    if vs == [] {
      assert us + vs == us;
    } else {
      var n := |vs| - 1;
      OthersPass(g, us, vs[..n], rg, triggers);
      assert us + vs == us + vs[..n] + [vs[n]];
      ReportsAppend(g, us + vs[..n], vs[n], rg, triggers);
    }
  }

  /** A run of events and one more request whose last report on the group closes its session. */
  ghost predicate Settled(g: Group, es: seq<Event>, us: seq<UnitUsage>, triggers: seq<Trigger>, rg: int32) {
    exists k :: 0 <= k < |us| && us[k].ratingGroup == rg
      && (forall j :: k < j < |us| ==> us[j].ratingGroup != rg)
      && Closes(RunReports(RunEvents(g, es, rg).group, us[..k], rg, triggers).group, us[k], triggers)
  }

  lemma ClosedAtTheEnd(g: Group, us: seq<UnitUsage>, k: nat, rg: int32, triggers: seq<Trigger>)
    requires k < |us| && us[k].ratingGroup == rg && forall j :: k < j < |us| ==> us[j].ratingGroup != rg
    requires Closes(RunReports(g, us[..k], rg, triggers).group, us[k], triggers)
    ensures var r := RunReports(g, us, rg, triggers).group; r.reserved == 0 && r.account.Some?
  {
    hide RunReports, AfterUsage, Closes;
    OthersPass(g, us[..k + 1], us[k + 1..], rg, triggers);
    assert us[..k + 1] + us[k + 1..] == us && us[..k + 1] == us[..k] + [us[k]];
    ReportsAppend(g, us[..k], us[k], rg, triggers);
    ClosedLeavesNothing(RunReports(g, us[..k], rg, triggers).group, us[k], triggers);
  }

  /** A closed session: no reservation is left, and the balance is the initial funds less everything charged
      since, as a 64-bit word; so it is exact if and only if that difference fits 64 bits. */
  lemma Settlement(g: Group, es: seq<Event>, us: seq<UnitUsage>, triggers: seq<Trigger>, rg: int32)
    requires g.reserved == 0 && Settled(g, es, us, triggers, rg)
    ensures var r := RunEvents(g, es + [Request(us, triggers)], rg);
            && r.group.reserved == 0
            && r.group.account.Some?
            && r.group.account.value.quota == I64(Balance(g) - r.charged)
            && (r.group.account.value.quota == Balance(g) - r.charged <==> Balance(g) - r.charged >= -TWO_63)
  {
    hide RunEvents, RunReports, Closes, Settled;
    var before := RunEvents(g, es, rg).group;
    var es' := es + [Request(us, triggers)];
    EventsAppend(g, es, us, triggers, rg);
    SettledEnd(before, g, es, us, triggers, rg);
    RunConserves(g, es', rg);
    var r := RunEvents(g, es', rg);
    SameWord(r.group.account.value.quota, Balance(g) - r.charged);
  }

  lemma EventsAppend(g: Group, es: seq<Event>, us: seq<UnitUsage>, triggers: seq<Trigger>, rg: int32)
    ensures RunEvents(g, es + [Request(us, triggers)], rg).group == RunReports(RunEvents(g, es, rg).group, us, rg, triggers).group
  {
    hide RunReports;
    assert (es + [Request(us, triggers)])[..|es|] == es;
  }

  lemma SettledEnd(before: Group, g: Group, es: seq<Event>, us: seq<UnitUsage>, triggers: seq<Trigger>, rg: int32)
    requires before == RunEvents(g, es, rg).group && Settled(g, es, us, triggers, rg)
    ensures var r := RunReports(before, us, rg, triggers).group; r.reserved == 0 && r.account.Some?
  {
    hide RunEvents, RunReports, Closes;
    var k :| 0 <= k < |us| && us[k].ratingGroup == rg
      && (forall j :: k < j < |us| ==> us[j].ratingGroup != rg)
      && Closes(RunReports(before, us[..k], rg, triggers).group, us[k], triggers);
    ClosedAtTheEnd(before, us, k, rg, triggers);
  }

  // ---------------------------------------------------------------- one debit request

  /** A debit request is granted in full or, with TERMINATE, down to an empty account; the balance ends
      non-negative exactly unless a request read as a negative number overflows it. */
  lemma DebitSafe(quota: int64, units: u64)
    ensures var (quota', answer) := HandleCcr(quota, UpdateDebit(units));
            && (answer.terminate <==> I64(units) > quota)
            && (answer.terminate ==> quota' == 0 && I64(answer.granted) == quota)
            && (!answer.terminate ==> answer.granted == units)
            && (quota' >= 0 <==> answer.terminate || quota - I64(units) < TWO_63)
            && (I64(units) >= 0 ==> quota' == if answer.terminate then 0 else quota - units)
  {
    hide I64, U64;
    var request := I64(units);
    ReadAsSigned(units);
    if request > quota {
      InRange(quota);
      InRange(0);
    } else {
      NotNegativeIff(quota - request);
    }
  }

  /** A word read as a signed number. */
  lemma ReadAsSigned(units: u64)
    ensures U64(I64(units)) == units && (I64(units) >= 0 ==> I64(units) == units)
  {
    if units < TWO_63 {
      InRange(units);
    } else {
      assert I64(units) == units - TWO_64;
      assert U64(units - TWO_64) == units;
    }
  }

  lemma NotNegativeIff(x: int)
    requires 0 <= x < TWO_64
    ensures (I64(x) >= 0 <==> x < TWO_63) && (x < TWO_63 ==> I64(x) == x)
  {
    if x < TWO_63 {
      InRange(x);
    } else {
      assert I64(x) == x - TWO_64;
    }
  }

  // ---------------------------------------------------------------- one reserve step

  lemma BoughtUnits(wanted: u32, cost: u32, requested: nat)
    requires cost > 0
    ensures var allowed := wanted / cost;
            0 <= (if allowed < requested then allowed else requested) * cost <= wanted
  {
    var allowed := wanted / cost;
    WholeUnits(wanted, cost);
    MulMono(0, if allowed < requested then allowed else requested, cost);
    if allowed >= requested {
      MulMono(requested, allowed, cost);
    }
  }

  lemma WholeUnits(wanted: nat, cost: nat)
    requires cost > 0
    ensures wanted / cost * cost <= wanted
  {
    var q := wanted / cost;
    assert wanted == q * cost + wanted % cost;
  }

  lemma MulMono(a: int, b: int, c: int)
    requires a <= b && 0 <= c
    ensures a * c <= b * c
  {
  }

  /** The price of some units, before any wrap-around. */
  function Price(units: int, cost: int): int { units * cost }

  lemma ExactPurchase(requested: nat, cost: u32)
    requires cost > 0
    ensures (requested * cost) / cost == requested
  {
    var q := requested * cost / cost;
    var rest := requested * cost - q * cost;
    assert 0 <= rest < cost;
    if q < requested {
      MulMono(q + 1, requested, cost);
    } else if requested < q {
      MulMono(requested + 1, q, cost);
    }
  }

  /** The units a quota buys, at most those requested; none without a positive unit cost. */
  function Bought(cost: Option<u32>, wanted: u32, requested: nat): nat {
    if cost.None? || cost.value == 0 then 0
    else var allowed := wanted / cost.value; if allowed < requested then allowed else requested
  }

  /** What a grant of so many units costs at the account's unit cost. */
  function Worth(cost: Option<u32>, units: int): int { if cost.None? then 0 else Price(units, cost.value) }

  /** What a grant is worth: what the quota buys, never more than was priced, and all of it when the price did not wrap. */
  lemma GrantWorth(g: Group, u: UnitUsage, used: u32, wanted: u32, terminate: bool)
    requires u.requested.Some? && u.requested.value > 0
    requires Grant(g, u, used, wanted, terminate).answer.Some?
    ensures var answer := Grant(g, u, used, wanted, terminate).answer.value;
            && answer.units == Bought(AccountCost(g), wanted, u.requested.value)
            && answer.terminate == terminate
            && 0 <= Worth(AccountCost(g), answer.units) <= wanted
            && (g.account.Some? ==>
                  var cost := g.account.value.unitCost;
                  cost > 0 && (wanted == Price(u.requested.value, cost) ==> answer.units == u.requested.value))
  {
    hide UnitCostSeen;
    if g.account.Some? {
      var cost := g.account.value.unitCost;
      BoughtUnits(wanted, cost, u.requested.value);
      ExactPurchase(u.requested.value, cost);
    }
  }

  /** What the account debit of a reserve step leaves. */
  lemma DebitCovers(g: Group, processed: bool, wanted: u32)
    requires g.account.Some? && g.reserved <= 0 && g.reserved + g.account.value.quota >= -TWO_63 && wanted - g.reserved < TWO_63
    ensures var debit := Account1(g.account, processed, UpdateDebit(U64(wanted - g.reserved)));
            debit.Some? ==>
              var g' := Covered(g, debit.value);
              && g'.account.Some? && g'.account.value.unitCost == g.account.value.unitCost
              && (debit.value.1.terminate <==> wanted - g.reserved > g.account.value.quota)
              && g'.reserved == (if debit.value.1.terminate then g.reserved + g.account.value.quota else wanted)
              && g'.account.value.quota == Funds(g) - g'.reserved
  {
    DebitExact(g.account.value.quota, g.reserved, wanted);
    hide HandleCcr;
  }

  /** An account debit without TERMINATE leaves exactly the requested quota reserved, and the grant is covered by
      it, whatever wrapped to 32 bits. */
  lemma DebitedGrantIsCovered(g: Group, u: UnitUsage, used: u32, wanted: u32)
    requires u.requested.Some? && u.requested.value > 0
    requires g.account.Some? && g.reserved <= 0 && g.reserved + g.account.value.quota >= -TWO_63 && wanted - g.reserved < TWO_63
    requires var answer := Secure(g, u, used, wanted).answer; answer.Some? && !answer.value.terminate
    ensures var o := Secure(g, u, used, wanted);
            && o.group.reserved == wanted
            && o.group.account.Some?
            && o.group.account.value.quota == g.account.value.quota - (wanted - g.reserved) >= 0
            && Price(o.answer.value.units, g.account.value.unitCost) <= o.group.reserved
  {
    DebitCovers(g, u.peers.account, wanted);
    hide Account1, Covered, Grant, Price;
    var debit := Account1(g.account, u.peers.account, UpdateDebit(U64(wanted - g.reserved)));
    if debit.Some? {
      var g' := Covered(g, debit.value);
      GrantKeepsGroup(g', u, used, wanted, debit.value.1.terminate);
      GrantWorth(g', u, used, wanted, debit.value.1.terminate);
    }
  }

  lemma GrantKeepsGroup(g: Group, u: UnitUsage, used: u32, wanted: u32, terminate: bool)
    requires u.requested.Some? && u.requested.value > 0
    ensures var o := Grant(g, u, used, wanted, terminate);
            && o.group.account == g.account && o.group.reserved == g.reserved && o.group.mode == g.mode
            && (o.answer.Some? ==> o.answer.value.terminate == terminate)
  {
    hide RateReserve, UnitCostSeen;
  }

  /**
   * When a grant is covered: what the granted units cost is at most the reservation exactly if what is left of the
   * reservation pays for them or, with nothing left, reservation and account together do.
   */
  lemma GrantCoveredIff(g: Group, u: UnitUsage, used: u32, wanted: u32)
    requires u.requested.Some? && u.requested.value > 0
    requires g.reserved + Balance(g) >= -TWO_63 && wanted - g.reserved < TWO_63
    requires Secure(g, u, used, wanted).answer.Some?
    ensures var o := Secure(g, u, used, wanted);
            var worth := Worth(AccountCost(g), o.answer.value.units);
            && o.answer.value.units == Bought(AccountCost(g), wanted, u.requested.value)
            && (worth <= o.group.reserved <==> worth <= if g.reserved > 0 then g.reserved else g.reserved + Balance(g))
            && (o.answer.value.terminate ==> wanted > o.group.reserved)
  {
    hide Grant, Price, Bought, Worth;
    if g.reserved > 0 {
      GrantKeepsGroup(g, u, used, wanted, false);
      GrantWorth(g, u, used, wanted, false);
    } else if g.account.Some? {
      DebitCovers(g, u.peers.account, wanted);
      hide Account1, Covered;
      var debit := Account1(g.account, u.peers.account, UpdateDebit(U64(wanted - g.reserved)));
      if debit.Some? {
        var g' := Covered(g, debit.value);
        GrantKeepsGroup(g', u, used, wanted, debit.value.1.terminate);
        GrantWorth(g', u, used, wanted, debit.value.1.terminate);
      }
    }
  }

  /** The 32-bit price a reserve step computes for what is requested. */
  function Wanted(g: Group, u: UnitUsage): u32
    requires u.requested.Some?
  {
    U32(u.requested.value * UnitCostSeen(g.account, u.peers.firstCost))
  }

  /** What the grant of a reserve step costs. */
  function GrantPrice(g: Group, u: UnitUsage): int
    requires u.requested.Some? && u.requested.value > 0
  {
    Worth(AccountCost(g), Bought(AccountCost(g), Wanted(g, u), u.requested.value))
  }

  /** The same for a whole reserve step, whichever of its peer requests are answered and whatever wraps to 32 bits. */
  lemma StepCoveredIff(g: Group, u: UnitUsage)
    requires u.requested.Some? && u.requested.value > 0
    requires g.reserved >= -TWO_63 + 2 * TWO_32 && g.reserved + Balance(g) >= -TWO_63 + TWO_32
    requires ReserveMore(g, u).answer.Some?
    ensures var o := ReserveMore(g, u);
            var left := g.reserved - U32(OnlineVolume(u.used) * UnitCostSeen(g.account, u.peers.firstCost));
            && Worth(AccountCost(g), o.answer.value.units) == GrantPrice(g, u)
            && (GrantPrice(g, u) <= o.group.reserved <==> GrantPrice(g, u) <= if left > 0 then left else left + Balance(g))
            && (o.answer.value.terminate ==> Wanted(g, u) > o.group.reserved)
  {
    ReserveInHalves(g, u);
    ChargeNoWrap(g, u);
    assert U32(u.requested.value * UnitCostSeen(g.account, u.peers.firstCost)) == Wanted(g, u);
    hide ReserveMore, Secure, UnitCostSeen, OnlineVolume, AfterCharge, Price, Worth, Bought, Wanted, U32;
    var (g1, used) := AfterCharge(g, u);
    GrantCoveredIff(g1, u, used, Wanted(g, u));
  }

  /** Where the unit cost was learned and the price does not wrap, all that was requested is granted, and a grant with
      TERMINATE is not covered. */
  lemma TerminateUncovered(g: Group, u: UnitUsage)
    requires u.requested.Some? && u.requested.value > 0 && u.peers.firstCost
    requires g.account.Some? && g.account.value.unitCost > 0 && Price(u.requested.value, g.account.value.unitCost) < TWO_32
    requires g.reserved >= -TWO_63 + 2 * TWO_32 && g.reserved + Balance(g) >= -TWO_63 + TWO_32
    requires ReserveMore(g, u).answer.Some?
    ensures GrantPrice(g, u) == Price(u.requested.value, g.account.value.unitCost)
    ensures var o := ReserveMore(g, u); o.answer.value.terminate ==> GrantPrice(g, u) > o.group.reserved
  {
    StepCoveredIff(g, u);
    UnwrappedPrice(g, u);
    hide ReserveMore, GrantPrice, UnitCostSeen, Wanted, OnlineVolume, Price;
  }

  lemma UnwrappedPrice(g: Group, u: UnitUsage)
    requires u.requested.Some? && u.requested.value > 0 && u.peers.firstCost
    requires g.account.Some? && g.account.value.unitCost > 0 && Price(u.requested.value, g.account.value.unitCost) < TWO_32
    ensures Wanted(g, u) == GrantPrice(g, u) == Price(u.requested.value, g.account.value.unitCost)
  {
    SeenWhenProcessed(g.account);
    ExactPurchase(u.requested.value, g.account.value.unitCost);
    hide UnitCostSeen;
  }

  /** A whole reserve step that debits the account and does not terminate: exactly the requested quota is reserved
      afterwards, the account is not overdrawn, and the grant is covered, even under 32-bit wrap-around. */
  lemma StepDebitCovered(g: Group, u: UnitUsage)
    requires u.requested.Some? && u.requested.value > 0 && g.account.Some?
    requires g.reserved >= -TWO_63 + 2 * TWO_32 && g.reserved + g.account.value.quota >= -TWO_63 + TWO_32
    requires AfterCharge(g, u).0.reserved <= 0
    requires var answer := ReserveMore(g, u).answer; answer.Some? && !answer.value.terminate
    ensures var o := ReserveMore(g, u);
            && o.group.reserved == U32(u.requested.value * UnitCostSeen(g.account, u.peers.firstCost))
            && o.group.account.Some? && o.group.account.value.quota >= 0
            && Price(o.answer.value.units, g.account.value.unitCost) <= o.group.reserved
  {
    ReserveInHalves(g, u);
    ChargeNoWrap(g, u);
    hide ReserveMore, Secure, UnitCostSeen, OnlineVolume, AfterCharge, Price;
    var (g1, used) := AfterCharge(g, u);
    DebitedGrantIsCovered(g1, u, used, U32(u.requested.value * UnitCostSeen(g.account, u.peers.firstCost)));
  }

  lemma ChargeNoWrap(g: Group, u: UnitUsage)
    requires g.reserved >= -TWO_63 + TWO_32
    ensures var (g1, used) := AfterCharge(g, u);
            && used == U32(OnlineVolume(u.used) * UnitCostSeen(g.account, u.peers.firstCost))
            && g1.account == g.account && g1.reserved == g.reserved - used
  {
    hide UnitCostSeen, OnlineVolume;
  }

  lemma SeenWhenProcessed(account: Option<Account>)
    requires account.Some? && account.value.unitCost > 0
    ensures UnitCostSeen(account, true) == account.value.unitCost
  {
  }

  // ---------------------------------------------------------------- rating groups are independent

  /** The reports on one rating group, in order. */
  function Own(us: seq<UnitUsage>, rg: int32): seq<UnitUsage> {
    if us == [] then []
    else Own(us[..|us| - 1], rg) + if us[|us| - 1].ratingGroup == rg then [us[|us| - 1]] else []
  }

  /** A group only sees its own reports. */
  lemma {:induction false} OwnReportsOnly(g: Group, us: seq<UnitUsage>, rg: int32, triggers: seq<Trigger>)
    ensures RunReports(g, us, rg, triggers) == RunReports(g, Own(us, rg), rg, triggers)
  {
    hide RunReports;
    if us == [] {
      assert Own(us, rg) == us;
    } else {
      var n := |us| - 1;
      OwnReportsOnly(g, us[..n], rg, triggers);
      assert us == us[..n] + [us[n]];
      ReportsAppend(g, us[..n], us[n], rg, triggers);
      if us[n].ratingGroup == rg {
        ReportsAppend(g, Own(us[..n], rg), us[n], rg, triggers);
      } else {
        assert Own(us, rg) == Own(us[..n], rg);
      }
    }
  }

  /** Two requests that agree on a group's own reports do the same to the group. */
  lemma GroupsIndependent(g: Group, us: seq<UnitUsage>, vs: seq<UnitUsage>, rg: int32, triggers: seq<Trigger>)
    requires Own(us, rg) == Own(vs, rg)
    ensures RunReports(g, us, rg, triggers) == RunReports(g, vs, rg, triggers)
  {
    hide RunReports, Own;
    OwnReportsOnly(g, us, rg, triggers);
    OwnReportsOnly(g, vs, rg, triggers);
  }

  lemma {:induction false} OwnAppend(us: seq<UnitUsage>, vs: seq<UnitUsage>, rg: int32)
    ensures Own(us + vs, rg) == Own(us, rg) + Own(vs, rg)
  {
    if vs == [] {
      assert us + vs == us;
    } else {
      var n := |vs| - 1;
      OwnAppend(us, vs[..n], rg);
      assert (us + vs)[..|us + vs| - 1] == us + vs[..n];
    }
  }

  lemma OwnPair(a: UnitUsage, b: UnitUsage, rg: int32)
    ensures Own([a, b], rg) == (if a.ratingGroup == rg then [a] else []) + (if b.ratingGroup == rg then [b] else [])
  {
    assert [a, b][..1] == [a] && [a][..0] == [];
    assert Own([a], rg) == if a.ratingGroup == rg then [a] else [];
  }

  /** Swapping neighbouring reports on different groups changes nothing for any group. */
  lemma SwapNeighbours(g: Group, us: seq<UnitUsage>, a: UnitUsage, b: UnitUsage, vs: seq<UnitUsage>, rg: int32, triggers: seq<Trigger>)
    requires a.ratingGroup != b.ratingGroup
    ensures RunReports(g, us + [a, b] + vs, rg, triggers) == RunReports(g, us + [b, a] + vs, rg, triggers)
  {
    OwnSwapped(us, a, b, vs, rg);
    GroupsIndependent(g, us + [a, b] + vs, us + [b, a] + vs, rg, triggers);
  }

  lemma OwnSwapped(us: seq<UnitUsage>, a: UnitUsage, b: UnitUsage, vs: seq<UnitUsage>, rg: int32)
    requires a.ratingGroup != b.ratingGroup
    ensures Own(us + [a, b] + vs, rg) == Own(us + [b, a] + vs, rg)
  {
    hide Own;
    OwnAppend(us + [a, b], vs, rg);
    OwnAppend(us + [b, a], vs, rg);
    OwnAppend(us, [a, b], rg);
    OwnAppend(us, [b, a], rg);
    OwnPair(a, b, rg);
    OwnPair(b, a, rg);
  }

  /** Report k is under credit control and no later one is. */
  predicate LastUnderControl(us: seq<UnitUsage>, k: nat) {
    k < |us| && UnderCreditControl(us[k].used) && forall j :: k < j < |us| ==> !UnderCreditControl(us[j].used)
  }

  /** A partial record is asked for exactly if the last trigger is not FINAL and the last report under credit control
      requests units. */
  lemma {:induction false} PartialIff(us: seq<UnitUsage>, triggers: seq<Trigger>)
    ensures PartialAfterAll(us, triggers) <==>
            && triggers != [] && triggers[|triggers| - 1] != Final
            && exists k: nat :: LastUnderControl(us, k) && us[k].requested.Some?
  {
    hide UnderCreditControl;
    if us != [] {
      var init, n := us[..|us| - 1], |us| - 1;
      PartialIff(init, triggers);
      if UnderCreditControl(us[n].used) {
        assert LastUnderControl(us, n);
      } else {
        assert forall k: nat :: LastUnderControl(us, k) <==> k < n && LastUnderControl(init, k);
      }
    }
  }

  /** Only the decision about a partial record depends on the order of the groups. */
  lemma PartialDependsOnOrder()
    ensures exists a: UnitUsage, b: UnitUsage, triggers ::
              a.ratingGroup != b.ratingGroup && PartialAfterAll([a, b], triggers) != PartialAfterAll([b, a], triggers)
  {
    var peers := Peers(true, true, true, true);
    var used := [UsedUnit(Online, 1)];
    var a := UnitUsage(1, used, Some(5), peers);
    var b := UnitUsage(2, used, None, peers);
    assert UnderCreditControl(used) by { assert used[0].indicator.Online?; }
    assert [a, b][..1] == [a] && [b, a][..1] == [b];
    assert a.ratingGroup != b.ratingGroup && PartialAfterAll([a, b], [OtherTrigger]) != PartialAfterAll([b, a], [OtherTrigger]);
  }

  /** The request number of a group grows by its number of answers. */
  lemma {:induction false} AnswersCounted(g: Group, us: seq<UnitUsage>, rg: int32, triggers: seq<Trigger>)
    ensures var r := RunReports(g, us, rg, triggers); r.group.requestNum == U32(g.requestNum + |r.answers|)
  {
    hide AfterUsage;
    if us != [] {
      AnswersCounted(g, us[..|us| - 1], rg, triggers);
      CountedPerReport(RunReports(g, us[..|us| - 1], rg, triggers).group, us[|us| - 1], triggers);
    }
  }

  lemma CountedPerReport(g: Group, u: UnitUsage, triggers: seq<Trigger>)
    ensures var o := AfterUsage(g, u, triggers);
            o.group.requestNum == if o.answer.Some? then U32(g.requestNum + 1) else g.requestNum
  {
    hide RateReserve, RateDebit, HandleCcr, OnlineVolume, UnderCreditControl;
  }
}
