/** When a subscriber who uses no more than was granted overdraws the account, over every run. */
module ReservationSolvency {
  import opened Words
  import opened Results
  import opened Charging
  import opened ReservationLaws
  import opened ReservationExact
  import opened ReservationSteps
  import opened ReservationSafety

  /** The account is not overdrawn, and balance and reservation together pay for all units still granted. */
  predicate Solvent(g: Group, units: int) {
    && g.account.Some? && g.account.value.unitCost > 0 && g.account.value.quota >= 0
    && units >= 0 && Price(units, g.account.value.unitCost) <= Funds(g) < TWO_63
  }

  /** The report keeps the reservation going and asks for units. */
  predicate Reserves(g: Group, u: UnitUsage, triggers: seq<Trigger>) {
    OnlineUse(u.used) && Continues(g, u, triggers) && u.requested.value > 0
  }

  /** What a reserve step asks for costs no more than the funds that are left after the usage. */
  predicate Affordable(g: Group, u: UnitUsage, triggers: seq<Trigger>) {
    Reserves(g, u, triggers) ==>
      var cost := UnitCostSeen(g.account, u.peers.firstCost);
      U32(u.requested.value * cost) <= Funds(g) - U32(OnlineVolume(u.used) * cost)
  }

  /** The units the subscriber may still use after a report. */
  function UnitsLeft(units: int, u: UnitUsage, answer: Option<Granted>): int {
    if !OnlineUse(u.used) then units
    else if answer.Some? then answer.value.units
    else units - OnlineVolume(u.used)
  }

  /** Neither funds nor balance have grown beyond what either was. */
  predicate NoGain(g': Group, g: Group) {
    Funds(g') <= Funds(g) && Balance(g') <= if Balance(g) >= Funds(g) then Balance(g) else Funds(g)
  }

  // ---------------------------------------------------------------- one report

  lemma U32AtMost(x: nat)
    ensures U32(x) <= x
  {
  }

  lemma SeenAtMost(account: Option<Account>, processed: bool)
    requires account.Some? && account.value.unitCost > 0
    ensures 1 <= UnitCostSeen(account, processed) <= account.value.unitCost
  {
  }

  lemma PriceNotNegative(units: int, cost: int)
    requires units >= 0 && cost >= 0
    ensures Price(units, cost) >= 0
  {
  }

  /** Usage within the grant is paid for, and what is left of the grant stays paid for. */
  lemma UsageIsPaid(g: Group, volume: u32, units: int, cost: u32)
    requires Solvent(g, units) && volume <= units && cost <= g.account.value.unitCost
    ensures 0 <= Price(units - volume, g.account.value.unitCost) <= Funds(g) - U32(volume * cost)
  {
    hide Funds;
    var c := g.account.value.unitCost;
    MulMono(cost, c, volume);
    assert cost * volume == volume * cost && c * volume == volume * c;
    assert (units - volume) * c == units * c - volume * c;
    U32AtMost(volume * cost);
    PriceNotNegative(units - volume, c);
  }

  /** The first half of a reserve step. */
  lemma ChargeSolvent(g: Group, u: UnitUsage, units: int)
    requires Solvent(g, units) && OnlineVolume(u.used) <= units
    ensures var (g1, used) := AfterCharge(g, u);
            && used == U32(OnlineVolume(u.used) * UnitCostSeen(g.account, u.peers.firstCost))
            && g1.account == g.account && g1.reserved == g.reserved - used
            && Solvent(g1, units - OnlineVolume(u.used)) && Funds(g1) == Funds(g) - used
  {
    SeenAtMost(g.account, u.peers.firstCost);
    hide UnitCostSeen, OnlineVolume, Price;
    UsageIsPaid(g, OnlineVolume(u.used), units, UnitCostSeen(g.account, u.peers.firstCost));
  }

  /** The second half moves money between account and reservation, never overdraws, and grants no more than was priced. */
  lemma SecureMoves(g: Group, u: UnitUsage, used: u32, wanted: u32)
    requires u.requested.Some? && u.requested.value > 0 && g.account.Some? && g.account.value.unitCost > 0
    requires g.account.value.quota >= 0 && 0 <= Funds(g) < TWO_63 && (g.reserved <= 0 ==> wanted - g.reserved < TWO_63)
    ensures var o, c := Secure(g, u, used, wanted), g.account.value.unitCost;
            && o.group.account.Some? && o.group.account.value.unitCost == c
            && 0 <= o.group.account.value.quota <= g.account.value.quota && Funds(o.group) == Funds(g)
            && (o.answer.Some? ==> o.answer.value.units == Bought(Some(c), wanted, u.requested.value)
                                   && Price(o.answer.value.units, c) <= wanted)
  {
    hide Grant, Price, Bought;
    if g.reserved > 0 {
      GrantKeepsGroup(g, u, used, wanted, false);
      if Grant(g, u, used, wanted, false).answer.Some? {
        GrantWorth(g, u, used, wanted, false);
      }
    } else {
      DebitCovers(g, u.peers.account, wanted);
      hide Account1, Covered;
      var debit := Account1(g.account, u.peers.account, UpdateDebit(U64(wanted - g.reserved)));
      if debit.Some? {
        DebitedMoves(g, Covered(g, debit.value), u, used, wanted, debit.value.1.terminate);
      }
    }
  }

  lemma DebitedMoves(g: Group, g': Group, u: UnitUsage, used: u32, wanted: u32, terminate: bool)
    requires u.requested.Some? && u.requested.value > 0 && g.account.Some? && g.account.value.unitCost > 0
    requires g.account.value.quota >= 0 && 0 <= Funds(g) && g.reserved <= 0
    requires g'.account.Some? && g'.account.value.unitCost == g.account.value.unitCost
    requires terminate <==> wanted - g.reserved > g.account.value.quota
    requires g'.reserved == (if terminate then g.reserved + g.account.value.quota else wanted)
    requires g'.account.value.quota == Funds(g) - g'.reserved
    ensures var o, c := Grant(g', u, used, wanted, terminate), g.account.value.unitCost;
            && o.group.account.Some? && o.group.account.value.unitCost == c
            && 0 <= o.group.account.value.quota <= g.account.value.quota && Funds(o.group) == Funds(g)
            && (o.answer.Some? ==> o.answer.value.units == Bought(Some(c), wanted, u.requested.value)
                                   && Price(o.answer.value.units, c) <= wanted)
  {
    hide Grant, Price, Bought;
    GrantKeepsGroup(g', u, used, wanted, terminate);
    if Grant(g', u, used, wanted, terminate).answer.Some? {
      GrantWorth(g', u, used, wanted, terminate);
    }
  }

  /** A whole reserve step from a solvent group. */
  lemma ReserveMoves(g: Group, u: UnitUsage, units: int)
    requires Solvent(g, units) && OnlineVolume(u.used) <= units && u.requested.Some? && u.requested.value > 0
    requires Wanted(g, u) <= Funds(g) - U32(OnlineVolume(u.used) * UnitCostSeen(g.account, u.peers.firstCost))
             || g.account.value.quota < TWO_63 - TWO_32
    ensures var o, c := ReserveMore(g, u), g.account.value.unitCost;
            && o.group.account.Some? && o.group.account.value.unitCost == c
            && 0 <= o.group.account.value.quota <= g.account.value.quota
            && Funds(o.group) == Funds(g) - U32(OnlineVolume(u.used) * UnitCostSeen(g.account, u.peers.firstCost))
            && Solvent(o.group, units - OnlineVolume(u.used))
            && (o.answer.Some? ==> Price(o.answer.value.units, c) == GrantPrice(g, u) <= Wanted(g, u))
  {
    ChargeSolvent(g, u, units);
    ReserveInHalves(g, u);
    assert U32(u.requested.value * UnitCostSeen(g.account, u.peers.firstCost)) == Wanted(g, u);
    hide ReserveMore, Secure, UnitCostSeen, OnlineVolume, AfterCharge, Price, Wanted, Bought;
    var (g1, used) := AfterCharge(g, u);
    PriceNotNegative(units - OnlineVolume(u.used), g.account.value.unitCost);
    SecureMoves(g1, u, used, Wanted(g, u));
  }

  lemma SettleMoves(g: Group, u: UnitUsage, units: int)
    requires Solvent(g, units) && OnlineVolume(u.used) <= units
    ensures var o := Settle(g, u);
            && Solvent(o.group, if o.answer.Some? then o.answer.value.units else units - OnlineVolume(u.used))
            && NoGain(o.group, g) && o.group.account.value.unitCost == g.account.value.unitCost
            && (o.answer.Some? ==> Balance(o.group) == Funds(g) - U32(OnlineVolume(u.used) * g.account.value.unitCost))
  {
    var c: int := g.account.value.unitCost;
    var volume: int := OnlineVolume(u.used);
    hide OnlineVolume, HandleCcr, Price;
    UsageIsPaid(g, volume, units, c);
    assert Price(0, c) == 0 by { NoUnits(c); }
    ClosingExact(g.account.value.quota, g.reserved, U32(volume * c));
  }

  lemma NoUnits(cost: int)
    ensures Price(0, cost) == 0
  {
  }

  lemma SkippedSolvent(g: Group, u: UnitUsage, units: int)
    requires Solvent(g, units) && OnlineVolume(u.used) <= units && (u.requested.None? || u.requested.value <= 0)
    ensures ReserveMore(g, u) == Outcome(g, 0, None) && Solvent(g, units - OnlineVolume(u.used))
  {
    MulMono(units - OnlineVolume(u.used), units, g.account.value.unitCost);
    hide OnlineVolume;
  }

  /** Reports that reserve nothing keep the group solvent. */
  lemma OthersSolvent(g: Group, u: UnitUsage, triggers: seq<Trigger>, units: int)
    requires Solvent(g, units) && OnlineVolume(u.used) <= units && !Reserves(g, u, triggers)
    ensures var o := AfterUsage(g, u, triggers);
            Solvent(o.group, UnitsLeft(units, u, o.answer)) && o.group.account.value.unitCost == g.account.value.unitCost && NoGain(o.group, g)
  {
    hide ReserveMore, Settle, AfterUsage, Ends, Continues, OnlineVolume, OnlineUse, UnitCostSeen, Price;
    if !OnlineUse(u.used) {
      NotOnline(g, u, triggers);
    } else {
      HandledAs(g, u, triggers);
      OneOfThree(g, u, triggers);
      if Continues(g, u, triggers) {
        SkippedSolvent(g.(known := true, mode := Reserve), u, units);
      } else if Ends(g, u, triggers) {
        SettleMoves(g.(known := true, mode := Debit), u, units);
      } else {
        NoUnits(g.account.value.unitCost);
        PriceNotNegative(units, g.account.value.unitCost);
      }
    }
  }

  lemma ReserveStep(g: Group, u: UnitUsage, triggers: seq<Trigger>)
    requires Reserves(g, u, triggers)
    ensures exists g2: Group :: g2.account == g.account && g2.reserved == g.reserved && AfterUsage(g, u, triggers) == ReserveMore(g2, u)
  {
    hide ReserveMore, AfterUsage;
    HandledAs(g, u, triggers);
    assert AfterUsage(g, u, triggers) == ReserveMore(g.(known := true, mode := Reserve), u);
  }

  /** A report that reserves, from a solvent group. */
  lemma ReserveOutcome(g: Group, u: UnitUsage, triggers: seq<Trigger>, units: int)
    requires Solvent(g, units) && OnlineVolume(u.used) <= units && Reserves(g, u, triggers)
    requires Wanted(g, u) <= Funds(g) - U32(OnlineVolume(u.used) * UnitCostSeen(g.account, u.peers.firstCost))
             || g.account.value.quota < TWO_63 - TWO_32
    ensures var o, c := AfterUsage(g, u, triggers), g.account.value.unitCost;
            && o.group.account.Some? && o.group.account.value.unitCost == c && NoGain(o.group, g)
            && 0 <= o.group.account.value.quota
            && Funds(o.group) == Funds(g) - U32(OnlineVolume(u.used) * UnitCostSeen(g.account, u.peers.firstCost))
            && Solvent(o.group, units - OnlineVolume(u.used))
            && (o.answer.Some? ==> Price(o.answer.value.units, c) == GrantPrice(g, u) <= Wanted(g, u))
  {
    ReserveStep(g, u, triggers);
    hide AfterUsage, ReserveMore, OnlineVolume, UnitCostSeen, Price, OnlineUse, Continues, U32;
    var g2: Group :| g2.account == g.account && g2.reserved == g.reserved && AfterUsage(g, u, triggers) == ReserveMore(g2, u);
    ReserveMoves(g2, u, units);
  }

  /** One report by a subscriber who keeps to the grants and asks for what is affordable. */
  lemma ReportSolvent(g: Group, u: UnitUsage, triggers: seq<Trigger>, units: int)
    requires Solvent(g, units) && OnlineVolume(u.used) <= units && Affordable(g, u, triggers)
    ensures var o := AfterUsage(g, u, triggers); Solvent(o.group, UnitsLeft(units, u, o.answer))
  {
    if Reserves(g, u, triggers) {
      ReserveOutcome(g, u, triggers, units);
      GrantedNotNegative(AfterUsage(g, u, triggers).answer, g.account.value.unitCost);
      hide AfterUsage, OnlineVolume, UnitCostSeen, Price, OnlineUse, Continues, U32;
    } else {
      OthersSolvent(g, u, triggers, units);
    }
  }

  lemma GrantedNotNegative(answer: Option<Granted>, cost: u32)
    ensures answer.Some? ==> Price(answer.value.units, cost) >= 0
  {
  }

  /** The grant of an answered reserve step costs more than the funds that are left after the usage. */
  predicate Overasks(g: Group, u: UnitUsage, triggers: seq<Trigger>) {
    && Reserves(g, u, triggers) && AfterUsage(g, u, triggers).answer.Some?
    && GrantPrice(g, u) > Funds(g) - U32(OnlineVolume(u.used) * UnitCostSeen(g.account, u.peers.firstCost))
  }

  /** Room for one more request on top of the balance. */
  predicate Roomy(g: Group) { Balance(g) < TWO_63 - TWO_32 && Funds(g) < TWO_63 - TWO_32 }

  /** A subscriber who keeps to the grants stays solvent exactly as long as no answered request is granted more than the
      funds pay for. */
  lemma ReportSolventIff(g: Group, u: UnitUsage, triggers: seq<Trigger>, units: int)
    requires Solvent(g, units) && Roomy(g) && OnlineVolume(u.used) <= units
    ensures var o := AfterUsage(g, u, triggers);
            (Solvent(o.group, UnitsLeft(units, u, o.answer)) <==> !Overasks(g, u, triggers)) && Roomy(o.group)
            && o.group.account.Some? && o.group.account.value.unitCost == g.account.value.unitCost
  {
    if Reserves(g, u, triggers) {
      ReserveOutcome(g, u, triggers, units);
      hide AfterUsage, OnlineVolume, UnitCostSeen, Price, OnlineUse, Continues, U32, GrantPrice;
    } else {
      OthersSolvent(g, u, triggers, units);
      hide AfterUsage, OnlineVolume, UnitCostSeen, Price, OnlineUse, Continues, U32, GrantPrice;
    }
  }

  // ---------------------------------------------------------------- what solvency means

  /** A debit step that is answered and settles exactly the granted units. */
  predicate SettlesGrant(g: Group, v: UnitUsage, triggers: seq<Trigger>, units: int) {
    && OnlineUse(v.used) && OnlineVolume(v.used) == units && v.peers.rating && v.peers.account
    && Ends(g, v, triggers)
  }

  /** Settling the granted units leaves exactly the funds less their price. */
  lemma SettledBalance(g: Group, v: UnitUsage, triggers: seq<Trigger>, units: int)
    requires g.account.Some? && SettlesGrant(g, v, triggers, units) && Price(units, g.account.value.unitCost) < TWO_32
    requires 0 <= Balance(g) && -TWO_63 + TWO_32 <= Funds(g) < TWO_63 && g.reserved >= -TWO_63 + TWO_32
    ensures Balance(AfterUsage(g, v, triggers).group) == Funds(g) - Price(units, g.account.value.unitCost)
  {
    hide OnlineUse, OnlineVolume, AfterUsage, Ends, Settle, ReserveMore;
    HandledAs(g, v, triggers);
    SettledExactly(g.(known := true, mode := Debit), v);
  }

  lemma SettledExactly(g: Group, v: UnitUsage)
    requires g.account.Some? && v.peers.rating && v.peers.account && OnlineVolume(v.used) * g.account.value.unitCost < TWO_32
    requires 0 <= Balance(g) && -TWO_63 + TWO_32 <= Funds(g) < TWO_63 && g.reserved >= -TWO_63 + TWO_32
    ensures Balance(Settle(g, v).group) == Funds(g) - OnlineVolume(v.used) * g.account.value.unitCost
  {
    hide OnlineVolume, HandleCcr;
    var price: int := OnlineVolume(v.used) * g.account.value.unitCost;
    PriceNotNegative(OnlineVolume(v.used), g.account.value.unitCost);
    U32Same(price);
    ClosingExact(g.account.value.quota, g.reserved, price);
    hide U32, U64;
  }

  /**
   * A grant followed by using exactly what was granted, from a solvent state: the balance ends at the funds less the
   * price of the usage and of the grant, so the account is overdrawn if and only if the grant costs more than the funds
   * left after the usage.
   */
  lemma GrantOverdrawsIff(g: Group, units: int, u: UnitUsage, triggers: seq<Trigger>, v: UnitUsage, triggers': seq<Trigger>)
    requires Solvent(g, units) && Roomy(g) && OnlineVolume(u.used) <= units
    requires Reserves(g, u, triggers) && AfterUsage(g, u, triggers).answer.Some?
    requires var o := AfterUsage(g, u, triggers); SettlesGrant(o.group, v, triggers', o.answer.value.units)
    ensures var left := Funds(g) - U32(OnlineVolume(u.used) * UnitCostSeen(g.account, u.peers.firstCost));
            var balance := Balance(AfterUsage(AfterUsage(g, u, triggers).group, v, triggers').group);
            && balance == left - GrantPrice(g, u)
            && (balance < 0 <==> GrantPrice(g, u) > left)
  {
    ReserveOutcome(g, u, triggers, units);
    hide AfterUsage, OnlineVolume, UnitCostSeen, Price, OnlineUse, Continues, U32, SettlesGrant, GrantPrice;
    var o := AfterUsage(g, u, triggers);
    PriceNotNegative(units - OnlineVolume(u.used), g.account.value.unitCost);
    SettledBalance(o.group, v, triggers', o.answer.value.units);
  }

  // ---------------------------------------------------------------- runs

  /** The units granted and not yet used after a list of reports. */
  function UnitsAfter(g: Group, us: seq<UnitUsage>, rg: int32, triggers: seq<Trigger>, units: int): int {
    if us == [] then units
    else
      var before := UnitsAfter(g, us[..|us| - 1], rg, triggers, units);
      var u := us[|us| - 1];
      if u.ratingGroup != rg then before
      else UnitsLeft(before, u, AfterUsage(RunReports(g, us[..|us| - 1], rg, triggers).group, u, triggers).answer)
  }

  /** Every report on the group uses no more than granted and asks for no more than is affordable. */
  predicate Prudent(g: Group, us: seq<UnitUsage>, rg: int32, triggers: seq<Trigger>, units: int) {
    us == [] ||
    var u := us[|us| - 1];
    && Prudent(g, us[..|us| - 1], rg, triggers, units)
    && (u.ratingGroup == rg ==>
          && OnlineVolume(u.used) <= UnitsAfter(g, us[..|us| - 1], rg, triggers, units)
          && Affordable(RunReports(g, us[..|us| - 1], rg, triggers).group, u, triggers))
  }

  lemma {:induction false} ReportsSolvent(g: Group, us: seq<UnitUsage>, rg: int32, triggers: seq<Trigger>, units: int)
    requires Solvent(g, units) && Prudent(g, us, rg, triggers, units)
    ensures Solvent(RunReports(g, us, rg, triggers).group, UnitsAfter(g, us, rg, triggers, units))
  {
    hide AfterUsage, Affordable, Solvent, OnlineVolume, UnitsLeft;
    if us != [] {
      var init := us[..|us| - 1];
      ReportsSolvent(g, init, rg, triggers, units);
      if us[|us| - 1].ratingGroup == rg {
        ReportSolvent(RunReports(g, init, rg, triggers).group, us[|us| - 1], triggers, UnitsAfter(g, init, rg, triggers, units));
      }
    }
  }

  function UnitsAfterEvents(g: Group, es: seq<Event>, rg: int32, units: int): int {
    if es == [] then units
    else
      var before := UnitsAfterEvents(g, es[..|es| - 1], rg, units);
      var e := es[|es| - 1];
      if e.Request? then UnitsAfter(RunEvents(g, es[..|es| - 1], rg).group, e.us, rg, e.triggers, before) else before
  }

  /** At a new unit cost the funds still pay for the units granted. */
  predicate StaysPaid(g: Group, cost: u32, units: int) { cost > 0 && Price(units, cost) <= Funds(g) }

  /** A run of prudent requests and recharges, and of tariff changes at which the granted units stay paid for. */
  predicate PrudentRun(g: Group, es: seq<Event>, rg: int32, units: int) {
    es == [] ||
    var e := es[|es| - 1];
    && PrudentRun(g, es[..|es| - 1], rg, units)
    && (e.Request? ==> Prudent(RunEvents(g, es[..|es| - 1], rg).group, e.us, rg, e.triggers, UnitsAfterEvents(g, es[..|es| - 1], rg, units)))
    && (e.Retariff? && e.rg == rg ==>
          StaysPaid(RunEvents(g, es[..|es| - 1], rg).group, e.cost, UnitsAfterEvents(g, es[..|es| - 1], rg, units)))
  }

  /** Prudent runs never overdraw the account, and balance and reservation always pay for the granted units. */
  lemma {:induction false} RunSolvent(g: Group, es: seq<Event>, rg: int32, units: int)
    requires Solvent(g, units) && PrudentRun(g, es, rg, units)
    ensures Solvent(RunEvents(g, es, rg).group, UnitsAfterEvents(g, es, rg, units))
  {
    hide RunReports, Prudent, UnitsAfter;
    if es != [] {
      var init := es[..|es| - 1];
      RunSolvent(g, init, rg, units);
      var e := es[|es| - 1];
      if e.Request? {
        ReportsSolvent(RunEvents(g, init, rg).group, e.us, rg, e.triggers, UnitsAfterEvents(g, init, rg, units));
      } else if e.Retariff? && e.rg == rg {
        RetariffedIff(RunEvents(g, init, rg).group, rg, e.cost, UnitsAfterEvents(g, init, rg, units));
      }
    }
  }

  // ---------------------------------------------------------------- runs, exactly

  /** Every report on the group uses no more than granted. */
  predicate WithinGrants(g: Group, us: seq<UnitUsage>, rg: int32, triggers: seq<Trigger>, units: int) {
    us == [] ||
    var u := us[|us| - 1];
    && WithinGrants(g, us[..|us| - 1], rg, triggers, units)
    && (u.ratingGroup == rg ==> OnlineVolume(u.used) <= UnitsAfter(g, us[..|us| - 1], rg, triggers, units))
  }

  /** No answered request on the group is granted more than the funds pay for. */
  predicate NeverOverasks(g: Group, us: seq<UnitUsage>, rg: int32, triggers: seq<Trigger>) {
    us == [] ||
    var u := us[|us| - 1];
    && NeverOverasks(g, us[..|us| - 1], rg, triggers)
    && (u.ratingGroup == rg ==> !Overasks(RunReports(g, us[..|us| - 1], rg, triggers).group, u, triggers))
  }

  /** The group is solvent after every report. */
  predicate StaysSolvent(g: Group, us: seq<UnitUsage>, rg: int32, triggers: seq<Trigger>, units: int) {
    && Solvent(RunReports(g, us, rg, triggers).group, UnitsAfter(g, us, rg, triggers, units))
    && (us != [] ==> StaysSolvent(g, us[..|us| - 1], rg, triggers, units))
  }

  lemma {:induction false} ReportsSolventIff(g: Group, us: seq<UnitUsage>, rg: int32, triggers: seq<Trigger>, units: int)
    requires Solvent(g, units) && Roomy(g) && WithinGrants(g, us, rg, triggers, units)
    ensures StaysSolvent(g, us, rg, triggers, units) <==> NeverOverasks(g, us, rg, triggers)
    ensures StaysSolvent(g, us, rg, triggers, units) ==> Roomy(RunReports(g, us, rg, triggers).group)
  {
    hide AfterUsage, Overasks, Solvent, OnlineVolume, UnitsLeft, Roomy;
    if us != [] {
      var init := us[..|us| - 1];
      ReportsSolventIff(g, init, rg, triggers, units);
      if us[|us| - 1].ratingGroup == rg && StaysSolvent(g, init, rg, triggers, units) {
        ReportSolventIff(RunReports(g, init, rg, triggers).group, us[|us| - 1], triggers, UnitsAfter(g, init, rg, triggers, units));
      }
    }
  }

  predicate WithinGrantsRun(g: Group, es: seq<Event>, rg: int32, units: int) {
    es == [] ||
    var e := es[|es| - 1];
    && WithinGrantsRun(g, es[..|es| - 1], rg, units)
    && (e.Request? ==> WithinGrants(RunEvents(g, es[..|es| - 1], rg).group, e.us, rg, e.triggers, UnitsAfterEvents(g, es[..|es| - 1], rg, units)))
  }

  predicate NeverOverasksRun(g: Group, es: seq<Event>, rg: int32, units: int) {
    es == [] ||
    var before, e := RunEvents(g, es[..|es| - 1], rg).group, es[|es| - 1];
    && NeverOverasksRun(g, es[..|es| - 1], rg, units)
    && (e.Request? ==> NeverOverasks(before, e.us, rg, e.triggers))
    && (e.Retariff? && e.rg == rg ==> StaysPaid(before, e.cost, UnitsAfterEvents(g, es[..|es| - 1], rg, units)))
  }

  predicate StaysSolventRun(g: Group, es: seq<Event>, rg: int32, units: int) {
    && Solvent(RunEvents(g, es, rg).group, UnitsAfterEvents(g, es, rg, units))
    && (es != [] ==>
          var before, e := RunEvents(g, es[..|es| - 1], rg).group, es[|es| - 1];
          && StaysSolventRun(g, es[..|es| - 1], rg, units)
          && (e.Request? ==> StaysSolvent(before, e.us, rg, e.triggers, UnitsAfterEvents(g, es[..|es| - 1], rg, units))))
  }

  lemma RetariffedIff(g: Group, rg: int32, cost: u32, units: int)
    requires Solvent(g, units)
    ensures Solvent(Happen(g, Retariff(rg, cost), rg).group, units) <==> StaysPaid(g, cost, units)
    ensures Roomy(g) ==> Roomy(Happen(g, Retariff(rg, cost), rg).group)
  {
    hide Price;
  }

  /** Over every run within the grants, the subscriber stays solvent throughout if and only if no answered request is ever
      granted more than the funds left after its usage pay for, and no new tariff makes outstanding units cost more. */
  lemma {:induction false} RunSolventIff(g: Group, es: seq<Event>, rg: int32, units: int)
    requires Solvent(g, units) && Roomy(g) && WithinGrantsRun(g, es, rg, units)
    ensures StaysSolventRun(g, es, rg, units) <==> NeverOverasksRun(g, es, rg, units)
    ensures StaysSolventRun(g, es, rg, units) ==> Roomy(RunEvents(g, es, rg).group)
  {
    hide RunReports, NeverOverasks, UnitsAfter, WithinGrants, StaysSolvent, Overasks, Solvent, Roomy, StaysPaid;
    if es != [] {
      var init, e := es[..|es| - 1], es[|es| - 1];
      RunSolventIff(g, init, rg, units);
      if StaysSolventRun(g, init, rg, units) {
        EventSolventIff(RunEvents(g, init, rg).group, e, rg, UnitsAfterEvents(g, init, rg, units));
      }
    }
  }

  /** One event of such a run. */
  lemma EventSolventIff(g: Group, e: Event, rg: int32, units: int)
    requires Solvent(g, units) && Roomy(g) && (e.Request? ==> WithinGrants(g, e.us, rg, e.triggers, units))
    ensures var g' := Happen(g, e, rg).group;
            var units' := if e.Request? then UnitsAfter(g, e.us, rg, e.triggers, units) else units;
            var stays := Solvent(g', units') && (e.Request? ==> StaysSolvent(g, e.us, rg, e.triggers, units));
            && (stays <==> (e.Request? ==> NeverOverasks(g, e.us, rg, e.triggers))
                           && (e.Retariff? && e.rg == rg ==> StaysPaid(g, e.cost, units)))
            && (stays ==> Roomy(g'))
  {
    hide RunReports, NeverOverasks, UnitsAfter, WithinGrants, StaysSolvent, Price;
    if e.Request? {
      ReportsSolventIff(g, e.us, rg, e.triggers, units);
      if StaysSolvent(g, e.us, rg, e.triggers, units) {
        SolventAtEnd(g, e.us, rg, e.triggers, units);
      }
    } else if e.Retariff? && e.rg == rg {
      RetariffedIff(g, rg, e.cost, units);
    }
  }

  lemma SolventAtEnd(g: Group, us: seq<UnitUsage>, rg: int32, triggers: seq<Trigger>, units: int)
    requires StaysSolvent(g, us, rg, triggers, units)
    ensures Solvent(RunReports(g, us, rg, triggers).group, UnitsAfter(g, us, rg, triggers, units))
  {
  }

  lemma OneContainer(volume: int32)
    ensures volume >= 0 ==> OnlineVolume([UsedUnit(Online, volume)]) == volume
    ensures UnderCreditControl([UsedUnit(Online, volume)])
  {
    var used := [UsedUnit(Online, volume)];
    assert used[..0] == [] && used[0].indicator.Online?;
  }

  lemma OverGrantCosts(g: Group, u: UnitUsage)
    requires g == Group(Some(Account(100, 1)), true, 0, Reserve, 1, 0)
    requires u == UnitUsage(1, [UsedUnit(Online, 0)], Some(150), Peers(true, true, true, true))
    ensures AfterCharge(g, u) == (g, 0) && UnitCostSeen(g.account, true) == 1
  {
    OneContainer(0);
    hide OnlineVolume;
  }

  lemma OverGrantSecures(g: Group, u: UnitUsage)
    requires g == Group(Some(Account(100, 1)), true, 0, Reserve, 1, 0)
    requires u == UnitUsage(1, [UsedUnit(Online, 0)], Some(150), Peers(true, true, true, true))
    ensures Secure(g, u, 0, 150) == Outcome(Group(Some(Account(0, 1)), true, 100, Debit, 1, 1), 0, Some(Granted(1, 150, true)))
  {
    assert Account1(g.account, true, UpdateDebit(150)) == Some((Account(0, 1), CcAnswer(100, true)));
    hide Account1, HandleCcr;
    assert RateReserve(Some(Account(0, 1)), 150) == Some(Rated(150, 150, 1));
    assert UnitCostSeen(Some(Account(0, 1)), true) == 1;
    hide RateReserve, UnitCostSeen;
  }

  /** A request for 150 units on a balance that pays for 100 is granted 150 units. */
  lemma OverGrant(g: Group, u: UnitUsage)
    requires g == Group(Some(Account(100, 1)), true, 0, Reserve, 1, 0)
    requires u == UnitUsage(1, [UsedUnit(Online, 0)], Some(150), Peers(true, true, true, true))
    ensures AfterUsage(g, u, []) == Outcome(Group(Some(Account(0, 1)), true, 100, Debit, 1, 1), 0, Some(Granted(1, 150, true)))
  {
    OneContainer(0);
    ReserveInHalves(g, u);
    OverGrantCosts(g, u);
    OverGrantSecures(g, u);
    hide OnlineVolume, UnderCreditControl, ReserveMore, Secure, AfterCharge, UnitCostSeen;
  }

  /** TERMINATE with a covered grant: 12 units are asked for on a balance of 11 at a tariff of 5 that is not learned in
      time, so 12 is priced, 11 reserved, and the two units granted cost 10. */
  lemma TerminateCovered(u: UnitUsage)
    requires u == UnitUsage(1, [UsedUnit(Online, 0)], Some(12), Peers(false, true, true, true))
    ensures var o := ReserveMore(Group(Some(Account(11, 5)), true, 0, Reserve, 5, 0), u);
            o.answer == Some(Granted(1, 2, true)) && o.group.reserved == 11
  {
    var g := Group(Some(Account(11, 5)), true, 0, Reserve, 5, 0);
    hide OnlineVolume, ReserveMore, Secure, UnitCostSeen, AfterCharge, U32;
    ReserveInHalves(g, u);
    TerminateCoveredCharge(g, u);
    TerminateCoveredSecures(g.(unitCost := 1), u);
  }

  lemma TerminateCoveredCharge(g: Group, u: UnitUsage)
    requires g == Group(Some(Account(11, 5)), true, 0, Reserve, 5, 0)
    requires u == UnitUsage(1, [UsedUnit(Online, 0)], Some(12), Peers(false, true, true, true))
    ensures U32(u.requested.value * UnitCostSeen(g.account, u.peers.firstCost)) == 12
    ensures AfterCharge(g, u) == (g.(unitCost := 1), 0)
  {
    OneContainer(0);
    assert UnitCostSeen(g.account, false) == 1;
    hide OnlineVolume, UnitCostSeen;
  }

  lemma TerminateCoveredSecures(g: Group, u: UnitUsage)
    requires g == Group(Some(Account(11, 5)), true, 0, Reserve, 1, 0)
    requires u == UnitUsage(1, [UsedUnit(Online, 0)], Some(12), Peers(false, true, true, true))
    ensures var o := Secure(g, u, 0, 12); o.answer == Some(Granted(1, 2, true)) && o.group.reserved == 11
  {
    assert Account1(g.account, true, UpdateDebit(12)) == Some((Account(0, 5), CcAnswer(11, true)));
    hide Account1, HandleCcr;
    assert RateReserve(Some(Account(0, 5)), 12) == Some(Rated(2, 10, 5));
    hide RateReserve, UnitCostSeen;
  }

  lemma OverUse(u: UnitUsage)
    requires u == UnitUsage(1, [UsedUnit(Online, 150)], None, Peers(true, true, true, true))
    ensures AfterUsage(Group(Some(Account(0, 1)), true, 100, Debit, 1, 1), u, []).group ==
            Group(Some(Account(-50, 1)), true, 0, Debit, 1, 2)
  {
    OneContainer(150);
    hide OnlineVolume, UnderCreditControl;
  }

  /** A run in which a subscriber who uses exactly what was granted ends overdrawn. */
  lemma GrantOverdraws()
    ensures exists g, u: UnitUsage, v: UnitUsage ::
              && Solvent(g, 0)
              && u.ratingGroup == v.ratingGroup == 1
              && OnlineVolume(u.used) == 0
              && OnlineVolume(v.used) == UnitsAfter(g, [u], 1, [], 0)
              && Balance(RunReports(g, [u, v], 1, []).group) < 0
  {
    var g := Group(Some(Account(100, 1)), true, 0, Reserve, 1, 0);
    var u := UnitUsage(1, [UsedUnit(Online, 0)], Some(150), Peers(true, true, true, true));
    var v := UnitUsage(1, [UsedUnit(Online, 150)], None, Peers(true, true, true, true));
    OverGrant(g, u);
    OverUse(v);
    OneContainer(0);
    OneContainer(150);
    hide AfterUsage, OnlineVolume, UnderCreditControl;
    assert [u, v][..1] == [u] && [u][..0] == [];
    assert Solvent(g, 0) && UnitsAfter(g, [u], 1, [], 0) == 150;
    assert Balance(RunReports(g, [u, v], 1, []).group) == -50;
  }
}
