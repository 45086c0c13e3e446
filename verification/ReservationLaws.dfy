/** Conservation of money, settlement, safety of grants, and independence of rating groups, over every run. */
module ReservationLaws {
  import opened Words
  import opened Results
  import opened Charging

  // ---------------------------------------------------------------- conservation modulo the word size

  /** What the subscriber still owns for a rating group: the balance and the reservation taken from it. */
  function Funds(g: Group): int {
    (if g.account.Some? then g.account.value.quota else 0) + g.reserved
  }

  /** Equality of 64-bit words. */
  predicate Same64(a: int, b: int) { (a - b) % TWO_64 == 0 }

  lemma Same64ByCarry(a: int, b: int, k: int)
    requires a == b + k * TWO_64
    ensures Same64(a, b)
  {
  }

  lemma Same64Trans(a: int, b: int, c: int)
    requires Same64(a, b) && Same64(b, c)
    ensures Same64(a, c)
  {
    Same64ByCarry(a, c, (a - b) / TWO_64 + (b - c) / TWO_64);
  }

  lemma Same64Shift(a: int, b: int, c: int)
    requires Same64(a, b)
    ensures Same64(a + c, b + c)
  {
  }

  /** How many words are carried away by wrapping. */
  function Carry(x: int): int { (x + TWO_63) / TWO_64 }

  lemma I64Carry(x: int)
    ensures I64(x) == x - Carry(x) * TWO_64
  {
  }

  lemma U64Carry(x: int)
    ensures U64(x) == x - (x / TWO_64) * TWO_64
  {
  }

  lemma SameWord(a: int64, b: int)
    requires Same64(a, b)
    ensures a == I64(b)
  {
    I64Carry(b);
  }

  /** A debit to the account moves exactly what the reservation gains. */
  lemma UpdateDebitMoves(quota: int64, reserved: int64, units: u64)
    ensures var (quota', answer) := HandleCcr(quota, UpdateDebit(units));
            Same64(quota' + I64(reserved + I64(answer.granted)), quota + reserved)
  {
    var r := Requested(UpdateDebit(units), quota);
    I64Carry(quota - r);
    U64Carry(r);
    I64Carry(U64(r));
    I64Carry(reserved + I64(U64(r)));
    Same64ByCarry(I64(quota - r) + I64(reserved + I64(U64(r))), quota + reserved,
                  -Carry(quota - r) - r / TWO_64 - Carry(U64(r)) - Carry(reserved + I64(U64(r))));
  }

  /** Closing a reservation leaves the account with the balance and the reservation less the price. */
  lemma ClosingMoves(quota: int64, reserved: int64, price: u32)
    ensures var a := if price < reserved then Refund(U64(reserved - price)) else TerminationDebit(U64(price - reserved));
            Same64(HandleCcr(quota, a).0 + price, quota + reserved)
  {
    if price < reserved {
      var x := reserved - price;
      U64Carry(x);
      I64Carry(U64(x));
      I64Carry(quota + I64(U64(x)));
      Same64ByCarry(I64(quota + I64(U64(x))) + price, quota + reserved, -(x / TWO_64) - Carry(U64(x)) - Carry(quota + I64(U64(x))));
    } else {
      var x := price - reserved;
      U64Carry(x);
      I64Carry(U64(x));
      I64Carry(quota - I64(U64(x)));
      Same64ByCarry(I64(quota - I64(U64(x))) + price, quota + reserved, x / TWO_64 + Carry(U64(x)) - Carry(quota - I64(U64(x))));
    }
  }

  lemma GrantKeepsFunds(g: Group, u: UnitUsage, used: u32, wanted: u32, terminate: bool)
    requires u.requested.Some? && u.requested.value > 0
    ensures Grant(g, u, used, wanted, terminate).charged == used
    ensures Funds(Grant(g, u, used, wanted, terminate).group) == Funds(g)
  {
    hide RateReserve, UnitCostSeen;
  }

  /** The group after the account has covered a debit. */
  function Covered(g: Group, debit: (Account, CcAnswer)): Group {
    g.(account := Some(debit.0), reserved := I64(g.reserved + I64(debit.1.granted)),
       mode := if debit.1.terminate then Debit else Reserve)
  }

  lemma CoverKeepsFunds(g: Group, processed: bool, units: u64)
    ensures var debit := Account1(g.account, processed, UpdateDebit(units));
            debit.Some? ==> Same64(Funds(Covered(g, debit.value)), Funds(g))
  {
    hide HandleCcr;
    if processed && g.account.Some? {
      UpdateDebitMoves(g.account.value.quota, g.reserved, units);
    }
  }

  lemma ChargeMoves(g: Group, cost: u32, used: u32)
    ensures Same64(Funds(g.(unitCost := cost, reserved := I64(g.reserved - used))) + used, Funds(g))
  {
    I64Carry(g.reserved - used);
    Same64ByCarry(Funds(g.(unitCost := cost, reserved := I64(g.reserved - used))) + used, Funds(g), -Carry(g.reserved - used));
  }

  /** Funds survive being moved to another group state with equal funds, whatever was charged before. */
  lemma ThenMoves(g: Group, g1: Group, g2: Group, used: u32)
    requires Same64(Funds(g1) + used, Funds(g)) && Same64(Funds(g2), Funds(g1))
    ensures Same64(Funds(g2) + used, Funds(g))
  {
    hide Funds;
    Same64Shift(Funds(g2), Funds(g1), used);
    Same64Trans(Funds(g2) + used, Funds(g1) + used, Funds(g));
  }

  /** The second half of a reserve step, after the usage was charged. */
  function Secure(g: Group, u: UnitUsage, used: u32, wanted: u32): Outcome
    requires u.requested.Some? && u.requested.value > 0
  {
    if g.reserved > 0 then Grant(g, u, used, wanted, false)
    else
      var debit := Account1(g.account, u.peers.account, UpdateDebit(U64(wanted - g.reserved)));
      if debit.None? then Outcome(g, used, None) else Grant(Covered(g, debit.value), u, used, wanted, debit.value.1.terminate)
  }

  /** The first half of a reserve step. */
  function AfterCharge(g: Group, u: UnitUsage): (Group, u32) {
    var cost := UnitCostSeen(g.account, u.peers.firstCost);
    var used := U32(OnlineVolume(u.used) * cost);
    (g.(unitCost := cost, reserved := I64(g.reserved - used)), used)
  }

  lemma ReserveInHalves(g: Group, u: UnitUsage)
    requires u.requested.Some? && u.requested.value > 0
    ensures var (g1, used) := AfterCharge(g, u);
            ReserveMore(g, u) == Secure(g1, u, used, U32(u.requested.value * UnitCostSeen(g.account, u.peers.firstCost)))
  {
    hide RateReserve, UnitCostSeen, OnlineVolume, Account1, Grant;
  }

  lemma SecureKeepsFunds(g: Group, u: UnitUsage, used: u32, wanted: u32)
    requires u.requested.Some? && u.requested.value > 0
    ensures var o := Secure(g, u, used, wanted); o.charged == used && Same64(Funds(o.group), Funds(g))
  {
    hide Account1, Grant, Covered, Funds;
    if g.reserved > 0 {
      GrantKeepsFunds(g, u, used, wanted, false);
    } else {
      var debit := Account1(g.account, u.peers.account, UpdateDebit(U64(wanted - g.reserved)));
      CoverKeepsFunds(g, u.peers.account, U64(wanted - g.reserved));
      if debit.Some? {
        GrantKeepsFunds(Covered(g, debit.value), u, used, wanted, debit.value.1.terminate);
      }
    }
  }

  lemma ReserveConserves(g: Group, u: UnitUsage)
    ensures var o := ReserveMore(g, u); Same64(Funds(o.group) + o.charged, Funds(g))
  {
    if u.requested.Some? && u.requested.value > 0 {
      hide ReserveMore, Secure, Same64, Funds, UnitCostSeen, OnlineVolume, U32, I64;
      ReserveInHalves(g, u);
      var (g1, used) := AfterCharge(g, u);
      var wanted := U32(u.requested.value * UnitCostSeen(g.account, u.peers.firstCost));
      ChargeMoves(g, UnitCostSeen(g.account, u.peers.firstCost), used);
      SecureKeepsFunds(g1, u, used, wanted);
      ThenMoves(g, g1, Secure(g1, u, used, wanted).group, used);
    } else {
      Same64ByCarry(Funds(g), Funds(g), 0);
    }
  }

  lemma SettleConserves(g: Group, u: UnitUsage)
    ensures var o := Settle(g, u); Same64(Funds(o.group) + o.charged, Funds(g))
  {
    hide RateDebit, OnlineVolume, HandleCcr;
    if u.peers.rating && u.peers.account && g.account.Some? {
      ClosingMoves(g.account.value.quota, g.reserved, RateDebit(g.account, OnlineVolume(u.used)).price);
    }
  }

  /** One report, whatever is processed and whatever wraps: funds fall by exactly the price charged. */
  lemma ReportConserves(g: Group, u: UnitUsage, triggers: seq<Trigger>)
    ensures var o := AfterUsage(g, u, triggers); Same64(Funds(o.group) + o.charged, Funds(g))
  {
    hide ReserveMore, Settle, ModeFor;
    var g1 := if g.known then g else g.(known := true, mode := Reserve);
    var g2 := g1.(mode := ModeFor(g1, u, triggers));
    ReserveConserves(g2, u);
    SettleConserves(g2, u);
  }

  // ---------------------------------------------------------------- runs

  /** What can happen to a rating group: a request, a recharge notification, a change of tariff. */
  datatype Event = Request(us: seq<UnitUsage>, triggers: seq<Trigger>) | Recharge(rg: int32) | Retariff(rg: int32, cost: u32)

  datatype Run = Run(group: Group, charged: nat)

  function Happen(g: Group, e: Event, rg: int32): Run {
    match e
    case Request(us, triggers) =>
      var r := RunReports(g, us, rg, triggers);
      Run(r.group, r.charged)
    case Recharge(r) => Run(if r == rg then g.(mode := Reserve) else g, 0)
    case Retariff(r, cost) =>
      Run(if r == rg && g.account.Some? then g.(account := Some(g.account.value.(unitCost := cost))) else g, 0)
  }

  function RunEvents(g: Group, es: seq<Event>, rg: int32): Run {
    if es == [] then Run(g, 0)
    else
      var before := RunEvents(g, es[..|es| - 1], rg);
      var last := Happen(before.group, es[|es| - 1], rg);
      Run(last.group, before.charged + last.charged)
  }

  lemma {:induction false} ReportsConserve(g: Group, us: seq<UnitUsage>, rg: int32, triggers: seq<Trigger>)
    ensures var r := RunReports(g, us, rg, triggers); Same64(Funds(r.group) + r.charged, Funds(g))
  {
    hide AfterUsage;
    if us != [] {
      var before := RunReports(g, us[..|us| - 1], rg, triggers);
      ReportsConserve(g, us[..|us| - 1], rg, triggers);
      var u := us[|us| - 1];
      if u.ratingGroup == rg {
        ReportConserves(before.group, u, triggers);
        var o := AfterUsage(before.group, u, triggers);
        Same64Shift(Funds(o.group) + o.charged, Funds(before.group), before.charged);
        Same64Trans(Funds(o.group) + o.charged + before.charged, Funds(before.group) + before.charged, Funds(g));
      }
    }
  }

  /** Over every run of requests, recharges and tariff changes, with any pattern of unprocessed peer
      requests and any wrap-around, balance + reservation + total charged is one 64-bit constant. */
  lemma {:induction false} RunConserves(g: Group, es: seq<Event>, rg: int32)
    ensures var r := RunEvents(g, es, rg); Same64(Funds(r.group) + r.charged, Funds(g))
  {
    hide RunReports;
    if es != [] {
      var before := RunEvents(g, es[..|es| - 1], rg);
      RunConserves(g, es[..|es| - 1], rg);
      var e := es[|es| - 1];
      if e.Request? {
        ReportsConserve(before.group, e.us, rg, e.triggers);
      }
      var last := Happen(before.group, e, rg);
      Same64Shift(Funds(last.group) + last.charged, Funds(before.group), before.charged);
      Same64Trans(Funds(last.group) + last.charged + before.charged, Funds(before.group) + before.charged, Funds(g));
    }
  }
}
