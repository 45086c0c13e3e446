/** Conservation in plain integers: a window in which no 64-bit operation of a run wraps around. */
module ReservationExact {
  import opened Words
  import opened Charging
  import opened ReservationLaws

  function Balance(g: Group): int { if g.account.Some? then g.account.value.quota else 0 }

  /** Balance and funds lie between two bounds around zero. */
  predicate Within(g: Group, lo: int, hi: int) {
    lo <= 0 <= hi && lo <= Balance(g) <= hi && lo <= Funds(g) <= hi
  }

  /** A window narrow enough for one report. */
  predicate Narrow(lo: int, hi: int) { hi - lo + 3 * TWO_32 < TWO_63 }

  lemma ChargeExact(g: Group, u: UnitUsage, lo: int, hi: int)
    requires Within(g, lo, hi) && Narrow(lo, hi)
    ensures var (g1, used) := AfterCharge(g, u);
            g1.reserved == g.reserved - used && g1.account == g.account && Within(g1, lo - TWO_32, hi)
  {
    hide UnitCostSeen, OnlineVolume;
  }

  /** A signed word in range is itself, also by way of an unsigned one. */
  lemma InRange(x: int)
    requires -TWO_63 <= x < TWO_63
    ensures I64(x) == x && I64(U64(x)) == x
  {
    if x < 0 {
      assert U64(x) == x + TWO_64;
    } else {
      assert U64(x) == x;
    }
  }

  lemma DebitExact(quota: int64, reserved: int64, wanted: u32)
    requires reserved <= 0 && wanted - reserved < TWO_63 && -TWO_63 <= quota + reserved
    ensures var (quota', answer) := HandleCcr(quota, UpdateDebit(U64(wanted - reserved)));
            var r := if answer.terminate then quota else wanted - reserved;
            quota' == quota - r && I64(reserved + I64(answer.granted)) == reserved + r && (answer.terminate <==> wanted - reserved > quota)
  {
    hide I64, U64;
    var request := wanted - reserved;
    var r := if request > quota then quota else request;
    InRange(request);
    InRange(r);
    InRange(quota - r);
    InRange(reserved + r);
  }

  lemma CoverExact(g: Group, processed: bool, wanted: u32, lo: int, hi: int)
    requires g.reserved <= 0 && Within(g, lo, hi) && hi - lo + TWO_32 < TWO_63
    ensures var debit := Account1(g.account, processed, UpdateDebit(U64(wanted - g.reserved)));
            debit.Some? ==> Funds(Covered(g, debit.value)) == Funds(g) && Within(Covered(g, debit.value), lo, hi)
  {
    hide HandleCcr;
    if g.account.Some? {
      DebitExact(g.account.value.quota, g.reserved, wanted);
    }
  }

  lemma GrantWithin(g: Group, u: UnitUsage, used: u32, wanted: u32, terminate: bool, lo: int, hi: int)
    requires u.requested.Some? && u.requested.value > 0 && Within(g, lo, hi)
    ensures var o := Grant(g, u, used, wanted, terminate);
            Within(o.group, lo, hi) && Funds(o.group) == Funds(g) && o.charged == used
  {
    hide RateReserve, UnitCostSeen;
  }

  lemma SecureExact(g: Group, u: UnitUsage, used: u32, wanted: u32, lo: int, hi: int)
    requires u.requested.Some? && u.requested.value > 0 && Within(g, lo, hi) && hi - lo + TWO_32 < TWO_63
    ensures var o := Secure(g, u, used, wanted);
            Within(o.group, lo, hi) && Funds(o.group) == Funds(g) && o.charged == used
  {
    hide Account1, Grant, Covered, Funds, Within;
    if g.reserved > 0 {
      GrantWithin(g, u, used, wanted, false, lo, hi);
    } else {
      var debit := Account1(g.account, u.peers.account, UpdateDebit(U64(wanted - g.reserved)));
      CoverExact(g, u.peers.account, wanted, lo, hi);
      if debit.Some? {
        GrantWithin(Covered(g, debit.value), u, used, wanted, debit.value.1.terminate, lo, hi);
      }
    }
  }

  lemma ReserveExact(g: Group, u: UnitUsage, lo: int, hi: int)
    requires Within(g, lo, hi) && Narrow(lo, hi)
    ensures var o := ReserveMore(g, u); Funds(o.group) + o.charged == Funds(g) && Within(o.group, lo - TWO_32, hi)
  {
    if u.requested.Some? && u.requested.value > 0 {
      ReserveInHalves(g, u);
      ChargeExact(g, u, lo, hi);
      hide ReserveMore, Secure, UnitCostSeen, OnlineVolume;
      var (g1, used) := AfterCharge(g, u);
      SecureExact(g1, u, used, U32(u.requested.value * UnitCostSeen(g.account, u.peers.firstCost)), lo - TWO_32, hi);
    }
  }

  /** A refund or a debit closes the reservation exactly. */
  lemma ClosingExact(quota: int64, reserved: int64, price: u32)
    requires reserved - price >= -TWO_63 && -TWO_63 <= quota + reserved - price < TWO_63
    ensures var a := if price < reserved then Refund(U64(reserved - price)) else TerminationDebit(U64(price - reserved));
            HandleCcr(quota, a).0 == quota + reserved - price
  {
    ClosingMoves(quota, reserved, price);
  }

  lemma SettleExact(g: Group, u: UnitUsage, lo: int, hi: int)
    requires Within(g, lo, hi) && Narrow(lo, hi)
    ensures var o := Settle(g, u); Funds(o.group) + o.charged == Funds(g) && Within(o.group, lo - TWO_32, hi)
  {
    hide RateDebit, OnlineVolume, HandleCcr;
    if u.peers.rating && u.peers.account && g.account.Some? {
      ClosingExact(g.account.value.quota, g.reserved, RateDebit(g.account, OnlineVolume(u.used)).price);
    }
  }

  lemma ReportExact(g: Group, u: UnitUsage, triggers: seq<Trigger>, lo: int, hi: int)
    requires Within(g, lo, hi) && Narrow(lo, hi)
    ensures var o := AfterUsage(g, u, triggers); Funds(o.group) + o.charged == Funds(g) && Within(o.group, lo - TWO_32, hi)
  {
    hide ReserveMore, Settle, ModeFor;
    var g1 := if g.known then g else g.(known := true, mode := Reserve);
    var g2 := g1.(mode := ModeFor(g1, u, triggers));
    ReserveExact(g2, u, lo, hi);
    SettleExact(g2, u, lo, hi);
  }

  lemma {:induction false} ReportsExact(g: Group, us: seq<UnitUsage>, rg: int32, triggers: seq<Trigger>, lo: int, hi: int)
    requires Within(g, lo, hi) && Narrow(lo - |us| * TWO_32, hi)
    ensures var r := RunReports(g, us, rg, triggers);
            Funds(r.group) + r.charged == Funds(g) && Within(r.group, lo - |us| * TWO_32, hi)
  {
    hide AfterUsage;
    if us != [] {
      var before := RunReports(g, us[..|us| - 1], rg, triggers);
      ReportsExact(g, us[..|us| - 1], rg, triggers, lo, hi);
      ReportExact(before.group, us[|us| - 1], triggers, lo - (|us| - 1) * TWO_32, hi);
    }
  }

  /** How many usage reports the requests of a run carry. */
  function ReportCount(es: seq<Event>): nat {
    if es == [] then 0
    else ReportCount(es[..|es| - 1]) + if es[|es| - 1].Request? then |es[|es| - 1].us| else 0
  }

  /** If the bounds leave 2^32 of room for every report, balance + reservation + total charged is constant
      over the whole run, in plain integers: nothing is lost to wrap-around. */
  lemma {:induction false} RunExact(g: Group, es: seq<Event>, rg: int32, lo: int, hi: int)
    requires Within(g, lo, hi) && Narrow(lo - ReportCount(es) * TWO_32, hi)
    ensures var r := RunEvents(g, es, rg);
            Funds(r.group) + r.charged == Funds(g) && Within(r.group, lo - ReportCount(es) * TWO_32, hi)
  {
    hide RunReports, Narrow, Within;
    if es != [] {
      var before := RunEvents(g, es[..|es| - 1], rg);
      var n := ReportCount(es[..|es| - 1]);
      Narrower(lo - ReportCount(es) * TWO_32, lo - n * TWO_32, hi);
      RunExact(g, es[..|es| - 1], rg, lo, hi);
      HappenExact(before.group, es[|es| - 1], rg, lo - n * TWO_32, hi);
    }
  }

  lemma Narrower(lo: int, lo': int, hi: int)
    requires Narrow(lo, hi) && lo <= lo'
    ensures Narrow(lo', hi)
  {
  }

  lemma HappenExact(g: Group, e: Event, rg: int32, lo: int, hi: int)
    requires Within(g, lo, hi) && (e.Request? ==> Narrow(lo - |e.us| * TWO_32, hi))
    ensures var r := Happen(g, e, rg);
            Funds(r.group) + r.charged == Funds(g)
            && Within(r.group, lo - (if e.Request? then |e.us| else 0) * TWO_32, hi)
  {
    hide RunReports;
    if e.Request? {
      ReportsExact(g, e.us, rg, e.triggers, lo, hi);
    }
  }
}
