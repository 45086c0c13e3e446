/**
 * Session charging with reservation (TS 32.296 section 6.2.2.3.1) for one rating group: what the rating
 * function and the account balance management function answer, and what one reported usage does.
 */
module Charging {
  import opened Words
  import opened Results

  /** The stored charging data of a rating group: the balance and the unit cost its tariff comes to. */
  datatype Account = Account(quota: int64, unitCost: u32)

  // ---------------------------------------------------------------- account balance management

  /** A credit control request that moves the balance. */
  datatype CcAction =
    | Refund(units: u64)
    | UpdateDebit(units: u64)
    | TerminationDebit(units: u64)

  datatype CcAnswer = CcAnswer(granted: u64, terminate: bool)

  function Requested(a: CcAction, quota: int64): int64 {
    if a.UpdateDebit? && I64(a.units) > quota then quota else I64(a.units)
  }

  function HandleCcr(quota: int64, a: CcAction): (int64, CcAnswer) {
    match a
    case Refund(units) => (I64(quota + I64(units)), CcAnswer(0, false))
    case UpdateDebit(units) =>
      var r := Requested(a, quota);
      (I64(quota - r), CcAnswer(U64(r), I64(units) > quota))
    case TerminationDebit(units) => (I64(quota - I64(units)), CcAnswer(0, false))
  }

  // ---------------------------------------------------------------- rating

  datatype Rated = Rated(allowedUnits: u32, price: u32, unitCost: u32)

  /** Units a monetary quota buys. A unit cost of zero makes the division panic: no answer is sent.
      Without charging data nothing is allowed and the tariff "1" is announced. */
  function RateReserve(account: Option<Account>, monetaryQuota: u32): Option<Rated> {
    if account.None? then Some(Rated(0, 0, 1))
    else if account.value.unitCost == 0 then None
    else
      var allowed := monetaryQuota / account.value.unitCost;
      Some(Rated(allowed, U32(allowed * account.value.unitCost), account.value.unitCost))
  }

  /** The price of consumed units. */
  function RateDebit(account: Option<Account>, consumed: u32): Rated {
    if account.None? then Rated(0, 0, 1)
    else Rated(0, U32(consumed * account.value.unitCost), account.value.unitCost)
  }

  // ---------------------------------------------------------------- one rating group

  datatype Mode = Unset | Reserve | Debit

  /** What the charging function holds for one rating group of a UE, together with the stored account. */
  datatype Group = Group(
    account: Option<Account>, known: bool, reserved: int64, mode: Mode, unitCost: u32, requestNum: u32)

  datatype Indicator = Offline | Online | Suspended

  datatype UsedUnit = UsedUnit(indicator: Indicator, totalVolume: int32)

  datatype Trigger = Final | OtherTrigger

  /** Which of the peer requests of one usage report reach their server; a request that does not is not processed. */
  datatype Peers = Peers(firstCost: bool, account: bool, rating: bool, secondCost: bool)

  datatype UnitUsage = UnitUsage(ratingGroup: int32, used: seq<UsedUnit>, requested: Option<int32>, peers: Peers)

  /** One entry of the answer: the granted units and whether they are the last. */
  datatype Granted = Granted(ratingGroup: int32, units: u32, terminate: bool)

  /** The group afterwards, the price charged and the answer entry, if the report gets one. */
  datatype Outcome = Outcome(group: Group, charged: u32, answer: Option<Granted>)

  function OnlineVolume(used: seq<UsedUnit>): u32 {
    if used == [] then 0
    else
      var last := used[|used| - 1];
      U32(OnlineVolume(used[..|used| - 1]) + if last.indicator.Online? then U32(last.totalVolume) else 0)
  }

  predicate UnderCreditControl(used: seq<UsedUnit>) {
    exists k :: 0 <= k < |used| && used[k].indicator.Online?
  }

  /** The cost the charging function works with: 1 when the rating function gives none. */
  function UnitCostSeen(account: Option<Account>, processed: bool): u32 {
    var r := RateReserve(account, 0);
    if processed && r.Some? then r.value.unitCost else 1
  }

  /** The mode a report is handled in. */
  function ModeFor(g: Group, u: UnitUsage, triggers: seq<Trigger>): Mode {
    if u.requested.None? then Debit
    else if Final in triggers then if u.requested.value > 0 then Reserve else Debit
    else g.mode
  }

  /** Applies a credit control request to the stored account, if it is processed. */
  function Account1(account: Option<Account>, processed: bool, a: CcAction): Option<(Account, CcAnswer)> {
    if !processed || account.None? then None
    else
      var r := HandleCcr(account.value.quota, a);
      Some((account.value.(quota := r.0), r.1))
  }

  function AfterUsage(g: Group, u: UnitUsage, triggers: seq<Trigger>): Outcome {
    var g1 := if g.known then g else g.(known := true, mode := Reserve);
    if !UnderCreditControl(u.used) then Outcome(g1, 0, None)
    else
      InMode(g1.(mode := ModeFor(g1, u, triggers)), u)
  }

  function InMode(g: Group, u: UnitUsage): Outcome {
    match g.mode
    case Reserve => ReserveMore(g, u)
    case Debit => Settle(g, u)
    case Unset => Outcome(g.(requestNum := U32(g.requestNum + 1)), 0, Some(Granted(u.ratingGroup, 0, false)))
  }

  /** Charges the reported usage against the reservation and reserves for the requested volume. */
  function ReserveMore(g: Group, u: UnitUsage): Outcome {
    if u.requested.None? || u.requested.value <= 0 then Outcome(g, 0, None)
    else
      var cost := UnitCostSeen(g.account, u.peers.firstCost);
      var used := U32(OnlineVolume(u.used) * cost);
      var wanted := U32(u.requested.value * cost);
      var g1 := g.(unitCost := cost, reserved := I64(g.reserved - used));
      if g1.reserved > 0 then Grant(g1, u, used, wanted, false)
      else
        var debit := Account1(g.account, u.peers.account, UpdateDebit(U64(wanted - g1.reserved)));
        if debit.None? then Outcome(g1, used, None)
        else
          var (account, answer) := debit.value;
          Grant(g1.(account := Some(account), reserved := I64(g1.reserved + I64(answer.granted)),
                    mode := if answer.terminate then Debit else Reserve),
                u, used, wanted, answer.terminate)
  }

  function Grant(g: Group, u: UnitUsage, used: u32, wanted: u32, terminate: bool): Outcome
    requires u.requested.Some? && u.requested.value > 0
  {
    var rated := RateReserve(g.account, wanted);
    if !u.peers.rating || rated.None? then Outcome(g, used, None)
    else
      var units := if rated.value.allowedUnits < u.requested.value then rated.value.allowedUnits else u.requested.value;
      Outcome(g.(unitCost := UnitCostSeen(g.account, u.peers.secondCost), requestNum := U32(g.requestNum + 1)),
              used, Some(Granted(u.ratingGroup, units, terminate)))
  }

  /** Prices the last usage, and refunds the rest of the reservation or debits what exceeds it. */
  function Settle(g: Group, u: UnitUsage): Outcome {
    var rated := RateDebit(g.account, OnlineVolume(u.used));
    if !u.peers.rating then Outcome(g, 0, None)
    else
      var action := if rated.price < g.reserved then Refund(U64(g.reserved - rated.price))
                    else TerminationDebit(U64(rated.price - g.reserved));
      var g1 := if rated.price < g.reserved then g.(mode := Reserve) else g;
      var debit := Account1(g.account, u.peers.account, action);
      if debit.None? then Outcome(g1, 0, None)
      else
        Outcome(g1.(account := Some(debit.value.0), reserved := 0, requestNum := U32(g.requestNum + 1)),
                rated.price, Some(Granted(u.ratingGroup, 0, false)))
  }

  /** Whether a partial record is asked for, after the reports so far. */
  function PartialAfter(partial: bool, u: UnitUsage, triggers: seq<Trigger>): bool {
    if !UnderCreditControl(u.used) then partial
    else if u.requested.None? then false
    else if triggers == [] then partial
    else triggers[|triggers| - 1] != Final
  }

  // ---------------------------------------------------------------- a list of reports

  /** What a list of reports does to one group: only the reports on that group matter to it. */
  datatype GroupRun = GroupRun(group: Group, charged: nat, answers: seq<Granted>)

  function RunReports(g: Group, us: seq<UnitUsage>, rg: int32, triggers: seq<Trigger>): GroupRun {
    if us == [] then GroupRun(g, 0, [])
    else
      var before := RunReports(g, us[..|us| - 1], rg, triggers);
      var u := us[|us| - 1];
      if u.ratingGroup != rg then before
      else
        var o := AfterUsage(before.group, u, triggers);
        GroupRun(o.group, before.charged + o.charged,
                 before.answers + if o.answer.Some? then [o.answer.value] else [])
  }

  function AnswersFor(answers: seq<Granted>, rg: int32): seq<Granted> {
    if answers == [] then []
    else
      var last := answers[|answers| - 1];
      AnswersFor(answers[..|answers| - 1], rg) + if last.ratingGroup == rg then [last] else []
  }

  function PartialAfterAll(us: seq<UnitUsage>, triggers: seq<Trigger>): bool {
    if us == [] then false
    else PartialAfter(PartialAfterAll(us[..|us| - 1], triggers), us[|us| - 1], triggers)
  }
}
