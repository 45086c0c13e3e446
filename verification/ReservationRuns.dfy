/** A run of requests, recharges and tariff changes on one UE context and its store: what the laws about runs are about. */
module ReservationRuns {
  import opened Words
  import opened Charging
  import opened Reservation
  import opened ReservationLaws

  lemma RunEventsNext(es: seq<Event>, i: nat)
    requires i < |es|
    ensures forall g, rg: int32 ::
              RunEvents(g, es[..i + 1], rg).group == Happen(RunEvents(g, es[..i], rg).group, es[i], rg).group
  {
    hide Happen;
    assert es[..i + 1][..i] == es[..i];
  }

  lemma NothingHappened(es: seq<Event>)
    ensures forall g, rg: int32 :: RunEvents(g, es[..0], rg).group == g
  {
  }

  /** Serves one event. */
  method ServeEvent(ue: ChfUe, store: AccountStore, e: Event)
    requires ue.NoDuplicates()
    modifies ue, store
    ensures ue.NoDuplicates() && old(ue.ratingGroups) <= ue.ratingGroups
    ensures forall rg: int32 :: ue.GroupOf(rg, store) == Happen(old(ue.GroupOf(rg, store)), e, rg).group
  {
    hide RunReports;
    match e {
      case Request(us, triggers) =>
        var _, _ := ue.SessionChargingReservation(us, triggers, store);
      case Recharge(rg) =>
        ue.NotifyRecharge(rg, store);
      case Retariff(rg, cost) =>
        store.Retariff(rg, cost);
    }
  }

  /** Serves a run. Every rating group ends as the run over its own value says, and so keeps its money. */
  method Serve(ue: ChfUe, store: AccountStore, es: seq<Event>)
    requires ue.NoDuplicates()
    modifies ue, store
    ensures ue.NoDuplicates() && old(ue.ratingGroups) <= ue.ratingGroups
    ensures forall rg: int32 :: ue.GroupOf(rg, store) == RunEvents(old(ue.GroupOf(rg, store)), es, rg).group
    ensures forall rg: int32 ::
              Same64(Funds(ue.GroupOf(rg, store)) + RunEvents(old(ue.GroupOf(rg, store)), es, rg).charged, Funds(old(ue.GroupOf(rg, store))))
  {
    hide Happen, RunEvents, Same64, Funds;
    NothingHappened(es);
    for i := 0 to |es|
      invariant ue.NoDuplicates() && old(ue.ratingGroups) <= ue.ratingGroups
      invariant forall rg: int32 :: ue.GroupOf(rg, store) == RunEvents(old(ue.GroupOf(rg, store)), es[..i], rg).group
    {
      RunEventsNext(es, i);
      ServeEvent(ue, store, es[i]);
    }
    assert es[..|es|] == es;
    forall rg: int32
      ensures Same64(Funds(ue.GroupOf(rg, store)) + RunEvents(old(ue.GroupOf(rg, store)), es, rg).charged, Funds(old(ue.GroupOf(rg, store))))
    {
      RunConserves(old(ue.GroupOf(rg, store)), es, rg);
    }
  }
}
