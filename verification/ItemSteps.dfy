/** What one step of the item watch announces, reports and stores, for every input and every stored status, stated over
    the sell orders, the spec and the clock. */
module ItemSteps {
  import opened Common
  import opened Market
  import opened Watch
  import opened ItemWatch

  /** Order m is the first of the cheapest. */
  ghost predicate IsFirstCheapest(orders: seq<Order>, m: nat) {
    && m < |orders|
    && (forall j :: 0 <= j < |orders| ==> orders[m].platinum <= orders[j].platinum)
    && (forall j :: 0 <= j < m ==> orders[m].platinum < orders[j].platinum)
  }

  /** The stored id counts as the order's: it is the order's, or the order has no id and no order listed has the stored
      one. */
  predicate IsKnown(stored: ItemStatus, orders: seq<Order>, o: Order) {
    || stored.notifiedOrderID == o.id
    || (o.id == "" && forall i :: 0 <= i < |orders| ==> orders[i].id != stored.notifiedOrderID)
  }

  /** The step tries to announce the order: within the threshold, not known, and inside the window. */
  predicate IsDue(stored: ItemStatus, inp: ItemInput, orders: seq<Order>, o: Order) {
    && o.platinum <= inp.spec.threshold
    && !IsKnown(stored, orders, o)
    && (inp.spec.window.Some? ==> inp.spec.window.value.from <= inp.minute <= inp.spec.window.value.to)
  }

  lemma MinIsFirstCheapest(orders: seq<Order>, m: nat)
    requires IsFirstCheapest(orders, m)
    ensures MinOrder(orders) == orders[m]
  {
    var o := MinOrder(orders);
    var k :| 0 <= k < |orders| && orders[k] == o && forall j :: 0 <= j < k ==> o.platinum < orders[j].platinum;
  }

  lemma KnownIsRemembered(stored: ItemStatus, orders: seq<Order>, o: Order)
    requires o in orders
    ensures VisibleMemory(orders, stored.notifiedOrderID) == o.id <==> IsKnown(stored, orders, o)
  {
    assert IsVisible(orders, o.id);
    assert IsVisible(orders, stored.notifiedOrderID) <==>
      exists i :: 0 <= i < |orders| && orders[i].id == stored.notifiedOrderID;
  }

  lemma DecideMeaning(stored: ItemStatus, inp: ItemInput, m: nat)
    requires inp.topSell.Some? && IsFirstCheapest(inp.topSell.value, m)
    ensures var orders := inp.topSell.value; var e := Decide(inp, orders, stored.notifiedOrderID);
      && (e == AboveThreshold <==> orders[m].platinum > inp.spec.threshold)
      && (e == SendError <==> IsDue(stored, inp, orders, orders[m]) && !inp.sendOk)
      && (e == Notified <==> IsDue(stored, inp, orders, orders[m]) && inp.sendOk)
      && e !in {Idle, FetchError, NoSells}
  {
    hide VisibleMemory, IsKnown;
    MinIsFirstCheapest(inp.topSell.value, m);
    KnownIsRemembered(stored, inp.topSell.value, inp.topSell.value[m]);
  }

  lemma FirstCheapestIndex(orders: seq<Order>) returns (m: nat)
    requires orders != []
    ensures IsFirstCheapest(orders, m)
  {
    var o := MinOrder(orders);
    m :| 0 <= m < |orders| && orders[m] == o && forall j :: 0 <= j < m ==> o.platinum < orders[j].platinum;
  }

  /** What the step reports.  Gone: the object is gone.  Requeued, the only success: found, applied, fetched, and the
      cheapest order, if it was to be announced, was.  Failed in all other cases; the step never crashes. */
  lemma ItemResultMeaning(stored: ItemStatus, inp: ItemInput)
    ensures var result := ReconcileItem(stored, inp).result;
      && (result == Gone <==> inp.get == NotFound)
      && (result == Requeued <==>
            && inp.get == Found && inp.applied && inp.topSell.Some?
            && forall m: nat :: IsFirstCheapest(inp.topSell.value, m) ==>
                 !IsDue(stored, inp, inp.topSell.value, inp.topSell.value[m]) || inp.sendOk)
      && result != Crashed
  {
    hide Decide, IsDue;
    if inp.topSell.Some? && inp.topSell.value != [] {
      var m := FirstCheapestIndex(inp.topSell.value);
      DecideMeaning(stored, inp, m);
      forall k: nat | IsFirstCheapest(inp.topSell.value, k) ensures k == m {}
    }
  }

  /** What the step announces: nothing, or the first of the cheapest orders, and that exactly if it is to be announced
      and the message is accepted. */
  lemma AnnouncementMeaning(stored: ItemStatus, inp: ItemInput)
    ensures inp.get != Found || inp.topSell.None? || inp.topSell.value == [] ==>
      ReconcileItem(stored, inp).delivered == None
    ensures inp.get == Found && inp.topSell.Some? ==>
      forall m: nat :: IsFirstCheapest(inp.topSell.value, m) ==>
        ReconcileItem(stored, inp).delivered ==
          if IsDue(stored, inp, inp.topSell.value, inp.topSell.value[m]) && inp.sendOk then Some(inp.topSell.value[m])
          else None
  {
    hide Decide, IsDue;
    if inp.get == Found && inp.topSell.Some? {
      forall m: nat | IsFirstCheapest(inp.topSell.value, m)
        ensures ReconcileItem(stored, inp).delivered ==
          if IsDue(stored, inp, inp.topSell.value, inp.topSell.value[m]) && inp.sendOk then Some(inp.topSell.value[m])
          else None
      {
        DecideMeaning(stored, inp, m);
        MinIsFirstCheapest(inp.topSell.value, m);
      }
    }
  }

  /** The stored id, unless the order is no longer listed. */
  function ListedID(stored: ItemStatus, orders: seq<Order>): string {
    if exists i :: 0 <= i < |orders| && orders[i].id == stored.notifiedOrderID then stored.notifiedOrderID else ""
  }

  lemma MemoryIsListed(stored: ItemStatus, orders: seq<Order>)
    ensures VisibleMemory(orders, stored.notifiedOrderID) == ListedID(stored, orders)
  {
    assert IsVisible(orders, stored.notifiedOrderID) <==>
      exists i :: 0 <= i < |orders| && orders[i].id == stored.notifiedOrderID;
  }

  /** What the step stores: nothing new unless it is found and applied.  A failed fetch and an empty one leave only
      their condition; otherwise the cheapest price, the id of the order announced or still listed within the threshold,
      and the time exactly if it announced something. */
  lemma ItemStatusMeaning(stored: ItemStatus, inp: ItemInput)
    ensures ReconcileItem(stored, inp).persisted <==> inp.get == Found && inp.applied
    ensures inp.get != Found || !inp.applied ==> ReconcileItem(stored, inp).status == stored
    ensures inp.get == Found && inp.applied ==>
      var s := ReconcileItem(stored, inp).status;
      && (inp.topSell.None? ==> s == ItemStatus(0, "", None, Some(Condition(false, FetchFailed))))
      && (inp.topSell == Some([]) ==> s == ItemStatus(0, "", None, Some(Condition(false, NoSellOrders))))
      && (inp.topSell.Some? ==> forall m: nat :: IsFirstCheapest(inp.topSell.value, m) ==>
            var orders, o := inp.topSell.value, inp.topSell.value[m];
            s == if IsDue(stored, inp, orders, o) && inp.sendOk
                 then ItemStatus(o.platinum, o.id, Some(inp.stamp), Some(Condition(true, PriceFetched)))
                 else ItemStatus(o.platinum, if o.platinum > inp.spec.threshold then "" else ListedID(stored, orders),
                        None, Some(Condition(true, PriceFetched))))
  {
    hide Decide, IsDue, VisibleMemory, ListedID;
    if inp.get == Found && inp.topSell.Some? {
      MemoryIsListed(stored, inp.topSell.value);
      forall m: nat | IsFirstCheapest(inp.topSell.value, m)
        ensures MinOrder(inp.topSell.value) == inp.topSell.value[m]
        ensures var e := Decide(inp, inp.topSell.value, stored.notifiedOrderID);
          && (e == Notified <==> IsDue(stored, inp, inp.topSell.value, inp.topSell.value[m]) && inp.sendOk)
          && (e == AboveThreshold <==> inp.topSell.value[m].platinum > inp.spec.threshold)
      {
        DecideMeaning(stored, inp, m);
        MinIsFirstCheapest(inp.topSell.value, m);
      }
    }
  }
}
