/** One reconcile of an item price watch: fetch the top sell orders, compare, notify, persist the status. */
module ItemWatch {
  import opened Common
  import opened Market
  import opened Watch

  datatype ItemSpec = ItemSpec(threshold: int, window: Option<NotificationWindow>)

  /** The status as the use case builds it: a field is set or it is not. */
  datatype ItemApplyConfiguration = ItemApplyConfiguration(
    cheapestPrice: Option<int>,
    notifiedOrderID: Option<string>,
    lastNotifiedAt: Option<Date>,
    condition: Condition)

  /** The status as it is read back. */
  datatype ItemStatus = ItemStatus(
    cheapestPrice: int,
    notifiedOrderID: string,
    lastNotifiedAt: Option<Date>,
    condition: Option<Condition>)

  const EMPTY_ITEM_STATUS := ItemStatus(0, "", None, None)

  function PersistItem(a: ItemApplyConfiguration): ItemStatus {
    ItemStatus(a.cheapestPrice.GetOr(0), a.notifiedOrderID.GetOr(""), a.lastNotifiedAt, Some(a.condition))
  }

  /** Everything one reconcile learns from outside. */
  datatype ItemInput = ItemInput(
    get: GetOutcome,
    spec: ItemSpec,
    topSell: Option<seq<Order>>,
    minute: int,
    sendOk: bool,
    stamp: Date,
    applied: bool)

  // ---------- The cheapest order ----------

  /** The library's minimum: the first of the cheapest. */
  function MinOrder(orders: seq<Order>): (m: Order)
    requires orders != []
    ensures m in orders
    ensures forall i :: 0 <= i < |orders| ==> m.platinum <= orders[i].platinum
    ensures exists k ::
      0 <= k < |orders| && orders[k] == m && forall j :: 0 <= j < k ==> m.platinum < orders[j].platinum
  {
    if |orders| == 1 then orders[0]
    else
      var m := MinOrder(orders[..|orders| - 1]);
      if orders[|orders| - 1].platinum < m.platinum then orders[|orders| - 1] else m
  }

  predicate IsVisible(orders: seq<Order>, id: string) {
    exists o :: o in orders && o.id == id
  }

  method StillVisible(orders: seq<Order>, id: string) returns (visible: bool)
    ensures visible <==> IsVisible(orders, id)
  {
    for i := 0 to |orders|
      invariant !IsVisible(orders[..i], id)
    {
      if orders[i].id == id { return true; }
    }
    return false;
  }

  /** The remembered order, unless it is no longer among the sell orders. */
  function VisibleMemory(orders: seq<Order>, id: string): string {
    if id != "" && !IsVisible(orders, id) then "" else id
  }

  // ---------- One execution of the use case ----------

  datatype ItemEnding = Idle | FetchError | NoSells | AboveThreshold | KnownLow | OutsideWindow | SendError | Notified

  datatype ItemExecution = ItemExecution(ending: ItemEnding, status: ItemApplyConfiguration, delivered: Option<Order>)

  /** How a step over non-empty sell orders ends. */
  function Decide(inp: ItemInput, orders: seq<Order>, memory: string): ItemEnding
    requires orders != []
  {
    var cheapest := MinOrder(orders);
    if cheapest.platinum > inp.spec.threshold then AboveThreshold
    else if VisibleMemory(orders, memory) == cheapest.id then KnownLow
    else if !MaySend(inp.spec.window, inp.minute) then OutsideWindow
    else if !inp.sendOk then SendError
    else Notified
  }

  function ExecuteItem(stored: ItemStatus, inp: ItemInput): ItemExecution {
    match inp.topSell
    case None =>
      ItemExecution(FetchError, ItemApplyConfiguration(None, None, None, Condition(false, FetchFailed)), None)
    case Some(orders) =>
      if orders == [] then
        ItemExecution(NoSells, ItemApplyConfiguration(None, Some(""), None, Condition(false, NoSellOrders)), None)
      else
        var cheapest := MinOrder(orders);
        var ending := Decide(inp, orders, stored.notifiedOrderID);
        var id :=
          if ending == AboveThreshold then ""
          else if ending == Notified then cheapest.id
          else VisibleMemory(orders, stored.notifiedOrderID);
        var stamp := if ending == Notified then Some(inp.stamp) else None;
        ItemExecution(
          ending,
          ItemApplyConfiguration(Some(cheapest.platinum), Some(id), stamp, Condition(true, PriceFetched)),
          if ending == Notified then Some(cheapest) else None)
  }

  function Deliveries(d: Option<Order>): seq<Order> {
    if d.Some? then [d.value] else []
  }

  method ExecuteItemWatch(stored: ItemStatus, inp: ItemInput, notifier: Notifier<Order>) returns (e: ItemExecution)
    modifies notifier
    ensures e == ExecuteItem(stored, inp)
    ensures notifier.delivered == old(notifier.delivered) + Deliveries(e.delivered)
  {
    if inp.topSell.None? {
      return ItemExecution(FetchError, ItemApplyConfiguration(None, None, None, Condition(false, FetchFailed)), None);
    }
    var sell := inp.topSell.value;
    if |sell| == 0 {
      return ItemExecution(NoSells, ItemApplyConfiguration(None, Some(""), None, Condition(false, NoSellOrders)), None);
    }
    var cheapestOrder := MinOrder(sell);
    var status := ItemApplyConfiguration(Some(cheapestOrder.platinum), None, None, Condition(true, PriceFetched));
    if cheapestOrder.platinum > inp.spec.threshold {
      return ItemExecution(AboveThreshold, status.(notifiedOrderID := Some("")), None);
    }
    var notifiedOrderID := stored.notifiedOrderID;
    if notifiedOrderID != "" {
      var stillVisible := StillVisible(sell, notifiedOrderID);
      if !stillVisible {
        notifiedOrderID := "";
      }
    }
    status := status.(notifiedOrderID := Some(notifiedOrderID));
    if notifiedOrderID == cheapestOrder.id {
      return ItemExecution(KnownLow, status, None);
    }
    if inp.spec.window.Some? && !IsWithinWindow(inp.minute, inp.spec.window.value) {
      return ItemExecution(OutsideWindow, status, None);
    }
    var ok := notifier.Send(cheapestOrder, inp.sendOk);
    if !ok {
      return ItemExecution(SendError, status, None);
    }
    return ItemExecution(Notified,
      status.(notifiedOrderID := Some(cheapestOrder.id), lastNotifiedAt := Some(inp.stamp)), Some(cheapestOrder));
  }

  // ---------- One reconcile, and runs ----------

  /** persisted says whether this step replaced the stored status. */
  datatype ItemStep = ItemStep(
    status: ItemStatus,
    delivered: Option<Order>,
    ending: ItemEnding,
    persisted: bool,
    result: ReconcileResult)

  function ReconcileItem(stored: ItemStatus, inp: ItemInput): ItemStep {
    if inp.get != Found then ItemStep(stored, None, Idle, false, if inp.get == NotFound then Gone else Failed)
    else
      var e := ExecuteItem(stored, inp);
      if !inp.applied then ItemStep(stored, e.delivered, e.ending, false, Failed)
      else ItemStep(PersistItem(e.status), e.delivered, e.ending, true,
        if e.ending in {FetchError, SendError} then Failed else Requeued)
  }

  function ItemStatusAt(start: ItemStatus, run: seq<ItemInput>, k: nat): ItemStatus
    requires k <= |run|
  {
    if k == 0 then start else ReconcileItem(ItemStatusAt(start, run, k - 1), run[k - 1]).status
  }

  function ItemStepAt(start: ItemStatus, run: seq<ItemInput>, k: nat): ItemStep
    requires k < |run|
  {
    ReconcileItem(ItemStatusAt(start, run, k), run[k])
  }

  function ItemsDeliveredBefore(start: ItemStatus, run: seq<ItemInput>, k: nat): seq<Order>
    requires k <= |run|
  {
    if k == 0 then [] else ItemsDeliveredBefore(start, run, k - 1) + Deliveries(ItemStepAt(start, run, k - 1).delivered)
  }

  lemma {:induction false} ItemRunExtended(start: ItemStatus, run: seq<ItemInput>, inp: ItemInput, k: nat)
    requires k <= |run|
    ensures ItemStatusAt(start, run + [inp], k) == ItemStatusAt(start, run, k)
    ensures ItemsDeliveredBefore(start, run + [inp], k) == ItemsDeliveredBefore(start, run, k)
  {
    hide ReconcileItem;
    if k == 0 {
    } else {
      ItemRunExtended(start, run, inp, k - 1);
    }
  }

  /** The reconciler together with the one stored object it works on. */
  class ItemPriceWatchReconciler {
    const notifier: Notifier<Order>
    var status: ItemStatus
    ghost var run: seq<ItemInput>

    /** The stored status and the deliveries are those of the run so far, from an empty status. */
    ghost predicate Valid()
      reads this, notifier
    {
      && status == ItemStatusAt(EMPTY_ITEM_STATUS, run, |run|)
      && notifier.delivered == ItemsDeliveredBefore(EMPTY_ITEM_STATUS, run, |run|)
    }

    constructor ()
      ensures Valid() && run == [] && fresh(notifier)
    {
      notifier := new Notifier<Order>();
      status := EMPTY_ITEM_STATUS;
      run := [];
    }

    method ReconcileOnce(inp: ItemInput) returns (result: ReconcileResult)
      requires Valid()
      modifies this, notifier
      ensures Valid() && run == old(run) + [inp]
      ensures result == ReconcileItem(old(status), inp).result
      ensures status == ReconcileItem(old(status), inp).status
      ensures notifier.delivered == old(notifier.delivered) + Deliveries(ReconcileItem(old(status), inp).delivered)
    {
      hide ExecuteItem, MinOrder, VisibleMemory, Decide;
      ItemRunExtended(EMPTY_ITEM_STATUS, run, inp, |run|);
      run := run + [inp];
      if inp.get != Found {
        assert notifier.delivered + [] == notifier.delivered;
        return if inp.get == NotFound then Gone else Failed;
      }
      var e := ExecuteItemWatch(status, inp, notifier);
      if !inp.applied { return Failed; }
      status := PersistItem(e.status);
      return if e.ending in {FetchError, SendError} then Failed else Requeued;
    }
  }
}
