/** Safety and convergence of the item watch over whole runs. */
module ItemRuns {
  import opened Common
  import opened Market
  import opened Watch
  import opened ItemWatch
  import opened ItemSteps

  // ---------- What one step did to the remembered order ----------

  /** What one step did, for the memory: was its status applied, which sell orders and threshold did it see, which
      order did it announce. */
  datatype ItemEvent = ItemEvent(persisted: bool, topSell: Option<seq<Order>>, threshold: int, delivered: Option<Order>)

  /** memory[k] is the remembered order id before event k. */
  datatype ItemHistory = ItemHistory(events: seq<ItemEvent>, memory: seq<string>)

  /** The fetch succeeded and the cheapest sell order is within the threshold. */
  predicate AtOrBelow(e: ItemEvent) {
    e.topSell.Some? && e.topSell.value != [] && MinOrder(e.topSell.value).platinum <= e.threshold
  }

  ghost predicate ItemFollows(before: string, e: ItemEvent, after: string) {
    && (!e.persisted ==> after == before)
    && (e.persisted && e.delivered.Some? ==> after == e.delivered.value.id)
    && (e.persisted && e.delivered.None? ==>
          after == if AtOrBelow(e) then VisibleMemory(e.topSell.value, before) else "")
    && (e.delivered.Some? ==>
          AtOrBelow(e) && e.delivered.value == MinOrder(e.topSell.value)
            && e.delivered.value.id != VisibleMemory(e.topSell.value, before))
  }

  ghost predicate IsItemHistory(h: ItemHistory) {
    && |h.memory| == |h.events| + 1
    && h.memory[0] == ""
    && forall k :: 0 <= k < |h.events| ==> ItemFollows(h.memory[k], h.events[k], h.memory[k + 1])
  }

  /** If the event was applied, its fetch succeeded, its cheapest price was within its threshold, order x was still
      visible, and nothing was announced. */
  predicate Keeps(e: ItemEvent, x: string) {
    e.persisted ==> AtOrBelow(e) && IsVisible(e.topSell.value, x) && e.delivered.None?
  }

  /** x was announced by event i, whose status was applied, and every event since kept it. */
  ghost predicate RememberedSince(h: ItemHistory, k: nat, i: nat, x: string)
    requires IsItemHistory(h) && k <= |h.events|
  {
    && i < k
    && h.events[i].persisted
    && h.events[i].delivered.Some? && h.events[i].delivered.value.id == x
    && forall m: nat :: i < m < k ==> Keeps(h.events[m], x)
  }

  lemma {:induction false} KeptWhileKeeping(h: ItemHistory, k: nat, i: nat, x: string)
    requires IsItemHistory(h) && k <= |h.events| && RememberedSince(h, k, i, x)
    ensures h.memory[k] == x
  {
    assert ItemFollows(h.memory[k - 1], h.events[k - 1], h.memory[k]);
    if i < k - 1 {
      assert RememberedSince(h, k - 1, i, x);
      KeptWhileKeeping(h, k - 1, i, x);
      assert Keeps(h.events[k - 1], x);
    }
  }

  lemma {:induction false} HistoryProvenance(h: ItemHistory, k: nat)
    requires IsItemHistory(h) && k <= |h.events| && h.memory[k] != ""
    ensures exists i: nat :: RememberedSince(h, k, i, h.memory[k])
  {
    var m := k - 1;
    assert ItemFollows(h.memory[m], h.events[m], h.memory[k]);
    if h.events[m].persisted && h.events[m].delivered.Some? {
      assert RememberedSince(h, k, m, h.memory[k]);
    } else {
      HistoryProvenance(h, m);
      var i: nat :| RememberedSince(h, m, i, h.memory[m]);
      assert Keeps(h.events[m], h.memory[k]);
      assert RememberedSince(h, k, i, h.memory[k]);
    }
  }

  predicate Announces(e: ItemEvent, x: string) {
    e.delivered.Some? && e.delivered.value.id == x
  }

  /** The event was applied and x was not kept, without x being announced again: the fetch failed, there were no sell
      orders, the price was above the threshold, x was not visible, or another order was announced. */
  predicate Loses(e: ItemEvent, x: string) {
    !Keeps(e, x) && !Announces(e, x)
  }

  lemma {:induction false} FirstNotKept(h: ItemHistory, i: nat, j: nat, x: string) returns (m: nat)
    requires IsItemHistory(h) && i < j <= |h.events|
    requires exists k: nat :: i < k < j && !Keeps(h.events[k], x)
    ensures i < m < j && !Keeps(h.events[m], x) && forall k: nat :: i < k < m ==> Keeps(h.events[k], x)
    decreases j
  {
    if exists k: nat :: i < k < j - 1 && !Keeps(h.events[k], x) {
      m := FirstNotKept(h, i, j - 1, x);
    } else {
      m := j - 1;
    }
  }

  /** As long as x is remembered it is not announced. */
  lemma RememberedNotAnnounced(h: ItemHistory, j: nat, i: nat, x: string)
    requires IsItemHistory(h) && j < |h.events| && RememberedSince(h, j, i, x)
    ensures !Announces(h.events[j], x)
  {
    KeptWhileKeeping(h, j, i, x);
    assert ItemFollows(h.memory[j], h.events[j], h.memory[j + 1]);
  }

  lemma RepeatNeedsLoss(h: ItemHistory, i: nat, j: nat, x: string)
    requires IsItemHistory(h) && i < j < |h.events|
    requires Announces(h.events[i], x) && Announces(h.events[j], x)
    ensures !h.events[i].persisted || exists m: nat :: i < m < j && Loses(h.events[m], x)
  {
    if h.events[i].persisted {
      if forall m: nat :: i < m < j ==> Keeps(h.events[m], x) {
        assert RememberedSince(h, j, i, x);
        RememberedNotAnnounced(h, j, i, x);
      } else {
        var m := FirstNotKept(h, i, j, x);
        assert RememberedSince(h, m, i, x);
        RememberedNotAnnounced(h, m, i, x);
      }
    }
  }

  // ---------- Runs ----------

  function ItemEventOf(s: ItemStep, inp: ItemInput): ItemEvent {
    ItemEvent(s.persisted, inp.topSell, inp.spec.threshold, s.delivered)
  }

  /** The history of a run from an empty status. */
  function ItemHistoryOf(run: seq<ItemInput>): ItemHistory {
    ItemHistory(
      seq(|run|, k requires 0 <= k < |run| => ItemEventOf(ItemStepAt(EMPTY_ITEM_STATUS, run, k), run[k])),
      seq(|run| + 1, k requires 0 <= k <= |run| => ItemStatusAt(EMPTY_ITEM_STATUS, run, k).notifiedOrderID))
  }

  lemma ItemStepFollows(stored: ItemStatus, inp: ItemInput)
    ensures var s := ReconcileItem(stored, inp);
      ItemFollows(stored.notifiedOrderID, ItemEventOf(s, inp), s.status.notifiedOrderID)
  {
    hide VisibleMemory;
  }

  lemma RunIsItemHistory(run: seq<ItemInput>)
    ensures IsItemHistory(ItemHistoryOf(run))
  {
    hide ReconcileItem, ItemFollows;
    var h := ItemHistoryOf(run);
    forall k | 0 <= k < |h.events| ensures ItemFollows(h.memory[k], h.events[k], h.memory[k + 1]) {
      ItemStepFollows(ItemStatusAt(EMPTY_ITEM_STATUS, run, k), run[k]);
    }
  }

  /** The remembered order, exactly: a non-empty id is stored if and only if some step announced that order and applied
      its status, and every step applied since then fetched, found a price within its own threshold, still saw the
      order, and announced nothing. */
  lemma MemoryProvenance(run: seq<ItemInput>, k: nat, x: string)
    requires k <= |run| && x != ""
    ensures IsItemHistory(ItemHistoryOf(run))
    ensures ItemStatusAt(EMPTY_ITEM_STATUS, run, k).notifiedOrderID == x <==>
      exists i: nat :: RememberedSince(ItemHistoryOf(run), k, i, x)
  {
    hide ReconcileItem, RememberedSince;
    RunIsItemHistory(run);
    var h := ItemHistoryOf(run);
    if h.memory[k] == x {
      HistoryProvenance(h, k);
    }
    forall i: nat | RememberedSince(h, k, i, x) ensures h.memory[k] == x {
      KeptWhileKeeping(h, k, i, x);
    }
  }

  /** The same order is announced again only if the status of the first announcement was not applied, or a step applied
      in between lost it: fetch failed, no sell orders, price above threshold, order not visible, or another order
      announced. */
  lemma NoRepeatWithoutLoss(run: seq<ItemInput>, i: nat, j: nat, x: string)
    requires i < j < |run|
    requires Announces(ItemHistoryOf(run).events[i], x) && Announces(ItemHistoryOf(run).events[j], x)
    ensures !ItemHistoryOf(run).events[i].persisted
      || exists m: nat :: i < m < j && Loses(ItemHistoryOf(run).events[m], x)
  {
    hide ReconcileItem, Keeps;
    RunIsItemHistory(run);
    RepeatNeedsLoss(ItemHistoryOf(run), i, j, x);
  }

  lemma AnnouncesUnlessStored(stored: ItemStatus, inp: ItemInput)
    requires inp.get == Found && inp.topSell.Some? && inp.topSell.value != [] && MinOrder(inp.topSell.value).id != ""
    ensures var cheapest := MinOrder(inp.topSell.value); var s := ReconcileItem(stored, inp);
      && (s.delivered.Some? ==> s.delivered.value == cheapest)
      && (s.delivered.Some? <==>
            && cheapest.platinum <= inp.spec.threshold
            && (forall w :: inp.spec.window == Some(w) ==> w.from <= inp.minute <= w.to)
            && inp.sendOk
            && stored.notifiedOrderID != cheapest.id)
  {
    assert MinOrder(inp.topSell.value) in inp.topSell.value;
  }

  /** A step announces the cheapest order exactly when it is within the threshold, the window is open, the send is
      accepted, and no earlier step is still responsible for remembering it; otherwise it announces nothing. */
  lemma AnnouncesIff(run: seq<ItemInput>, j: nat)
    requires j < |run| && run[j].get == Found && run[j].topSell.Some? && run[j].topSell.value != []
    requires MinOrder(run[j].topSell.value).id != ""
    ensures IsItemHistory(ItemHistoryOf(run))
    ensures var cheapest := MinOrder(run[j].topSell.value); var s := ItemStepAt(EMPTY_ITEM_STATUS, run, j);
      && (s.delivered.Some? ==> s.delivered.value == cheapest)
      && (s.delivered.Some? <==>
            && cheapest.platinum <= run[j].spec.threshold
            && (forall w :: run[j].spec.window == Some(w) ==> w.from <= run[j].minute <= w.to)
            && run[j].sendOk
            && forall i: nat :: !RememberedSince(ItemHistoryOf(run), j, i, cheapest.id))
  {
    var orders := run[j].topSell.value;
    var stored := ItemStatusAt(EMPTY_ITEM_STATUS, run, j);
    MemoryProvenance(run, j, MinOrder(orders).id);
    AnnouncesUnlessStored(stored, run[j]);
  }

  /** Every announcement is the first cheapest of the fetched sell orders, within the threshold and inside the
      window, and not the order already remembered; whatever was announced, an applied status records the cheapest price
      seen. */
  lemma AnnouncementsAreSafe(start: ItemStatus, run: seq<ItemInput>, k: nat)
    requires k < |run|
    ensures var s := ItemStepAt(start, run, k); var inp := run[k];
      && (s.delivered.Some? ==>
            && inp.get == Found && inp.topSell.Some? && inp.topSell.value != []
            && s.delivered.value == MinOrder(inp.topSell.value)
            && s.delivered.value.platinum <= inp.spec.threshold
            && (forall w :: inp.spec.window == Some(w) ==> w.from <= inp.minute <= w.to) && inp.sendOk
            && !IsKnown(ItemStatusAt(start, run, k), inp.topSell.value, s.delivered.value))
      && (s.persisted && inp.topSell.Some? && inp.topSell.value != [] ==>
            s.status.cheapestPrice == MinOrder(inp.topSell.value).platinum)
      && (s.persisted ==> s.status.lastNotifiedAt == if s.delivered.Some? then Some(inp.stamp) else None)
  {
    var stored, inp := ItemStatusAt(start, run, k), run[k];
    if inp.topSell.Some? && inp.topSell.value != [] {
      KnownIsRemembered(stored, inp.topSell.value, MinOrder(inp.topSell.value));
    }
    hide VisibleMemory, IsKnown;
  }

  /** A failed fetch forgets: the order announced before it is announced again after it, although its seller never
      left. */
  lemma FetchFailureRepeats(stored: ItemStatus, failed: ItemInput, next: ItemInput)
    requires failed.get == Found && failed.topSell == None && failed.applied
    requires next.get == Found && next.topSell.Some? && next.topSell.value != []
      && MinOrder(next.topSell.value).id != ""
    requires stored.notifiedOrderID == MinOrder(next.topSell.value).id
    requires MinOrder(next.topSell.value).platinum <= next.spec.threshold && next.sendOk
    requires forall w :: next.spec.window == Some(w) ==> w.from <= next.minute <= w.to
    ensures ReconcileItem(stored, next).delivered == None
    ensures ReconcileItem(ReconcileItem(stored, failed).status, next).delivered == Some(MinOrder(next.topSell.value))
  {
    var m := MinOrder(next.topSell.value);
    assert m in next.topSell.value;
    assert IsVisible(next.topSell.value, m.id);
  }

  // ---------- Convergence ----------

  /** A step over the market and spec of ref in which nothing outside fails. */
  predicate ItemNothingFails(inp: ItemInput, ref: ItemInput) {
    inp.get == Found && inp.applied && inp.sendOk && inp.spec == ref.spec && inp.topSell == ref.topSell
  }

  /** The clock of the step is outside the window. */
  predicate IsClosed(inp: ItemInput) {
    inp.spec.window.Some? && (inp.minute < inp.spec.window.value.from || inp.spec.window.value.to < inp.minute)
  }

  /** m steps outside the window, one inside, then anything, over a market whose cheapest order is within the
      threshold. */
  ghost predicate ItemSmoothRun(run: seq<ItemInput>, m: nat) {
    && m < |run|
    && (forall k :: 0 <= k < |run| ==> ItemNothingFails(run[k], run[0]))
    && run[0].topSell.Some? && run[0].topSell.value != []
    && MinOrder(run[0].topSell.value).platinum <= run[0].spec.threshold
    && (forall k :: 0 <= k < m ==> IsClosed(run[k]))
    && !IsClosed(run[m])
  }

  lemma VisibleMemoryIdempotent(orders: seq<Order>, id: string)
    requires orders != []
    ensures VisibleMemory(orders, VisibleMemory(orders, id)) == VisibleMemory(orders, id)
    ensures VisibleMemory(orders, MinOrder(orders).id) == MinOrder(orders).id
  {
    assert MinOrder(orders) in orders;
  }

  /** One smooth step: closed, it waits with what is left of the memory; open, it remembers the cheapest order and
      announces it unless it was remembered already; and once remembered nothing more is sent, open or closed. */
  lemma ItemSmoothStep(stored: ItemStatus, inp: ItemInput)
    requires ItemNothingFails(inp, inp) && inp.topSell.Some? && inp.topSell.value != []
    requires MinOrder(inp.topSell.value).platinum <= inp.spec.threshold
    ensures var s := ReconcileItem(stored, inp); var cheapest := MinOrder(inp.topSell.value);
      var memory := VisibleMemory(inp.topSell.value, stored.notifiedOrderID);
      && (IsClosed(inp) || memory == cheapest.id ==>
            s.delivered == None && s.status.notifiedOrderID == memory)
      && (!IsClosed(inp) && memory != cheapest.id ==>
            s.delivered == Some(cheapest) && s.status.notifiedOrderID == cheapest.id)
  {
    hide VisibleMemory;
  }

  lemma {:induction false} ItemWaits(start: ItemStatus, run: seq<ItemInput>, m: nat, k: nat)
    requires ItemSmoothRun(run, m) && k <= m
    ensures VisibleMemory(run[0].topSell.value, ItemStatusAt(start, run, k).notifiedOrderID)
      == VisibleMemory(run[0].topSell.value, start.notifiedOrderID)
  {
    hide ReconcileItem, VisibleMemory;
    if k == 0 {
    } else {
      ItemWaits(start, run, m, k - 1);
      assert ItemNothingFails(run[k - 1], run[0]);
      ItemSmoothStep(ItemStatusAt(start, run, k - 1), run[k - 1]);
      VisibleMemoryIdempotent(run[0].topSell.value, ItemStatusAt(start, run, k - 1).notifiedOrderID);
    }
  }

  /** A suppressed announcement is not lost and not repeated: nothing is sent while the window is closed; the first step
      inside it announces the cheapest order exactly if it was not remembered from the start; every later step sends
      nothing and remembers that order. */
  lemma {:induction false} ItemConvergesWithoutLoss(start: ItemStatus, run: seq<ItemInput>, m: nat, k: nat)
    requires ItemSmoothRun(run, m) && k < |run|
    ensures var orders := run[0].topSell.value; var cheapest := MinOrder(orders);
      && (k < m ==> ItemStepAt(start, run, k).delivered == None)
      && (k == m ==>
            ItemStepAt(start, run, m).delivered
              == if IsKnown(start, orders, cheapest) then None else Some(cheapest))
      && (k > m ==> ItemStepAt(start, run, k).delivered == None)
      && (k >= m ==> ItemStatusAt(start, run, k + 1).notifiedOrderID == cheapest.id)
  {
    hide ReconcileItem, VisibleMemory, IsKnown;
    KnownIsRemembered(start, run[0].topSell.value, MinOrder(run[0].topSell.value));
    assert ItemNothingFails(run[k], run[0]);
    ItemSmoothStep(ItemStatusAt(start, run, k), run[k]);
    if k <= m {
      ItemWaits(start, run, m, k);
    } else {
      ItemConvergesWithoutLoss(start, run, m, k - 1);
      VisibleMemoryIdempotent(run[0].topSell.value, start.notifiedOrderID);
    }
  }
}
