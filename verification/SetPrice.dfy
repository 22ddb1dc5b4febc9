/** The price of a whole set bought part by part. */
module SetPrice {
  import opened Common
  import opened Market
  import opened MarketAdapter
  import opened BuyPlan
  import opened SetInfo

  datatype PartPrice = PartPrice(part: SetPart, buyOrders: seq<BuyOrderLine>, total: int)

  datatype SetComponentPrice = SetComponentPrice(name: string, slug: string, parts: seq<PartPrice>, totalPlatinum: int)

  const PART_FILTER: OrdersFilter :=
    OrdersFilter(Some(ORDER_TYPE_SELL), [USER_STATUS_INGAME, USER_STATUS_ONLINE], ByPlatinum, Asc)

  /** The sell orders the price of a part is computed from. */
  function PartOrders(b: Backend, part: SetPart): seq<Order>
    requires b.orders(part.slug).Some?
  {
    ProcessedOrders(PART_FILTER, b.orders(part.slug).value)
  }

  function Totals(parts: seq<PartPrice>): int {
    if parts == [] then 0 else parts[0].total + Totals(parts[1..])
  }

  /** A priced part: a greedy plan over some price-sorted arrangement of its orders, and its total. */
  ghost predicate PricedPart(b: Backend, part: SetPart, p: PartPrice) {
    && b.orders(part.slug).Some?
    && p.part == part
    && p.total == Subtotals(p.buyOrders)
    && (exists sorted ::
         IsPermutation(PartOrders(b, part), sorted) && SortedByPrice(sorted) && p.buyOrders == Fill(sorted, part.count))
  }

  ghost predicate PricedParts(b: Backend, parts: seq<SetPart>, priced: seq<PartPrice>) {
    |priced| == |parts| && forall k :: 0 <= k < |parts| ==> PricedPart(b, parts[k], priced[k])
  }

  // ---------- Purchases from what the market returned ----------

  /** The orders one may buy from: sell orders of users in the game or online. */
  predicate IsReachableSell(o: Order) {
    o.orderType == "sell" && (o.user.status == "ingame" || o.user.status == "online")
  }

  function ReachableSupply(raw: seq<Order>): nat {
    if raw == [] then 0 else (if IsReachableSell(raw[0]) then raw[0].quantity else 0) + ReachableSupply(raw[1..])
  }

  /** q buys n units from the response, within the quantities and only from reachable sell orders. */
  ghost predicate IsMarketPurchase(raw: seq<Order>, q: seq<nat>, n: nat) {
    && |q| == |raw|
    && (forall i :: 0 <= i < |q| ==> q[i] <= if IsReachableSell(raw[i]) then raw[i].quantity else 0)
    && Units(q) == n
  }

  /** The units bought of a part: its count, cut to what is reachable. */
  function PartUnits(b: Backend, part: SetPart): nat
    requires b.orders(part.slug).Some?
  {
    if part.count <= 0 then 0 else Min(part.count, ReachableSupply(b.orders(part.slug).value))
  }

  /** One purchase per part from the market's response for it, each of exactly the units bought of the part. */
  ghost predicate IsJointPurchase(b: Backend, parts: seq<SetPart>, qs: seq<seq<nat>>) {
    && |qs| == |parts|
    && (forall k :: 0 <= k < |parts| ==> b.orders(parts[k].slug).Some?)
    && (forall k :: 0 <= k < |parts| ==> IsMarketPurchase(b.orders(parts[k].slug).value, qs[k], PartUnits(b, parts[k])))
  }

  ghost function JointSpend(b: Backend, parts: seq<SetPart>, qs: seq<seq<nat>>): int
    requires IsJointPurchase(b, parts, qs)
  {
    if parts == [] then 0
    else Spend(b.orders(parts[0].slug).value, qs[0]) + JointSpend(b, parts[1..], qs[1..])
  }

  /** total is the price of some joint purchase of the parts, and no joint purchase is cheaper. */
  ghost predicate IsCheapestSet(b: Backend, parts: seq<SetPart>, total: int) {
    && (exists qs :: IsJointPurchase(b, parts, qs) && JointSpend(b, parts, qs) == total)
    && (forall qs :: IsJointPurchase(b, parts, qs) ==> total <= JointSpend(b, parts, qs))
  }

  /** No reachable sell order of the part is dearer than price. */
  ghost predicate CostsAtMostEach(b: Backend, part: SetPart, price: int)
    requires b.orders(part.slug).Some?
  {
    var raw := b.orders(part.slug).value;
    forall i :: 0 <= i < |raw| && IsReachableSell(raw[i]) ==> raw[i].platinum <= price
  }

  ghost function UnitsAtPrices(b: Backend, parts: seq<SetPart>, prices: seq<int>): int
    requires |prices| == |parts| && forall k :: 0 <= k < |parts| ==> b.orders(parts[k].slug).Some?
  {
    if parts == [] then 0 else PartUnits(b, parts[0]) * prices[0] + UnitsAtPrices(b, parts[1..], prices[1..])
  }

  /** Whatever bounds the price of every reachable sell order of each part bounds total by units times bound. */
  ghost predicate IsWithinPrices(b: Backend, parts: seq<SetPart>, total: int)
    requires forall k :: 0 <= k < |parts| ==> b.orders(parts[k].slug).Some?
  {
    forall prices: seq<int> ::
      |prices| == |parts| && (forall k :: 0 <= k < |parts| ==> CostsAtMostEach(b, parts[k], prices[k])) ==>
        total <= UnitsAtPrices(b, parts, prices)
  }

  lemma SelectsReachable(o: Order)
    ensures OrderMatches(PART_FILTER, o) <==> IsReachableSell(o)
  {
    assert PART_FILTER.status == [USER_STATUS_INGAME, USER_STATUS_ONLINE];
  }

  function Reachable(raw: seq<Order>): seq<Order> {
    if raw == [] then []
    else if IsReachableSell(raw[0]) then [raw[0]] + Reachable(raw[1..])
    else Reachable(raw[1..])
  }

  lemma {:induction false} ReachableIsMatching(raw: seq<Order>)
    ensures Reachable(raw) == MatchingOrders(PART_FILTER, raw)
    ensures ReachableSupply(raw) == Supply(Reachable(raw))
  {
    if raw == [] {
    } else {
      SelectsReachable(raw[0]);
      ReachableIsMatching(raw[1..]);
      assert [] + MatchingOrders(PART_FILTER, raw[1..]) == MatchingOrders(PART_FILTER, raw[1..]);
      assert IsReachableSell(raw[0]) ==> Reachable(raw)[1..] == Reachable(raw[1..]);
    }
  }

  lemma ConsPurchase(orders: seq<Order>, q: seq<nat>, n: nat, o: Order, x: nat)
    requires IsPurchase(orders, q, n) && x <= o.quantity
    ensures IsPurchase([o] + orders, [x] + q, x + n)
    ensures Spend([o] + orders, [x] + q) == x * o.platinum + Spend(orders, q)
  {
    assert ([o] + orders)[1..] == orders && ([x] + q)[1..] == q;
  }

  lemma TailMarketPurchase(raw: seq<Order>, q: seq<nat>, n: nat)
    requires raw != [] && IsMarketPurchase(raw, q, n)
    ensures q[0] <= n && IsMarketPurchase(raw[1..], q[1..], n - q[0])
  {
    forall i | 0 <= i < |q[1..]| ensures q[1..][i] <= if IsReachableSell(raw[1..][i]) then raw[1..][i].quantity else 0 {
      assert q[1..][i] == q[i + 1] && raw[1..][i] == raw[i + 1];
    }
  }

  lemma ConsMarketPurchase(raw: seq<Order>, q: seq<nat>, n: nat, x: nat)
    requires raw != [] && IsMarketPurchase(raw[1..], q, n)
    requires x <= if IsReachableSell(raw[0]) then raw[0].quantity else 0
    ensures IsMarketPurchase(raw, [x] + q, x + n)
    ensures Spend(raw, [x] + q) == x * raw[0].platinum + Spend(raw[1..], q)
  {
    var r := [x] + q;
    assert r[1..] == q;
    forall i | 0 <= i < |r| ensures r[i] <= if IsReachableSell(raw[i]) then raw[i].quantity else 0 {
      if i > 0 { assert r[i] == q[i - 1] && raw[i] == raw[1..][i - 1]; }
    }
  }

  /** A purchase from the response is a purchase from its reachable sell orders, unit for unit. */
  lemma {:induction false} FromMarket(raw: seq<Order>, q: seq<nat>, n: nat) returns (r: seq<nat>)
    requires IsMarketPurchase(raw, q, n)
    ensures IsPurchase(Reachable(raw), r, n) && Spend(Reachable(raw), r) == Spend(raw, q)
    decreases |raw|
  {
    if raw == [] {
      r := [];
    } else {
      TailMarketPurchase(raw, q, n);
      r := FromMarket(raw[1..], q[1..], n - q[0]);
      if IsReachableSell(raw[0]) {
        ConsPurchase(Reachable(raw[1..]), r, n - q[0], raw[0], q[0]);
        r := [q[0]] + r;
      }
    }
  }

  /** And the other way around. */
  lemma {:induction false} ToMarket(raw: seq<Order>, r: seq<nat>, n: nat) returns (q: seq<nat>)
    requires IsPurchase(Reachable(raw), r, n)
    ensures IsMarketPurchase(raw, q, n) && Spend(raw, q) == Spend(Reachable(raw), r)
    decreases |raw|
  {
    if raw == [] {
      q := [];
    } else if IsReachableSell(raw[0]) {
      assert Reachable(raw)[1..] == Reachable(raw[1..]);
      RestOfPurchase(Reachable(raw), r, n);
      q := ToMarket(raw[1..], r[1..], n - r[0]);
      ConsMarketPurchase(raw, q, n - r[0], r[0]);
      q := [r[0]] + q;
    } else {
      q := ToMarket(raw[1..], r, n);
      ConsMarketPurchase(raw, q, n, 0);
      q := [0] + q;
    }
  }

  // ---------- Pricing ----------

  lemma {:induction false} TotalsSnoc(parts: seq<PartPrice>, p: PartPrice)
    ensures Totals(parts + [p]) == Totals(parts) + p.total
  {
    if parts == [] {
      assert parts + [p] == [p];
    } else {
      assert (parts + [p])[1..] == parts[1..] + [p];
      TotalsSnoc(parts[1..], p);
    }
  }

  /** Part k is the first whose orders cannot be fetched. */
  ghost predicate FirstFailure(b: Backend, parts: seq<SetPart>, k: nat) {
    k < |parts| && b.orders(parts[k].slug).None? && forall j :: 0 <= j < k ==> b.orders(parts[j].slug).Some?
  }

  lemma FailsFirstAt(b: Backend, parts: seq<SetPart>, i: nat, priced: seq<PartPrice>)
    requires i < |parts| && PricedParts(b, parts[..i], priced) && b.orders(parts[i].slug).None?
    ensures FirstFailure(b, parts, i)
  {
    forall j | 0 <= j < i ensures b.orders(parts[j].slug).Some? {
      assert PricedPart(b, parts[..i][j], priced[j]);
    }
  }

  lemma PricesNext(b: Backend, parts: seq<SetPart>, i: nat, priced: seq<PartPrice>, p: PartPrice)
    requires i < |parts| && PricedParts(b, parts[..i], priced) && PricedPart(b, parts[i], p)
    ensures PricedParts(b, parts[..i + 1], priced + [p])
    ensures Totals(priced + [p]) == Totals(priced) + p.total
  {
    TotalsSnoc(priced, p);
    forall k | 0 <= k < i + 1 ensures PricedPart(b, parts[..i + 1][k], (priced + [p])[k]) {
      if k < i { assert PricedPart(b, parts[..i][k], priced[k]); }
    }
  }

  /** The body of the pricing loop: fetch, filter and sort the orders of one part, plan, and add up; None when the
      fetch fails. */
  method PricePart(b: Backend, part: SetPart) returns (p: Option<PartPrice>)
    ensures p.None? <==> b.orders(part.slug).None?
    ensures p.Some? ==> PricedPart(b, part, p.value)
  {
    hide IsGreedyPlan, IsMinimumCost, Fill, Wanted, Bought, ProcessedOrders;
    var response: Result<seq<Order>, ()> := match b.orders(part.slug) case None => Err(()) case Some(o) => Ok(o);
    var orders := GetOrdersByItem(response, PART_FILTER);
    if orders.Err? { return None; }
    var lines := BuildBuyPlan(orders.value, part.count);
    var total := 0;
    for n := 0 to |lines|
      invariant total == Subtotals(lines[..n])
    {
      assert lines[..n + 1] == lines[..n] + [lines[n]];
      SubtotalsSnoc(lines[..n], lines[n]);
      total := total + lines[n].subtotal;
    }
    assert lines[..|lines|] == lines;
    return Some(PartPrice(part, lines, total));
  }

  /** The pricing loop over the parts; it stops at the first part whose orders cannot be fetched. */
  method PriceParts(b: Backend, parts: seq<SetPart>)
    returns (failed: Option<nat>, priced: seq<PartPrice>, totalPlatinum: int)
    ensures failed.Some? ==> FirstFailure(b, parts, failed.value)
    ensures failed.None? ==> PricedParts(b, parts, priced) && totalPlatinum == Totals(priced)
  {
    priced, totalPlatinum := [], 0;
    for i := 0 to |parts|
      invariant PricedParts(b, parts[..i], priced)
      invariant totalPlatinum == Totals(priced)
    {
      var p := PricePart(b, parts[i]);
      if p.None? {
        FailsFirstAt(b, parts, i, priced);
        return Some(i), priced, totalPlatinum;
      }
      PricesNext(b, parts, i, priced, p.value);
      priced := priced + [p.value];
      totalPlatinum := totalPlatinum + p.value.total;
    }
    assert parts[..|parts|] == parts;
    return None, priced, totalPlatinum;
  }

  // ---------- What the reported total means ----------

  lemma ProcessedIsReachable(b: Backend, part: SetPart)
    requires b.orders(part.slug).Some?
    ensures IsPermutation(Reachable(b.orders(part.slug).value), PartOrders(b, part))
    ensures Wanted(PartOrders(b, part), part.count) == PartUnits(b, part)
  {
    var raw := b.orders(part.slug).value;
    ReachableIsMatching(raw);
    ProcessedOrdersRefinesSpec(PART_FILTER, raw);
    SupplyPermutation(Reachable(raw), PartOrders(b, part));
  }

  /** The total of a part is the price of some purchase of its units from the response, and no such purchase is
      cheaper. */
  lemma PricedPartIsCheapest(b: Backend, part: SetPart, p: PartPrice)
    requires PricedPart(b, part, p)
    ensures var raw := b.orders(part.slug).value; var n := PartUnits(b, part);
      && Bought(p.buyOrders) == n
      && (exists q: seq<nat> :: IsMarketPurchase(raw, q, n) && Spend(raw, q) == p.total)
      && (forall q: seq<nat> :: IsMarketPurchase(raw, q, n) ==> p.total <= Spend(raw, q))
  {
    var raw, n, orders := b.orders(part.slug).value, PartUnits(b, part), PartOrders(b, part);
    ProcessedIsReachable(b, part);
    hide PartOrders, PartUnits, Wanted, Fill, Reachable, SortedByPrice;
    var sorted :| IsPermutation(orders, sorted) && SortedByPrice(sorted) && p.buyOrders == Fill(sorted, part.count);
    GreedyIsOptimal(orders, sorted, part.count);
    var r: seq<nat> :| IsPurchase(orders, r, n) && Spend(orders, r) == p.total;
    var t := TransportPurchase(orders, r, Reachable(raw), n);
    var q := ToMarket(raw, t, n);
    forall q: seq<nat> | IsMarketPurchase(raw, q, n) ensures p.total <= Spend(raw, q) {
      var u := FromMarket(raw, q, n);
      var v := TransportPurchase(Reachable(raw), u, orders, n);
    }
  }

  lemma PricedPartsTail(b: Backend, parts: seq<SetPart>, priced: seq<PartPrice>)
    requires parts != [] && PricedParts(b, parts, priced)
    ensures PricedPart(b, parts[0], priced[0]) && PricedParts(b, parts[1..], priced[1..])
  {
    forall k | 0 <= k < |parts[1..]| ensures PricedPart(b, parts[1..][k], priced[1..][k]) {
      assert PricedPart(b, parts[k + 1], priced[k + 1]);
    }
  }

  lemma ConsJointPurchase(b: Backend, parts: seq<SetPart>, q: seq<nat>, rest: seq<seq<nat>>)
    requires parts != [] && b.orders(parts[0].slug).Some?
    requires IsMarketPurchase(b.orders(parts[0].slug).value, q, PartUnits(b, parts[0]))
    requires IsJointPurchase(b, parts[1..], rest)
    ensures IsJointPurchase(b, parts, [q] + rest)
    ensures JointSpend(b, parts, [q] + rest)
      == Spend(b.orders(parts[0].slug).value, q) + JointSpend(b, parts[1..], rest)
  {
    hide PartUnits, IsMarketPurchase;
    var qs := [q] + rest;
    assert qs[1..] == rest;
    forall k | 0 <= k < |parts|
      ensures b.orders(parts[k].slug).Some?
        && IsMarketPurchase(b.orders(parts[k].slug).value, qs[k], PartUnits(b, parts[k]))
    {
      if k > 0 { assert parts[k] == parts[1..][k - 1] && qs[k] == rest[k - 1]; }
    }
  }

  lemma {:induction false} SetTotalIsAttained(b: Backend, parts: seq<SetPart>, priced: seq<PartPrice>)
    returns (qs: seq<seq<nat>>)
    requires PricedParts(b, parts, priced)
    ensures IsJointPurchase(b, parts, qs) && JointSpend(b, parts, qs) == Totals(priced)
    decreases |parts|
  {
    if parts == [] {
      qs := [];
    } else {
      PricedPartsTail(b, parts, priced);
      PricedPartIsCheapest(b, parts[0], priced[0]);
      var rest := SetTotalIsAttained(b, parts[1..], priced[1..]);
      var raw := b.orders(parts[0].slug).value;
      var q: seq<nat> :| IsMarketPurchase(raw, q, PartUnits(b, parts[0])) && Spend(raw, q) == priced[0].total;
      ConsJointPurchase(b, parts, q, rest);
      qs := [q] + rest;
    }
  }

  lemma TailJointPurchase(b: Backend, parts: seq<SetPart>, qs: seq<seq<nat>>)
    requires parts != [] && IsJointPurchase(b, parts, qs)
    ensures IsJointPurchase(b, parts[1..], qs[1..])
  {
    hide PartUnits, IsMarketPurchase;
    forall k | 0 <= k < |parts[1..]|
      ensures b.orders(parts[1..][k].slug).Some?
      ensures IsMarketPurchase(b.orders(parts[1..][k].slug).value, qs[1..][k], PartUnits(b, parts[1..][k]))
    {
      assert parts[1..][k] == parts[k + 1] && qs[1..][k] == qs[k + 1];
    }
  }

  lemma {:induction false} SetTotalIsLowerBound(b: Backend, parts: seq<SetPart>, priced: seq<PartPrice>,
                                                qs: seq<seq<nat>>)
    requires PricedParts(b, parts, priced) && IsJointPurchase(b, parts, qs)
    ensures Totals(priced) <= JointSpend(b, parts, qs)
    decreases |parts|
  {
    if parts == [] {
    } else {
      PricedPartsTail(b, parts, priced);
      PricedPartIsCheapest(b, parts[0], priced[0]);
      TailJointPurchase(b, parts, qs);
      SetTotalIsLowerBound(b, parts[1..], priced[1..], qs[1..]);
    }
  }

  /** The total of the set is attained by a joint purchase, and no joint purchase of the parts is cheaper. */
  lemma SetTotalIsMinimal(b: Backend, parts: seq<SetPart>, priced: seq<PartPrice>)
    requires PricedParts(b, parts, priced)
    ensures IsCheapestSet(b, parts, Totals(priced))
  {
    var qs := SetTotalIsAttained(b, parts, priced);
    forall rs | IsJointPurchase(b, parts, rs) ensures Totals(priced) <= JointSpend(b, parts, rs) {
      SetTotalIsLowerBound(b, parts, priced, rs);
    }
  }

  lemma ProductAtMost(x: nat, low: int, high: int)
    requires x == 0 || low <= high
    ensures x * low <= x * high
  {}

  lemma {:induction false} SpendAtMost(raw: seq<Order>, q: seq<nat>, n: nat, price: int)
    requires IsMarketPurchase(raw, q, n)
    requires forall i :: 0 <= i < |raw| && IsReachableSell(raw[i]) ==> raw[i].platinum <= price
    ensures Spend(raw, q) <= n * price
    decreases |raw|
  {
    if raw == [] {
    } else {
      TailMarketPurchase(raw, q, n);
      SpendAtMost(raw[1..], q[1..], n - q[0], price);
      ProductAtMost(q[0], raw[0].platinum, price);
      Distribute(q[0], n - q[0], price);
    }
  }

  /** A part never costs more than its units at the highest price on offer. */
  lemma PartCostsAtMost(b: Backend, part: SetPart, p: PartPrice, price: int)
    requires PricedPart(b, part, p) && CostsAtMostEach(b, part, price)
    ensures p.total <= PartUnits(b, part) * price
  {
    var raw, n := b.orders(part.slug).value, PartUnits(b, part);
    PricedPartIsCheapest(b, part, p);
    hide PartUnits;
    var q: seq<nat> :| IsMarketPurchase(raw, q, n) && Spend(raw, q) == p.total;
    SpendAtMost(raw, q, n, price);
  }

  /** Nor does the set, summed over its parts. */
  lemma {:induction false} SetCostsAtMost(b: Backend, parts: seq<SetPart>, priced: seq<PartPrice>, prices: seq<int>)
    requires PricedParts(b, parts, priced) && |prices| == |parts|
    requires forall k :: 0 <= k < |parts| ==> b.orders(parts[k].slug).Some? && CostsAtMostEach(b, parts[k], prices[k])
    ensures Totals(priced) <= UnitsAtPrices(b, parts, prices)
    decreases |parts|
  {
    if parts == [] {
    } else {
      PricedPartsTail(b, parts, priced);
      PartCostsAtMost(b, parts[0], priced[0], prices[0]);
      SetCostsAtMost(b, parts[1..], priced[1..], prices[1..]);
    }
  }

  lemma SetTotalIsWithinPrices(b: Backend, parts: seq<SetPart>, priced: seq<PartPrice>)
    requires PricedParts(b, parts, priced)
    ensures forall k :: 0 <= k < |parts| ==> b.orders(parts[k].slug).Some?
    ensures IsWithinPrices(b, parts, Totals(priced))
  {
    forall prices: seq<int> |
      |prices| == |parts| && (forall k :: 0 <= k < |parts| ==> CostsAtMostEach(b, parts[k], prices[k]))
      ensures Totals(priced) <= UnitsAtPrices(b, parts, prices)
    {
      SetCostsAtMost(b, parts, priced, prices);
    }
  }

  /** However the unstable sorts order equal prices, the set costs the same. */
  lemma SetTotalIsDeterministic(b: Backend, parts: seq<SetPart>, p: seq<PartPrice>, q: seq<PartPrice>)
    requires PricedParts(b, parts, p) && PricedParts(b, parts, q)
    ensures Totals(p) == Totals(q)
  {
    SetTotalIsMinimal(b, parts, p);
    SetTotalIsMinimal(b, parts, q);
    var x :| IsJointPurchase(b, parts, x) && JointSpend(b, parts, x) == Totals(p);
    var y :| IsJointPurchase(b, parts, y) && JointSpend(b, parts, y) == Totals(q);
  }

  lemma {:induction false} FillUsesOrders(sorted: seq<Order>, need: int, l: BuyOrderLine)
    requires l in Fill(sorted, need)
    ensures exists o :: o in sorted && o.user == l.seller && o.platinum == l.price && l.quantity <= o.quantity
    ensures l.subtotal == l.quantity * l.price
    decreases |sorted|
  {
    var take := Min(sorted[0].quantity, need);
    if l in Fill(sorted[1..], need - take) {
      FillUsesOrders(sorted[1..], need - take, l);
    } else {
      assert sorted[0] in sorted;
    }
  }

  /** Every line of every plan buys, at its own price and within its quantity, from a sell order of a user in the
      game or online, among the orders the market returned for that part. */
  lemma LinesUseReachableSellers(b: Backend, part: SetPart, p: PartPrice, l: BuyOrderLine)
    requires PricedPart(b, part, p) && l in p.buyOrders
    ensures exists o ::
      && o in b.orders(part.slug).value
      && o.user == l.seller && o.platinum == l.price && l.quantity <= o.quantity
      && o.orderType == "sell"
      && (o.user.status == "ingame" || o.user.status == "online")
    ensures l.subtotal == l.quantity * l.price
  {
    hide Fill, ProcessedOrders, SortedByPrice;
    var orders := PartOrders(b, part);
    var sorted :| IsPermutation(orders, sorted) && SortedByPrice(sorted) && p.buyOrders == Fill(sorted, part.count);
    FillUsesOrders(sorted, part.count, l);
    var o: Order :| o in sorted && o.user == l.seller && o.platinum == l.price && l.quantity <= o.quantity;
    assert o in multiset(sorted);
    assert o in orders;
    ProcessedOrdersRefinesSpec(PART_FILTER, b.orders(part.slug).value);
  }

  // ---------- The price of a set ----------

  /** p is a greedy and cheapest plan for the part over the reachable sell orders of the market's response. */
  ghost predicate IsPartPrice(b: Backend, part: SetPart, p: PartPrice) {
    && b.orders(part.slug).Some?
    && p.part == part
    && IsGreedyPlan(Reachable(b.orders(part.slug).value), part.count, p.buyOrders)
    && p.total == Subtotals(p.buyOrders)
    && IsCheapestSet(b, [part], p.total)
  }

  lemma PricedPartIsPartPrice(b: Backend, part: SetPart, p: PartPrice)
    requires PricedPart(b, part, p)
    ensures IsPartPrice(b, part, p)
  {
    hide Fill, IsCheapestSet, SortedByPrice, PartOrders, Reachable, IsGreedyPlan;
    var orders := PartOrders(b, part);
    ProcessedIsReachable(b, part);
    var sorted :| IsPermutation(orders, sorted) && SortedByPrice(sorted) && p.buyOrders == Fill(sorted, part.count);
    FillIsGreedyPlan(Reachable(b.orders(part.slug).value), sorted, part.count);
    assert Totals([p]) == p.total + Totals([]);
    SetTotalIsMinimal(b, [part], [p]);
  }

  /** The answer for a set whose description is info: the first part whose orders cannot be fetched, or the price of
      every part and their sum, which no way of buying the parts undercuts. */
  ghost predicate IsPricing(b: Backend, info: SetDescription, r: Result<SetComponentPrice, SetError>) {
    match r
    case Err(e) => exists k: nat :: FirstFailure(b, info.parts, k) && e == FetchingOrders(info.parts[k].slug)
    case Ok(price) =>
      && price.name == info.name && price.slug == info.slug
      && |price.parts| == |info.parts|
      && (forall k :: 0 <= k < |info.parts| ==> IsPartPrice(b, info.parts[k], price.parts[k]))
      && price.totalPlatinum == Totals(price.parts)
      && IsCheapestSet(b, info.parts, price.totalPlatinum)
      && IsWithinPrices(b, info.parts, price.totalPlatinum)
  }

  method GetSetComponentPrice(b: Backend, slug: string) returns (r: Result<SetComponentPrice, SetError>)
    ensures exists d ::
      IsDescription(b, slug, d) && if d.Ok? then IsPricing(b, d.value, r) else r == Err(d.error)
  {
    hide Describe, IsDescription, PricedPart, IsPartPrice, IsCheapestSet, IsWithinPrices, FirstFailure;
    var described := GetSetInfo(b, slug);
    if described.Err? { return Err(described.error); }
    var info := described.value;
    var failed, priced, totalPlatinum := PriceParts(b, info.parts);
    if failed.Some? {
      r := Err(FetchingOrders(info.parts[failed.value].slug));
      assert IsPricing(b, info, r);
      return;
    }
    SetTotalIsMinimal(b, info.parts, priced);
    SetTotalIsWithinPrices(b, info.parts, priced);
    forall k | 0 <= k < |info.parts| ensures IsPartPrice(b, info.parts[k], priced[k]) {
      PricedPartIsPartPrice(b, info.parts[k], priced[k]);
    }
    r := Ok(SetComponentPrice(info.name, info.slug, priced, totalPlatinum));
    assert IsPricing(b, info, r);
  }
}
