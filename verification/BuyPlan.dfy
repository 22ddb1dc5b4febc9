/** Greedy buying of one set part: fill the need from the cheapest sell orders first. */
module BuyPlan {
  import opened Common
  import opened Market

  datatype BuyOrderLine = BuyOrderLine(seller: OrderUser, quantity: nat, price: int, subtotal: int)

  // ---------- What a purchase is, independently of how the plan is found ----------

  function Supply(orders: seq<Order>): nat {
    if orders == [] then 0 else orders[0].quantity + Supply(orders[1..])
  }

  /** The number of units the plan is for: the need, cut to what is on offer; nothing for a need below one. */
  function Wanted(orders: seq<Order>, need: int): nat {
    if need <= 0 then 0 else Min(need, Supply(orders))
  }

  function Units(q: seq<nat>): nat {
    if q == [] then 0 else q[0] + Units(q[1..])
  }

  function Spend(orders: seq<Order>, q: seq<nat>): int
    requires |orders| == |q|
  {
    if orders == [] then 0 else q[0] * orders[0].platinum + Spend(orders[1..], q[1..])
  }

  /** q buys q[i] units from order i, never more than the order holds, and n units altogether. */
  ghost predicate IsPurchase(orders: seq<Order>, q: seq<nat>, n: nat) {
    && |q| == |orders|
    && (forall i :: 0 <= i < |q| ==> q[i] <= orders[i].quantity)
    && Units(q) == n
  }

  /** total is the price of some purchase of n units and no purchase of n units is cheaper. */
  ghost predicate IsMinimumCost(orders: seq<Order>, n: nat, total: int) {
    && (exists q: seq<nat> :: IsPurchase(orders, q, n) && Spend(orders, q) == total)
    && (forall q: seq<nat> :: IsPurchase(orders, q, n) ==> total <= Spend(orders, q))
  }

  ghost predicate SortedByPrice(orders: seq<Order>) {
    forall i, j :: 0 <= i < j < |orders| ==> orders[i].platinum <= orders[j].platinum
  }

  function Repeat(x: int, n: nat): (r: seq<int>)
    ensures |r| == n && forall i :: 0 <= i < n ==> r[i] == x
  {
    seq(n, _ => x)
  }

  /** One price per unit on offer, in the order of the list. */
  function UnitPrices(orders: seq<Order>): seq<int> {
    if orders == [] then [] else Repeat(orders[0].platinum, orders[0].quantity) + UnitPrices(orders[1..])
  }

  function Sum(s: seq<int>): int {
    if s == [] then 0 else s[0] + Sum(s[1..])
  }

  // ---------- The greedy fill ----------

  function Fill(sorted: seq<Order>, need: int): seq<BuyOrderLine> {
    if sorted == [] || need <= 0 then []
    else
      var take := Min(sorted[0].quantity, need);
      [BuyOrderLine(sorted[0].user, take, sorted[0].platinum, take * sorted[0].platinum)]
      + Fill(sorted[1..], need - take)
  }

  lemma FillDone(sorted: seq<Order>, left: int)
    requires sorted == [] || left <= 0
    ensures Fill(sorted, left) == []
  {}

  function Subtotals(lines: seq<BuyOrderLine>): int {
    if lines == [] then 0 else lines[0].subtotal + Subtotals(lines[1..])
  }

  function Bought(lines: seq<BuyOrderLine>): nat {
    if lines == [] then 0 else lines[0].quantity + Bought(lines[1..])
  }

  lemma {:induction false} SubtotalsSnoc(lines: seq<BuyOrderLine>, l: BuyOrderLine)
    ensures Subtotals(lines + [l]) == Subtotals(lines) + l.subtotal
  {
    if lines == [] {
      assert lines + [l] == [l];
    } else {
      assert (lines + [l])[1..] == lines[1..] + [l];
      SubtotalsSnoc(lines[1..], l);
    }
  }

  /** The units the greedy plan takes from each order of the list, untouched orders included. */
  ghost function GreedyPurchase(sorted: seq<Order>, n: nat): seq<nat> {
    if sorted == [] then []
    else
      var take := Min(sorted[0].quantity, n);
      [take] + GreedyPurchase(sorted[1..], n - take)
  }

  lemma {:induction false} FillIsGreedyPurchase(s: seq<Order>, need: nat)
    ensures |GreedyPurchase(s, need)| == |s|
    ensures IsPurchase(s, GreedyPurchase(s, need), Min(need, Supply(s)))
    ensures Subtotals(Fill(s, need)) == Spend(s, GreedyPurchase(s, need))
    ensures Bought(Fill(s, need)) == Min(need, Supply(s))
    decreases |s|
  {
    if s == [] {
    } else {
      var take := Min(s[0].quantity, need);
      FillIsGreedyPurchase(s[1..], need - take);
      var q := GreedyPurchase(s, need);
      assert q[1..] == GreedyPurchase(s[1..], need - take);
      forall i | 0 <= i < |q| ensures q[i] <= s[i].quantity {
        if i == 0 {
        } else {
          assert q[i] == q[1..][i - 1] && s[i] == s[1..][i - 1];
        }
      }
      if need > 0 {
        assert Fill(s, need)[1..] == Fill(s[1..], need - take);
      } else {
        assert Fill(s[1..], need - take) == [];
      }
    }
  }

  // ---------- Optimality: the exchange argument ----------

  function GreedyCost(s: seq<Order>, n: nat): int {
    Subtotals(Fill(s, n))
  }

  lemma GreedyCostStep(s: seq<Order>, n: nat)
    requires s != []
    ensures var take := Min(s[0].quantity, n); GreedyCost(s, n) == take * s[0].platinum + GreedyCost(s[1..], n - take)
  {
    if n > 0 {
      var take := Min(s[0].quantity, n);
      assert Fill(s, n)[1..] == Fill(s[1..], n - take);
    } else {
      assert Fill(s[1..], 0) == [];
    }
  }

  lemma TradeUp(t0: nat, t1: nat, d: nat, low: int, high: int)
    requires t0 <= t1 <= t0 + d && low <= high
    ensures t0 * high + d * low <= t1 * high + (d - (t1 - t0)) * low
  {
    var k := t1 - t0;
    assert k * low <= k * high;
    assert t1 * high == t0 * high + k * high;
    assert d * low == (d - k) * low + k * low;
  }

  /** If every order costs at least p, raising the need by d raises the greedy cost by at least d * p. */
  lemma {:induction false} MarginalAtLeast(s: seq<Order>, m: nat, d: nat, p: int)
    requires forall i :: 0 <= i < |s| ==> p <= s[i].platinum
    requires m + d <= Supply(s)
    ensures GreedyCost(s, m) + d * p <= GreedyCost(s, m + d)
    decreases |s|
  {
    if s != [] {
      var t0, t1 := Min(s[0].quantity, m), Min(s[0].quantity, m + d);
      GreedyCostStep(s, m);
      GreedyCostStep(s, m + d);
      MarginalAtLeast(s[1..], m - t0, d - (t1 - t0), p);
      TradeUp(t0, t1, d, p, s[0].platinum);
    } else {
      assert GreedyCost(s, m) == GreedyCost(s, m + d) == 0;
    }
  }

  lemma Distribute(a: int, b: int, x: int)
    ensures (a + b) * x == a * x + b * x
  {}

  lemma RestOfPurchase(s: seq<Order>, q: seq<nat>, n: nat)
    requires s != [] && IsPurchase(s, q, n)
    ensures q[0] <= s[0].quantity && q[0] <= n && IsPurchase(s[1..], q[1..], n - q[0])
  {
    forall i | 0 <= i < |q[1..]| ensures q[1..][i] <= s[1..][i].quantity {
      assert q[1..][i] == q[i + 1] && s[1..][i] == s[i + 1];
    }
  }

  lemma {:induction false} PurchaseWithinSupply(s: seq<Order>, q: seq<nat>, n: nat)
    requires IsPurchase(s, q, n)
    ensures n <= Supply(s)
    decreases |s|
  {
    if s == [] {
    } else {
      RestOfPurchase(s, q, n);
      PurchaseWithinSupply(s[1..], q[1..], n - q[0]);
    }
  }

  /** Exchange step, on the sorted list: whatever a purchase leaves in the cheapest order can only be bought dearer. */
  lemma {:induction false} GreedyBeatsPurchase(s: seq<Order>, q: seq<nat>, n: nat)
    requires SortedByPrice(s) && IsPurchase(s, q, n)
    ensures GreedyCost(s, n) <= Spend(s, q)
    decreases |s|
  {
    hide Fill;
    PurchaseWithinSupply(s, q, n);
    if s != [] {
      var take, q0 := Min(s[0].quantity, n), q[0];
      RestOfPurchase(s, q, n);
      GreedyBeatsPurchase(s[1..], q[1..], n - q0);
      PurchaseWithinSupply(s[1..], q[1..], n - q0);
      GreedyCostStep(s, n);
      MarginalAtLeast(s[1..], n - take, take - q0, s[0].platinum);
      Distribute(q0, take - q0, s[0].platinum);
    } else {
      FillDone(s, n);
    }
  }

  lemma {:induction false} UnitsInsert(q: seq<nat>, i: nat, x: nat)
    requires i <= |q|
    ensures Units(q[..i] + [x] + q[i..]) == Units(q) + x
  {
    var r := q[..i] + [x] + q[i..];
    if i == 0 {
      assert r == [x] + q;
    } else {
      assert r[1..] == q[1..][..i - 1] + [x] + q[1..][i - 1..];
      UnitsInsert(q[1..], i - 1, x);
    }
  }

  lemma {:induction false} SpendInsert(orders: seq<Order>, q: seq<nat>, i: nat, x: nat)
    requires i < |orders| && |q| == |orders| - 1
    ensures Spend(orders, q[..i] + [x] + q[i..]) == Spend(RemoveAt(orders, i), q) + x * orders[i].platinum
  {
    var r := q[..i] + [x] + q[i..];
    var rest := RemoveAt(orders, i);
    if i == 0 {
      assert r[1..] == q && rest == orders[1..];
    } else {
      assert r[1..] == q[1..][..i - 1] + [x] + q[1..][i - 1..];
      assert rest[1..] == RemoveAt(orders[1..], i - 1);
      SpendInsert(orders[1..], q[1..], i - 1, x);
    }
  }

  /** A purchase from one arrangement of the orders is, order by order, a purchase from any other arrangement. */
  lemma {:induction false} TransportPurchase(a: seq<Order>, q: seq<nat>, b: seq<Order>, n: nat) returns (r: seq<nat>)
    requires IsPermutation(a, b) && IsPurchase(a, q, n)
    ensures IsPurchase(b, r, n) && Spend(b, r) == Spend(a, q)
    decreases |a|
  {
    assert |multiset(a)| == |a| && |multiset(b)| == |b|;
    if a == [] {
      r := [];
    } else {
      var i := SplitPermutation(a, b);
      RestOfPurchase(a, q, n);
      var rest := TransportPurchase(a[1..], q[1..], RemoveAt(b, i), n - q[0]);
      r := rest[..i] + [q[0]] + rest[i..];
      UnitsInsert(rest, i, q[0]);
      SpendInsert(b, rest, i, q[0]);
      forall k | 0 <= k < |r| ensures r[k] <= b[k].quantity {
        if k == i {
          assert q[0] <= a[0].quantity;
        } else {
          var m := if k < i then k else k - 1;
          assert r[k] == rest[m] && RemoveAt(b, i)[m] == b[k];
        }
      }
    }
  }

  lemma SupplyPermutation(a: seq<Order>, b: seq<Order>)
    requires IsPermutation(a, b)
    ensures Supply(a) == Supply(b)
  {
    FillIsGreedyPurchase(a, Supply(a));
    FillIsGreedyPurchase(b, Supply(b));
    var q := TransportPurchase(a, GreedyPurchase(a, Supply(a)), b, Supply(a));
    PurchaseWithinSupply(b, q, Supply(a));
    var r := TransportPurchase(b, GreedyPurchase(b, Supply(b)), a, Supply(b));
    PurchaseWithinSupply(a, r, Supply(b));
  }

  /** Asking for more than is on offer costs what everything on offer costs. */
  lemma {:induction false} FillToSupply(s: seq<Order>, n: nat)
    ensures GreedyCost(s, n) == GreedyCost(s, Min(n, Supply(s)))
    decreases |s|
  {
    if s == [] {
    } else {
      var m := Min(n, Supply(s));
      GreedyCostStep(s, n);
      GreedyCostStep(s, m);
      var t0, t1 := Min(s[0].quantity, n), Min(s[0].quantity, m);
      assert t0 == t1;
      FillToSupply(s[1..], n - t0);
      FillToSupply(s[1..], m - t1);
    }
  }

  /** The greedy plan over any price-sorted arrangement of the orders is a cheapest purchase from the orders. */
  lemma GreedyIsOptimal(orders: seq<Order>, sorted: seq<Order>, need: int)
    requires IsPermutation(orders, sorted) && SortedByPrice(sorted)
    ensures Bought(Fill(sorted, need)) == Wanted(orders, need)
    ensures IsMinimumCost(orders, Wanted(orders, need), Subtotals(Fill(sorted, need)))
  {
    var want: nat := if need <= 0 then 0 else need;
    SupplyPermutation(orders, sorted);
    FillIsGreedyPurchase(sorted, want);
    var n := Min(want, Supply(orders));
    assert n == Wanted(orders, need);
    var total := Subtotals(Fill(sorted, want));
    var r := TransportPurchase(sorted, GreedyPurchase(sorted, want), orders, n);
    FillToSupply(sorted, want);
    forall q: seq<nat> | IsPurchase(orders, q, n) ensures total <= Spend(orders, q) {
      var t := TransportPurchase(orders, q, sorted, n);
      GreedyBeatsPurchase(sorted, t, n);
    }
  }

  // ---------- The same total as a sum of the smallest unit prices ----------

  lemma {:induction false} SumAppend(a: seq<int>, b: seq<int>)
    ensures Sum(a + b) == Sum(a) + Sum(b)
  {
    if a == [] {
      assert a + b == b;
    } else {
      assert (a + b)[1..] == a[1..] + b;
      SumAppend(a[1..], b);
    }
  }

  lemma {:induction false} SumRepeat(x: int, n: nat)
    ensures Sum(Repeat(x, n)) == n * x
  {
    if n == 0 {
    } else {
      assert Repeat(x, n)[1..] == Repeat(x, n - 1);
      SumRepeat(x, n - 1);
    }
  }

  lemma {:induction false} UnitPricesShape(s: seq<Order>)
    ensures |UnitPrices(s)| == Supply(s)
    ensures forall k :: 0 <= k < |UnitPrices(s)| ==> exists i :: 0 <= i < |s| && UnitPrices(s)[k] == s[i].platinum
  {
    if s == [] {
    } else {
      UnitPricesShape(s[1..]);
      var u := UnitPrices(s);
      forall k | 0 <= k < |u| ensures exists i :: 0 <= i < |s| && u[k] == s[i].platinum {
        if k < s[0].quantity {
          assert u[k] == s[0].platinum;
        } else {
          assert u[k] == UnitPrices(s[1..])[k - s[0].quantity];
          var i :| 0 <= i < |s[1..]| && u[k] == s[1..][i].platinum;
          assert s[1..][i] == s[i + 1];
        }
      }
    }
  }

  lemma {:induction false} UnitPricesSorted(s: seq<Order>)
    requires SortedByPrice(s)
    ensures forall i, j :: 0 <= i < j < |UnitPrices(s)| ==> UnitPrices(s)[i] <= UnitPrices(s)[j]
  {
    if s == [] {
    } else {
      UnitPricesSorted(s[1..]);
      UnitPricesShape(s[1..]);
      var u, v, c := UnitPrices(s), UnitPrices(s[1..]), s[0].quantity;
      forall i, j | 0 <= i < j < |u| ensures u[i] <= u[j] {
        if j >= c {
          assert u[j] == v[j - c];
          if i >= c {
            assert u[i] == v[i - c];
          } else {
            var k :| 0 <= k < |s[1..]| && v[j - c] == s[1..][k].platinum;
            assert s[1..][k] == s[k + 1];
          }
        }
      }
    }
  }

  /** The greedy cost of n units is the sum of the first n unit prices. */
  lemma {:induction false} GreedyCostIsUnitPrefix(s: seq<Order>, n: nat)
    requires n <= Supply(s)
    ensures |UnitPrices(s)| == Supply(s)
    ensures GreedyCost(s, n) == Sum(UnitPrices(s)[..n])
    decreases |s|
  {
    UnitPricesShape(s);
    if s == [] {
    } else {
      var c, price := s[0].quantity, s[0].platinum;
      var take := Min(c, n);
      UnitPricesShape(s[1..]);
      GreedyCostStep(s, n);
      GreedyCostIsUnitPrefix(s[1..], n - take);
      assert UnitPrices(s)[..n] == Repeat(price, take) + UnitPrices(s[1..])[..n - take];
      SumAppend(Repeat(price, take), UnitPrices(s[1..])[..n - take]);
      SumRepeat(price, take);
    }
  }

  lemma {:induction false} UnitPricesAppend(a: seq<Order>, b: seq<Order>)
    ensures UnitPrices(a + b) == UnitPrices(a) + UnitPrices(b)
  {
    if a == [] {
      assert a + b == b;
    } else {
      assert (a + b)[1..] == a[1..] + b;
      UnitPricesAppend(a[1..], b);
    }
  }

  lemma {:induction false} UnitPricesPermutation(a: seq<Order>, b: seq<Order>)
    requires IsPermutation(a, b)
    ensures IsPermutation(UnitPrices(a), UnitPrices(b))
  {
    assert |multiset(a)| == |a| && |multiset(b)| == |b|;
    if a == [] {
    } else {
      var i := SplitPermutation(a, b);
      UnitPricesPermutation(a[1..], RemoveAt(b, i));
      UnitPricesAppend(b[..i], b[i + 1..]);
      assert b == b[..i] + ([b[i]] + b[i + 1..]);
      UnitPricesAppend(b[..i], [b[i]] + b[i + 1..]);
      assert ([b[i]] + b[i + 1..])[1..] == b[i + 1..];
    }
  }

  /** Two ascending sequences with the same elements are the same sequence. */
  lemma {:induction false} AscendingIsUnique(a: seq<int>, b: seq<int>)
    requires IsPermutation(a, b)
    requires forall i, j :: 0 <= i < j < |a| ==> a[i] <= a[j]
    requires forall i, j :: 0 <= i < j < |b| ==> b[i] <= b[j]
    ensures a == b
  {
    assert |multiset(a)| == |a| && |multiset(b)| == |b|;
    if a == [] {
    } else {
      assert a[0] == b[0] by {
        var i := SplitPermutation(a, b);
        var j := SplitPermutation(b, a);
        assert b[0] <= b[i] && a[0] <= a[j];
      }
      TailPermutation(a, b);
      AscendingIsUnique(a[1..], b[1..]);
    }
  }

  /** The unstable sort may order equal prices as it likes: the plan costs the same for every need. */
  lemma TotalIndependentOfTieOrder(orders: seq<Order>, s: seq<Order>, t: seq<Order>, need: int)
    requires IsPermutation(orders, s) && SortedByPrice(s)
    requires IsPermutation(orders, t) && SortedByPrice(t)
    ensures UnitPrices(s) == UnitPrices(t)
    ensures Subtotals(Fill(s, need)) == Subtotals(Fill(t, need))
    ensures Wanted(orders, need) <= |UnitPrices(s)|
      && Subtotals(Fill(s, need)) == Sum(UnitPrices(s)[..Wanted(orders, need)])
  {
    UnitPricesPermutation(s, t);
    UnitPricesSorted(s);
    UnitPricesSorted(t);
    AscendingIsUnique(UnitPrices(s), UnitPrices(t));
    SupplyPermutation(orders, s);
    SupplyPermutation(orders, t);
    if need > 0 {
      FillToSupply(s, need);
      FillToSupply(t, need);
      GreedyCostIsUnitPrefix(s, Wanted(orders, need));
      GreedyCostIsUnitPrefix(t, Wanted(orders, need));
    } else {
      UnitPricesShape(s);
      assert Fill(s, need) == Fill(t, need) == [];
    }
  }

  lemma UnitAdded(s: seq<Order>, n: nat)
    requires n < Supply(s)
    ensures n < |UnitPrices(s)| && GreedyCost(s, n + 1) == GreedyCost(s, n) + UnitPrices(s)[n]
  {
    hide GreedyCost, UnitPrices, Supply;
    var u := UnitPrices(s);
    GreedyCostIsUnitPrefix(s, n);
    GreedyCostIsUnitPrefix(s, n + 1);
    assert u[..n + 1] == u[..n] + [u[n]];
    SumAppend(u[..n], [u[n]]);
  }

  /** The next unit never costs less than the one before it: the total is convex in the need up to the supply. */
  lemma TotalIsConvex(s: seq<Order>, n: nat)
    requires SortedByPrice(s) && n + 2 <= Supply(s)
    ensures GreedyCost(s, n + 1) - GreedyCost(s, n) <= GreedyCost(s, n + 2) - GreedyCost(s, n + 1)
  {
    hide GreedyCost, UnitPrices, Supply;
    UnitPricesSorted(s);
    UnitAdded(s, n);
    UnitAdded(s, n + 1);
  }

  // ---------- The plan, line by line ----------

  /** The line takes all the order has, or what is left of the need. */
  ghost predicate TakesFromOrder(l: BuyOrderLine, o: Order, left: int) {
    && left > 0
    && l.seller == o.user && l.price == o.platinum
    && l.quantity == (if o.quantity < left then o.quantity else left)
    && l.subtotal == l.quantity * l.price
  }

  /** Line k buys from used[k], what is still needed or all it has; the used orders are distinct and ascend in price; an
      order is left out only when the need is filled and no used one is dearer. */
  ghost predicate BuysFrom(orders: seq<Order>, need: int, lines: seq<BuyOrderLine>, used: seq<Order>) {
    && |used| == |lines| && multiset(used) <= multiset(orders) && SortedByPrice(used)
    && (forall k :: 0 <= k < |lines| ==> TakesFromOrder(lines[k], used[k], need - Bought(lines[..k])))
    && (forall o :: o in multiset(orders) - multiset(used) ==>
          Bought(lines) >= need && forall k :: 0 <= k < |used| ==> used[k].platinum <= o.platinum)
  }

  ghost predicate IsGreedyPlan(orders: seq<Order>, need: int, lines: seq<BuyOrderLine>) {
    exists used :: BuysFrom(orders, need, lines, used)
  }

  lemma {:induction false} FillLength(s: seq<Order>, need: int)
    ensures |Fill(s, need)| <= |s|
    ensures |Fill(s, need)| < |s| ==> Bought(Fill(s, need)) >= need
    decreases |s|
  {
    if s == [] || need <= 0 {
    } else {
      var take := Min(s[0].quantity, need);
      FillLength(s[1..], need - take);
      assert Fill(s, need)[1..] == Fill(s[1..], need - take);
    }
  }

  lemma {:induction false} FillLines(s: seq<Order>, need: int, k: nat)
    requires k < |Fill(s, need)|
    ensures |Fill(s, need)| <= |s|
    ensures TakesFromOrder(Fill(s, need)[k], s[k], need - Bought(Fill(s, need)[..k]))
    decreases k
  {
    FillLength(s, need);
    var lines, take := Fill(s, need), Min(s[0].quantity, need);
    if k == 0 {
    } else {
      FillLines(s[1..], need - take, k - 1);
      assert lines[..k][0] == lines[0] && lines[..k][1..] == Fill(s[1..], need - take)[..k - 1];
    }
  }

  lemma PrefixRest(orders: seq<Order>, sorted: seq<Order>, n: nat)
    requires IsPermutation(orders, sorted) && n <= |sorted|
    ensures multiset(sorted[..n]) <= multiset(orders)
    ensures forall o :: o in multiset(orders) - multiset(sorted[..n]) ==>
      exists i :: n <= i < |sorted| && sorted[i] == o
  {
    var used, rest := sorted[..n], sorted[n..];
    assert sorted == used + rest;
    assert multiset(orders) == multiset(used) + multiset(rest);
    forall o | o in multiset(orders) - multiset(used) ensures exists i :: n <= i < |sorted| && sorted[i] == o {
      assert o in multiset(rest);
      var i :| 0 <= i < |rest| && rest[i] == o;
      assert sorted[n + i] == o;
    }
  }

  /** The plan over any price-sorted arrangement of the orders is a greedy plan for them. */
  lemma FillIsGreedyPlan(orders: seq<Order>, sorted: seq<Order>, need: int)
    requires IsPermutation(orders, sorted) && SortedByPrice(sorted)
    ensures IsGreedyPlan(orders, need, Fill(sorted, need))
  {
    hide Fill, Bought, TakesFromOrder, IsPermutation;
    var lines := Fill(sorted, need);
    FillLength(sorted, need);
    var used := sorted[..|lines|];
    PrefixRest(orders, sorted, |lines|);
    forall k | 0 <= k < |lines| ensures TakesFromOrder(lines[k], used[k], need - Bought(lines[..k])) {
      FillLines(sorted, need, k);
    }
    assert BuysFrom(orders, need, lines, used);
  }

  // ---------- The loops ----------

  lemma FillNext(sorted: seq<Order>, i: nat, left: int)
    requires i < |sorted| && left > 0
    ensures var o := sorted[i]; var take := Min(o.quantity, left);
      Fill(sorted[i..], left)
      == [BuyOrderLine(o.user, take, o.platinum, take * o.platinum)] + Fill(sorted[i + 1..], left - take)
  {
    assert sorted[i..][0] == sorted[i] && sorted[i..][1..] == sorted[i + 1..];
  }

  lemma InsertKeepsSorted(s: seq<Order>, x: Order, k: nat)
    requires SortedByPrice(s) && k <= |s|
    requires (forall j :: 0 <= j < k ==> s[j].platinum <= x.platinum) && (k < |s| ==> x.platinum <= s[k].platinum)
    ensures var r := s[..k] + [x] + s[k..]; multiset(r) == multiset(s) + multiset{x} && SortedByPrice(r)
  {
    MultisetInsert(s, k, x);
    var r := s[..k] + [x] + s[k..];
    forall i, j | 0 <= i < j < |r| ensures r[i].platinum <= r[j].platinum {
      if i >= k && j > k { assert k < |s| && s[k].platinum <= s[j - 1].platinum; }
    }
  }

  method InsertByPrice(s: seq<Order>, x: Order) returns (r: seq<Order>)
    requires SortedByPrice(s)
    ensures multiset(r) == multiset(s) + multiset{x} && SortedByPrice(r)
  {
    var k := 0;
    while k < |s| && s[k].platinum <= x.platinum
      invariant 0 <= k <= |s|
      invariant forall j :: 0 <= j < k ==> s[j].platinum <= x.platinum
    {
      k := k + 1;
    }
    InsertKeepsSorted(s, x, k);
    r := s[..k] + [x] + s[k..];
  }

  /** Stands for the library's unstable sort by price: callers may rely on nothing but "sorted permutation". */
  method SortByPrice(orders: seq<Order>) returns (sorted: seq<Order>)
    ensures IsPermutation(orders, sorted) && SortedByPrice(sorted)
  {
    sorted := [];
    for i := 0 to |orders|
      invariant IsPermutation(orders[..i], sorted) && SortedByPrice(sorted)
    {
      sorted := InsertByPrice(sorted, orders[i]);
      assert orders[..i + 1] == orders[..i] + [orders[i]];
    }
    assert orders[..|orders|] == orders;
  }

  /** Every unit the plan buys is real, there are exactly as many as wanted, and no other purchase is cheaper. */
  method BuildBuyPlan(orders: seq<Order>, need: int) returns (lines: seq<BuyOrderLine>)
    ensures exists sorted :: IsPermutation(orders, sorted) && SortedByPrice(sorted) && lines == Fill(sorted, need)
    ensures Bought(lines) == Wanted(orders, need)
    ensures IsMinimumCost(orders, Wanted(orders, need), Subtotals(lines))
    ensures IsGreedyPlan(orders, need, lines)
  {
    hide IsMinimumCost, IsPermutation, SortedByPrice, Fill, Bought, Wanted, Subtotals, IsGreedyPlan;
    var sorted := SortByPrice(orders);
    ghost var plan := Fill(sorted, need);
    var left, i := need, 0;
    lines := [];
    assert sorted[0..] == sorted;
    while i < |sorted|
      invariant 0 <= i <= |sorted|
      invariant plan == lines + Fill(sorted[i..], left)
    {
      if left <= 0 { break; }
      var o := sorted[i];
      var take := o.quantity;
      if take > left {
        take := left;
      }
      FillNext(sorted, i, left);
      lines := lines + [BuyOrderLine(o.user, take, o.platinum, take * o.platinum)];
      left := left - take;
      i := i + 1;
    }
    FillDone(sorted[i..], left);
    assert plan == lines;
    GreedyIsOptimal(orders, sorted, need);
    FillIsGreedyPlan(orders, sorted, need);
  }
}
