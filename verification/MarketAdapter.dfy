/** What the market adapter does to a response before anyone sees it: filter orders, sort them in place, filter
    auctions. */
module MarketAdapter {
  import opened Common
  import opened Market

  // ---------- Filtering orders ----------

  predicate OrderMatches(f: OrdersFilter, o: Order) {
    && (f.orderType.Some? ==> o.orderType == f.orderType.value)
    && (f.status != [] ==> o.user.status in f.status)
  }

  /** The elements that satisfy p, in their original order. */
  function Select<T>(p: T -> bool, s: seq<T>): seq<T> {
    if s == [] then [] else (if p(s[0]) then [s[0]] else []) + Select(p, s[1..])
  }

  function MatchingOrders(f: OrdersFilter, orders: seq<Order>): seq<Order> {
    Select((o: Order) => OrderMatches(f, o), orders)
  }

  lemma {:induction false} SelectSnoc<T>(p: T -> bool, s: seq<T>, x: T)
    ensures Select(p, s + [x]) == Select(p, s) + (if p(x) then [x] else [])
  {
    if s == [] {
      assert s + [x] == [x];
    } else {
      var head, tail := if p(s[0]) then [s[0]] else [], if p(x) then [x] else [];
      assert (s + [x])[0] == s[0] && (s + [x])[1..] == s[1..] + [x];
      SelectSnoc(p, s[1..], x);
      assert head + (Select(p, s[1..]) + tail) == (head + Select(p, s[1..])) + tail;
    }
  }

  /** Selection keeps every copy of what satisfies p and nothing else. */
  lemma {:induction false} SelectKeepsExactly<T>(p: T -> bool, s: seq<T>, x: T)
    ensures multiset(Select(p, s))[x] == if p(x) then multiset(s)[x] else 0
  {
    if s == [] {
    } else {
      SelectKeepsExactly(p, s[1..], x);
      assert s == [s[0]] + s[1..];
      assert multiset(s) == multiset{s[0]} + multiset(s[1..]);
    }
  }

  lemma {:induction false} SelectAll<T>(p: T -> bool, s: seq<T>)
    requires forall x :: x in s ==> p(x)
    ensures Select(p, s) == s
  {
    if s == [] {
    } else {
      SelectAll(p, s[1..]);
    }
  }

  /** t holds the elements of s at the given positions, in their order. */
  ghost predicate TakesFrom<T>(s: seq<T>, at: seq<nat>, t: seq<T>) {
    && |t| == |at|
    && (forall i, j :: 0 <= i < j < |at| ==> at[i] < at[j])
    && (forall i :: 0 <= i < |at| ==> at[i] < |s| && t[i] == s[at[i]])
  }

  lemma {:induction false} SelectPositions<T>(p: T -> bool, s: seq<T>) returns (at: seq<nat>)
    ensures TakesFrom(s, at, Select(p, s))
    ensures forall k: nat :: k in at <==> k < |s| && p(s[k])
  {
    if s == [] {
      at := [];
    } else {
      var init, last := s[..|s| - 1], s[|s| - 1];
      at := SelectPositions(p, init);
      SelectSnoc(p, init, last);
      assert s == init + [last];
      if p(last) { at := at + [|s| - 1]; }
    }
  }

  /** Ascending positions are determined by which positions they are. */
  lemma {:induction false} PositionsAreUnique(a: seq<nat>, b: seq<nat>)
    requires forall i, j :: 0 <= i < j < |a| ==> a[i] < a[j]
    requires forall i, j :: 0 <= i < j < |b| ==> b[i] < b[j]
    requires forall k: nat :: k in a <==> k in b
    ensures a == b
  {
    assert (a != [] ==> a[0] in b) && (b != [] ==> b[0] in a);
    if a == [] {
    } else {
      var x, y := a[|a| - 1], b[|b| - 1];
      assert x in b && y in a;
      var a', b' := a[..|a| - 1], b[..|b| - 1];
      forall k: nat ensures k in a' <==> k in b' {
        if k in a' { assert k in b; }
        if k in b' { assert k in a; }
      }
      PositionsAreUnique(a', b');
      assert a == a' + [x] && b == b' + [y];
    }
  }

  /** What the order filter keeps: exactly the orders of the wanted type from users of a wanted status, each once for
      every time it is listed, in the order of the response; no type or no status asks for nothing. */
  lemma FilterReturnsExactly(f: OrdersFilter, response: seq<Order>) returns (at: seq<nat>)
    ensures TakesFrom(response, at, MatchingOrders(f, response))
    ensures forall k: nat :: k in at <==>
      && k < |response|
      && (f.orderType == None || f.orderType == Some(response[k].orderType))
      && (|f.status| == 0 || response[k].user.status in f.status)
  {
    at := SelectPositions((o: Order) => OrderMatches(f, o), response);
  }

  method ContainsStatus(statuses: seq<UserStatus>, s: UserStatus) returns (found: bool)
    ensures found <==> s in statuses
  {
    for i := 0 to |statuses|
      invariant s !in statuses[..i]
    {
      if statuses[i] == s { return true; }
    }
    return false;
  }

  method ApplyFilter(orders: seq<Order>, f: OrdersFilter) returns (result: seq<Order>)
    ensures result == MatchingOrders(f, orders)
  {
    var p := (o: Order) => OrderMatches(f, o);
    if f.orderType.None? && |f.status| == 0 {
      SelectAll(p, orders);
      return orders;
    }
    result := [];
    for i := 0 to |orders|
      invariant result == Select(p, orders[..i])
    {
      var o := orders[i];
      assert orders[..i + 1] == orders[..i] + [o];
      SelectSnoc(p, orders[..i], o);
      if f.orderType.Some? && o.orderType != f.orderType.value { continue; }
      if |f.status| > 0 {
        var known := ContainsStatus(f.status, o.user.status);
        if !known { continue; }
      }
      result := result + [o];
    }
    assert orders[..|orders|] == orders;
  }

  // ---------- Sorting in place ----------

  function Key(field: SortField, o: Order): int {
    match field
    case ByQuantity => o.quantity
    case ByReputation => o.user.reputation
    case _ => o.platinum
  }

  /** The comparison handed to the library's stable sort.  For descending order it is the negation of "less",
      which holds of an order and itself, so it is no strict order once two keys are equal. */
  predicate Before(field: SortField, dir: SortDirection, x: Order, y: Order) {
    var less := Key(field, x) < Key(field, y);
    if dir == Desc then !less else less
  }

  /** Insertion from the right, and the sort built from it. */
  function Insert(field: SortField, dir: SortDirection, s: seq<Order>, x: Order): seq<Order> {
    if s == [] || !Before(field, dir, x, s[|s| - 1]) then s + [x]
    else Insert(field, dir, s[..|s| - 1], x) + [s[|s| - 1]]
  }

  function InsertionSorted(field: SortField, dir: SortDirection, s: seq<Order>): seq<Order> {
    if s == [] then [] else Insert(field, dir, InsertionSorted(field, dir, s[..|s| - 1]), s[|s| - 1])
  }

  function ApplySortSpec(field: SortField, dir: SortDirection, s: seq<Order>): seq<Order> {
    if field == Unsorted then s else InsertionSorted(field, dir, s)
  }

  ghost predicate Ordered(field: SortField, dir: SortDirection, s: seq<Order>) {
    forall i, j ::
      0 <= i < j < |s| ==>
        if dir == Asc then Key(field, s[i]) <= Key(field, s[j]) else Key(field, s[i]) >= Key(field, s[j])
  }

  function WithKey(field: SortField, k: int, s: seq<Order>): seq<Order> {
    Select((o: Order) => Key(field, o) == k, s)
  }

  /** t is s sorted stably: in order, the same elements, and equal keys in their original relative order. */
  ghost predicate IsStableSort(field: SortField, s: seq<Order>, t: seq<Order>) {
    && Ordered(field, Asc, t)
    && IsPermutation(s, t)
    && (forall k: int :: WithKey(field, k, t) == WithKey(field, k, s))
  }

  function Reversed(s: seq<Order>): seq<Order> {
    if s == [] then [] else [s[|s| - 1]] + Reversed(s[..|s| - 1])
  }

  /** t is s in descending order with the same elements, but every class of equal keys back to front. */
  ghost predicate IsDescendingReversal(field: SortField, s: seq<Order>, t: seq<Order>) {
    && Ordered(field, Desc, t)
    && IsPermutation(s, t)
    && (forall k: int :: WithKey(field, k, t) == Reversed(WithKey(field, k, s)))
  }

  /** Insert places x before the longest run of trailing elements it precedes. */
  lemma {:induction false} InsertAt(field: SortField, dir: SortDirection, s: seq<Order>, x: Order, j: nat)
    requires j <= |s|
    requires forall k :: j <= k < |s| ==> Before(field, dir, x, s[k])
    requires j == 0 || !Before(field, dir, x, s[j - 1])
    ensures Insert(field, dir, s, x) == s[..j] + [x] + s[j..]
    decreases |s|
  {
    if j < |s| {
      var init := s[..|s| - 1];
      InsertAt(field, dir, init, x, j);
      assert init[..j] == s[..j] && init[j..] + [s[|s| - 1]] == s[j..];
    } else {
      assert s[..j] == s && s[j..] == [];
    }
  }

  lemma {:induction false} InsertPermutation(field: SortField, dir: SortDirection, s: seq<Order>, x: Order)
    ensures multiset(Insert(field, dir, s, x)) == multiset(s) + multiset{x}
    ensures |Insert(field, dir, s, x)| == |s| + 1
    decreases |s|
  {
    if !(s == [] || !Before(field, dir, x, s[|s| - 1])) {
      InsertPermutation(field, dir, s[..|s| - 1], x);
      assert s == s[..|s| - 1] + [s[|s| - 1]];
    }
  }

  lemma {:induction false} SortPermutation(field: SortField, dir: SortDirection, s: seq<Order>)
    ensures IsPermutation(s, InsertionSorted(field, dir, s))
    decreases |s|
  {
    if s == [] {
    } else {
      hide Insert, Before;
      var init, last := s[..|s| - 1], s[|s| - 1];
      SortPermutation(field, dir, init);
      InsertPermutation(field, dir, InsertionSorted(field, dir, init), last);
      MultisetSnoc(s);
    }
  }

  lemma InsertedInOrder(field: SortField, dir: SortDirection, s: seq<Order>, x: Order, j: nat)
    requires Ordered(field, dir, s) && j <= |s|
    requires forall k :: j <= k < |s| ==> Before(field, dir, x, s[k])
    requires j == 0 || !Before(field, dir, x, s[j - 1])
    ensures Ordered(field, dir, s[..j] + [x] + s[j..])
  {
    hide Key;
    var r := s[..j] + [x] + s[j..];
    forall i, k | 0 <= i < k < |r|
      ensures if dir == Asc then Key(field, r[i]) <= Key(field, r[k]) else Key(field, r[i]) >= Key(field, r[k])
    {
      if i == j {
        assert Before(field, dir, x, s[k - 1]);
      } else if k == j {
        assert i == j - 1 || r[i] == s[i];
      }
    }
  }

  lemma InsertOrdered(field: SortField, dir: SortDirection, s: seq<Order>, x: Order)
    requires Ordered(field, dir, s)
    ensures Ordered(field, dir, Insert(field, dir, s, x))
  {
    hide Insert;
    var j := |s|;
    while j > 0 && Before(field, dir, x, s[j - 1])
      invariant 0 <= j <= |s|
      invariant forall k :: j <= k < |s| ==> Before(field, dir, x, s[k])
    {
      j := j - 1;
    }
    InsertAt(field, dir, s, x, j);
    InsertedInOrder(field, dir, s, x, j);
  }

  lemma {:induction false} SortOrdered(field: SortField, dir: SortDirection, s: seq<Order>)
    ensures Ordered(field, dir, InsertionSorted(field, dir, s))
    decreases |s|
  {
    if s == [] {
    } else {
      SortOrdered(field, dir, s[..|s| - 1]);
      InsertOrdered(field, dir, InsertionSorted(field, dir, s[..|s| - 1]), s[|s| - 1]);
    }
  }

  /** Ascending insertion only passes elements with a larger key, so it never reorders equal keys. */
  lemma {:induction false} InsertStable(field: SortField, s: seq<Order>, x: Order, k: int)
    ensures WithKey(field, k, Insert(field, Asc, s, x)) == WithKey(field, k, s + [x])
    decreases |s|
  {
    if !(s == [] || !Before(field, Asc, x, s[|s| - 1])) {
      var p := (o: Order) => Key(field, o) == k;
      var init, last := s[..|s| - 1], s[|s| - 1];
      InsertStable(field, init, x, k);
      SelectSnoc(p, Insert(field, Asc, init, x), last);
      SelectSnoc(p, init, x);
      SelectSnoc(p, init, last);
      SelectSnoc(p, s, x);
      assert s == init + [last];
    }
  }

  lemma {:induction false} SortStable(field: SortField, s: seq<Order>, k: int)
    ensures WithKey(field, k, InsertionSorted(field, Asc, s)) == WithKey(field, k, s)
    decreases |s|
  {
    if s == [] {
    } else {
      var p := (o: Order) => Key(field, o) == k;
      var init, last := s[..|s| - 1], s[|s| - 1];
      SortStable(field, init, k);
      InsertStable(field, InsertionSorted(field, Asc, init), last, k);
      SelectSnoc(p, InsertionSorted(field, Asc, init), last);
      SelectSnoc(p, init, last);
      assert s == init + [last];
    }
  }

  /** Ascending sort: the stable sort of the input, for any keys. */
  lemma SortIsStableSort(field: SortField, s: seq<Order>)
    ensures IsStableSort(field, s, InsertionSorted(field, Asc, s))
  {
    SortOrdered(field, Asc, s);
    SortPermutation(field, Asc, s);
    forall k: int ensures WithKey(field, k, InsertionSorted(field, Asc, s)) == WithKey(field, k, s) {
      SortStable(field, s, k);
    }
  }

  lemma {:induction false} NoneWithKey(field: SortField, k: int, s: seq<Order>)
    requires forall i :: 0 <= i < |s| ==> Key(field, s[i]) != k
    ensures WithKey(field, k, s) == []
  {
    if s == [] {
    } else {
      NoneWithKey(field, k, s[1..]);
    }
  }

  /** Descending insertion passes elements with an equal key too, so the newcomer ends up in front of its class. */
  lemma {:induction false} InsertReverses(field: SortField, s: seq<Order>, x: Order, k: int)
    requires Ordered(field, Desc, s)
    ensures WithKey(field, k, Insert(field, Desc, s, x))
      == (if Key(field, x) == k then [x] else []) + WithKey(field, k, s)
    decreases |s|
  {
    var p := (o: Order) => Key(field, o) == k;
    if s == [] || !Before(field, Desc, x, s[|s| - 1]) {
      SelectSnoc(p, s, x);
      if Key(field, x) == k { NoneWithKey(field, k, s); }
    } else {
      var init, last := s[..|s| - 1], s[|s| - 1];
      InsertReverses(field, init, x, k);
      SelectSnoc(p, Insert(field, Desc, init, x), last);
      SelectSnoc(p, init, last);
      assert s == init + [last];
    }
  }

  lemma ReversedSnoc(s: seq<Order>, x: Order)
    ensures Reversed(s + [x]) == [x] + Reversed(s)
  {
    assert (s + [x])[..|s|] == s;
  }

  lemma {:induction false} SortReverses(field: SortField, s: seq<Order>, k: int)
    ensures WithKey(field, k, InsertionSorted(field, Desc, s)) == Reversed(WithKey(field, k, s))
    decreases |s|
  {
    hide Insert, Before, Key;
    if s == [] {
    } else {
      var p := (o: Order) => Key(field, o) == k;
      var init, last := s[..|s| - 1], s[|s| - 1];
      SortReverses(field, init, k);
      SortOrdered(field, Desc, init);
      InsertReverses(field, InsertionSorted(field, Desc, init), last, k);
      SelectSnoc(p, init, last);
      assert s == init + [last];
      ReversedSnoc(WithKey(field, k, init), last);
      assert WithKey(field, k, init) + [] == WithKey(field, k, init);
      assert [] + Reversed(WithKey(field, k, init)) == Reversed(WithKey(field, k, init));
    }
  }

  /** Descending sort: in order for any keys, with the classes of equal keys turned back to front. */
  lemma SortIsDescendingReversal(field: SortField, s: seq<Order>)
    ensures IsDescendingReversal(field, s, InsertionSorted(field, Desc, s))
  {
    SortOrdered(field, Desc, s);
    SortPermutation(field, Desc, s);
    forall k: int ensures WithKey(field, k, InsertionSorted(field, Desc, s)) == Reversed(WithKey(field, k, s)) {
      SortReverses(field, s, k);
    }
  }

  /** The descending sort is stable exactly when every class of equal keys reads the same in both directions. */
  lemma DescendingStableIff(field: SortField, s: seq<Order>)
    ensures (forall k: int :: WithKey(field, k, InsertionSorted(field, Desc, s)) == WithKey(field, k, s))
      <==> (forall k: int :: Reversed(WithKey(field, k, s)) == WithKey(field, k, s))
  {
    forall k: int ensures WithKey(field, k, InsertionSorted(field, Desc, s)) == Reversed(WithKey(field, k, s)) {
      SortReverses(field, s, k);
    }
  }

  /** Two offers at the same price change places. */
  lemma DescendingSwapsTies(a: Order, b: Order)
    requires a.platinum == b.platinum
    ensures InsertionSorted(ByPlatinum, Desc, [a, b]) == [b, a]
  {
    var s := [a, b];
    assert s[..1] == [a] && [a][..0] == [];
    assert InsertionSorted(ByPlatinum, Desc, [a]) == [a];
    assert Insert(ByPlatinum, Desc, [a], b) == Insert(ByPlatinum, Desc, [], b) + [a];
  }

  lemma SameFirstKey(field: SortField, dir: SortDirection, a: seq<Order>, b: seq<Order>)
    requires a != [] && Ordered(field, dir, a) && Ordered(field, dir, b) && IsPermutation(a, b)
    ensures b != [] && Key(field, b[0]) == Key(field, a[0])
  {
    hide Key;
    var i := SplitPermutation(a, b);
    var j := SplitPermutation(b, a);
    if dir == Asc {
      assert (i == 0 || Key(field, b[0]) <= Key(field, b[i])) && (j == 0 || Key(field, a[0]) <= Key(field, a[j]));
    } else {
      assert (i == 0 || Key(field, b[0]) >= Key(field, b[i])) && (j == 0 || Key(field, a[0]) >= Key(field, a[j]));
    }
  }

  /** Two sequences in order that agree on every class of equal keys are equal: order and classes determine the
      result. */
  lemma {:induction false} SortIsUnique(field: SortField, dir: SortDirection, a: seq<Order>, b: seq<Order>)
    requires Ordered(field, dir, a) && Ordered(field, dir, b)
    requires IsPermutation(a, b)
    requires forall k: int :: WithKey(field, k, a) == WithKey(field, k, b)
    ensures a == b
    decreases |a|
  {
    assert |multiset(a)| == |a| && |multiset(b)| == |b|;
    if a == [] {
    } else {
      var k := Key(field, a[0]);
      SameFirstKey(field, dir, a, b);
      assert WithKey(field, k, a)[0] == a[0] && WithKey(field, k, b)[0] == b[0];
      TailPermutation(a, b);
      forall m: int ensures WithKey(field, m, a[1..]) == WithKey(field, m, b[1..]) {
        var p := (o: Order) => Key(field, o) == m;
        assert WithKey(field, m, a) == WithKey(field, m, b);
        assert Select(p, a)[|if p(a[0]) then [a[0]] else []|..] == Select(p, a[1..]);
        assert Select(p, b)[|if p(b[0]) then [b[0]] else []|..] == Select(p, b[1..]);
      }
      SortIsUnique(field, dir, a[1..], b[1..]);
    }
  }

  /** s with x put in at position j. */
  ghost function PutAt(s: seq<Order>, x: Order, j: nat): (t: seq<Order>)
    requires j <= |s|
    ensures |t| == |s| + 1 && t[j] == x && (j > 0 ==> t[j - 1] == s[j - 1])
  {
    s[..j] + [x] + s[j..]
  }

  /** Moving x one place to the left, past s[j - 1]. */
  lemma ShiftLeft(s: seq<Order>, x: Order, j: nat)
    requires 0 < j <= |s|
    ensures PutAt(s, x, j)[j := s[j - 1]][j - 1 := x] == PutAt(s, x, j - 1)
  {}

  method SwapWithLeft(orders: array<Order>, j: nat, n: nat, ghost s: seq<Order>, ghost x: Order)
    requires 0 < j <= n < orders.Length && |s| == n && orders[..n + 1] == PutAt(s, x, j)
    modifies orders
    ensures orders[..n + 1] == PutAt(s, x, j - 1)
    ensures orders[n + 1..] == old(orders[n + 1..])
  {
    hide PutAt;
    ghost var before := orders[..n + 1];
    assert orders[j] == before[j] && orders[j - 1] == before[j - 1];
    ShiftLeft(s, x, j);
    orders[j], orders[j - 1] := orders[j - 1], orders[j];
    assert orders[..n + 1] == before[j := s[j - 1]][j - 1 := x];
  }

  lemma InsertPutsAt(field: SortField, dir: SortDirection, s: seq<Order>, x: Order, j: nat)
    requires j <= |s|
    requires forall k :: j <= k < |s| ==> Before(field, dir, x, s[k])
    requires j == 0 || !Before(field, dir, x, s[j - 1])
    ensures Insert(field, dir, s, x) == PutAt(s, x, j)
  {
    hide Insert, Before;
    InsertAt(field, dir, s, x, j);
  }

  /** One round of the library's insertion sort: the element at n moves left past everything it precedes. */
  method SinkInto(orders: array<Order>, field: SortField, dir: SortDirection, n: nat)
    requires n < orders.Length
    modifies orders
    ensures orders[..n + 1] == Insert(field, dir, old(orders[..n]), old(orders[n]))
    ensures orders[n + 1..] == old(orders[n + 1..])
  {
    ghost var s, x := orders[..n], orders[n];
    assert orders[..n + 1] == PutAt(s, x, n);
    hide Insert, Before, PutAt;
    var j := n;
    while j > 0 && Before(field, dir, orders[j], orders[j - 1])
      invariant 0 <= j <= n
      invariant orders[..n + 1] == PutAt(s, x, j)
      invariant orders[n + 1..] == old(orders[n + 1..])
      invariant forall k :: j <= k < n ==> Before(field, dir, x, s[k])
    {
      assert orders[j] == orders[..n + 1][j] && orders[j - 1] == orders[..n + 1][j - 1];
      SwapWithLeft(orders, j, n, s, x);
      j := j - 1;
    }
    assert j > 0 ==> orders[j] == orders[..n + 1][j] && orders[j - 1] == orders[..n + 1][j - 1];
    InsertPutsAt(field, dir, s, x, j);
  }

  method ApplySort(orders: array<Order>, field: SortField, dir: SortDirection)
    modifies orders
    ensures orders[..] == ApplySortSpec(field, dir, old(orders[..]))
  {
    if field == Unsorted { return; }
    ghost var s := orders[..];
    for i := 0 to orders.Length
      invariant orders[..i] == InsertionSorted(field, dir, s[..i])
      invariant orders[i..] == s[i..]
    {
      assert orders[i] == orders[i..][0] == s[i];
      ghost var rest := orders[i + 1..];
      assert rest == orders[i..][1..] == s[i..][1..] == s[i + 1..];
      assert s[..i + 1][..i] == s[..i];
      SinkInto(orders, field, dir, i);
    }
    assert s[..orders.Length] == s && orders[..orders.Length] == orders[..];
  }

  /** GetOrdersByItem after the response has been decoded. */
  function ProcessedOrders(f: OrdersFilter, response: seq<Order>): seq<Order> {
    ApplySortSpec(f.sortBy, f.direction, MatchingOrders(f, response))
  }

  method GetOrdersByItem<E>(response: Result<seq<Order>, E>, f: OrdersFilter) returns (r: Result<seq<Order>, E>)
    ensures response.Err? ==> r == Result<seq<Order>, E>.Err(response.error)
    ensures response.Ok? ==> r == Result<seq<Order>, E>.Ok(ProcessedOrders(f, response.value))
  {
    if response.Err? { return Err(response.error); }
    var matching := ApplyFilter(response.value, f);
    var orders := new Order[|matching|](i requires 0 <= i < |matching| => matching[i]);
    assert orders[..] == matching;
    ApplySort(orders, f.sortBy, f.direction);
    return Ok(orders[..]);
  }

  /** What a caller of the order endpoint may rely on: exactly the matching orders; unsorted in response order,
      ascending the one stable sort of them, descending the one descending order with every class of ties reversed. */
  lemma ProcessedOrdersRefinesSpec(f: OrdersFilter, response: seq<Order>)
    ensures IsPermutation(MatchingOrders(f, response), ProcessedOrders(f, response))
    ensures f.sortBy == Unsorted ==> ProcessedOrders(f, response) == MatchingOrders(f, response)
    ensures f.sortBy != Unsorted && f.direction == Asc ==>
      forall t :: IsStableSort(f.sortBy, MatchingOrders(f, response), t) <==> t == ProcessedOrders(f, response)
    ensures f.sortBy != Unsorted && f.direction == Desc ==>
      forall t :: IsDescendingReversal(f.sortBy, MatchingOrders(f, response), t) <==> t == ProcessedOrders(f, response)
    ensures forall o :: o in ProcessedOrders(f, response) <==>
      && o in response
      && (f.orderType == None || f.orderType == Some(o.orderType))
      && (|f.status| == 0 || o.user.status in f.status)
  {
    var m, r := MatchingOrders(f, response), ProcessedOrders(f, response);
    if f.sortBy != Unsorted {
      SortPermutation(f.sortBy, f.direction, m);
      if f.direction == Asc {
        SortIsStableSort(f.sortBy, m);
        forall t | IsStableSort(f.sortBy, m, t) ensures t == r {
          SortIsUnique(f.sortBy, Asc, t, r);
        }
      } else {
        SortIsDescendingReversal(f.sortBy, m);
        forall t | IsDescendingReversal(f.sortBy, m, t) ensures t == r {
          SortIsUnique(f.sortBy, Desc, t, r);
        }
      }
    }
    forall o ensures o in r <==> o in response && OrderMatches(f, o) {
      SelectKeepsExactly((x: Order) => OrderMatches(f, x), response, o);
      assert o in r <==> o in multiset(r);
      assert o in m <==> o in multiset(m);
      assert o in response <==> o in multiset(response);
    }
  }

  function Ties(key: Order -> int, k: int, s: seq<Order>): seq<Order> {
    Select((o: Order) => key(o) == k, s)
  }

  /** t holds the elements of s by ascending or descending key; elements with one key stay in their order when
      ascending, and turn back to front when descending. */
  ghost predicate IsSortedBy(key: Order -> int, dir: SortDirection, s: seq<Order>, t: seq<Order>) {
    && IsPermutation(s, t)
    && (forall i, j :: 0 <= i < j < |t| ==> if dir == Asc then key(t[i]) <= key(t[j]) else key(t[i]) >= key(t[j]))
    && (forall k: int :: Ties(key, k, t) == if dir == Asc then Ties(key, k, s) else Reversed(Ties(key, k, s)))
  }

  lemma {:induction false} SelectAgree<T>(p: T -> bool, q: T -> bool, s: seq<T>)
    requires forall x :: p(x) == q(x)
    ensures Select(p, s) == Select(q, s)
  {
    if s == [] {
    } else {
      SelectAgree(p, q, s[1..]);
    }
  }

  lemma SortedByKey(field: SortField, dir: SortDirection, s: seq<Order>, key: Order -> int)
    requires forall o :: Key(field, o) == key(o)
    ensures IsSortedBy(key, dir, s, InsertionSorted(field, dir, s))
  {
    hide InsertionSorted, Key;
    var t := InsertionSorted(field, dir, s);
    if dir == Asc { SortIsStableSort(field, s); } else { SortIsDescendingReversal(field, s); }
    forall k: int ensures Ties(key, k, t) == if dir == Asc then Ties(key, k, s) else Reversed(Ties(key, k, s)) {
      SelectAgree((o: Order) => key(o) == k, (o: Order) => Key(field, o) == k, s);
      SelectAgree((o: Order) => key(o) == k, (o: Order) => Key(field, o) == k, t);
      assert WithKey(field, k, s) == Ties(key, k, s) && WithKey(field, k, t) == Ties(key, k, t);
    }
  }

  /** The response is sorted by the field its caller named. */
  lemma SortsByNamedField(f: OrdersFilter, response: seq<Order>)
    ensures var m, r := MatchingOrders(f, response), ProcessedOrders(f, response);
      && (f.sortBy == ByPlatinum ==> IsSortedBy((o: Order) => o.platinum, f.direction, m, r))
      && (f.sortBy == ByQuantity ==> IsSortedBy((o: Order) => o.quantity, f.direction, m, r))
      && (f.sortBy == ByReputation ==> IsSortedBy((o: Order) => o.user.reputation, f.direction, m, r))
  {
    hide InsertionSorted, IsSortedBy;
    var m := MatchingOrders(f, response);
    match f.sortBy
    case ByPlatinum => SortedByKey(f.sortBy, f.direction, m, (o: Order) => o.platinum);
    case ByQuantity => SortedByKey(f.sortBy, f.direction, m, (o: Order) => o.quantity);
    case ByReputation => SortedByKey(f.sortBy, f.direction, m, (o: Order) => o.user.reputation);
    case Unsorted =>
  }

  // ---------- Filtering auctions ----------

  predicate AuctionMatches(f: AuctionFilter, a: Auction) {
    && (f.status != [] ==> a.owner.status in f.status)
    && (f.buyoutOnly ==> a.isDirectSell)
    && (f.buyoutPriceMax > 0 ==> a.buyoutPrice <= f.buyoutPriceMax)
  }

  function MatchingAuctions(f: AuctionFilter, response: seq<Auction>): seq<Auction> {
    Select((a: Auction) => AuctionMatches(f, a), response)
  }

  /** What the search keeps: exactly the auctions of owners with a wanted status, for direct sale if that is demanded,
      and at most at the maximum price if there is one, each once for every time it is listed, in the order of the
      response. */
  lemma SearchReturnsExactly(f: AuctionFilter, response: seq<Auction>) returns (at: seq<nat>)
    ensures TakesFrom(response, at, MatchingAuctions(f, response))
    ensures forall k: nat :: k in at <==>
      && k < |response|
      && (|f.status| == 0 || response[k].owner.status in f.status)
      && (!f.buyoutOnly || response[k].isDirectSell)
      && (f.buyoutPriceMax <= 0 || response[k].buyoutPrice <= f.buyoutPriceMax)
  {
    at := SelectPositions((a: Auction) => AuctionMatches(f, a), response);
  }

  method SearchAuctions<E>(response: Result<seq<Auction>, E>, f: AuctionFilter) returns (r: Result<seq<Auction>, E>)
    ensures response.Err? ==> r == Result<seq<Auction>, E>.Err(response.error)
    ensures response.Ok? ==> r == Result<seq<Auction>, E>.Ok(MatchingAuctions(f, response.value))
    ensures response.Ok? ==>
      exists at: seq<nat> ::
        && TakesFrom(response.value, at, r.value)
        && forall k: nat :: k in at <==>
             && k < |response.value|
             && (|f.status| == 0 || response.value[k].owner.status in f.status)
             && (!f.buyoutOnly || response.value[k].isDirectSell)
             && (f.buyoutPriceMax <= 0 || response.value[k].buyoutPrice <= f.buyoutPriceMax)
  {
    if response.Err? { return Err(response.error); }
    var raw := response.value;
    var auctions: seq<Auction> := [];
    ghost var p := (a: Auction) => AuctionMatches(f, a);
    for i := 0 to |raw|
      invariant auctions == Select(p, raw[..i])
    {
      var a := raw[i];
      assert raw[..i + 1] == raw[..i] + [a];
      SelectSnoc(p, raw[..i], a);
      if |f.status| > 0 {
        var known := ContainsStatus(f.status, a.owner.status);
        if !known { continue; }
      }
      if f.buyoutOnly && !a.isDirectSell { continue; }
      if f.buyoutPriceMax > 0 && a.buyoutPrice > f.buyoutPriceMax { continue; }
      auctions := auctions + [a];
    }
    assert raw[..|raw|] == raw;
    ghost var at := SearchReturnsExactly(f, raw);
    return Ok(auctions);
  }

  lemma SearchReturnsOnlyMatches(f: AuctionFilter, response: seq<Auction>, a: Auction)
    ensures a in MatchingAuctions(f, response) <==>
      && a in response
      && (|f.status| == 0 || a.owner.status in f.status)
      && (!f.buyoutOnly || a.isDirectSell)
      && (f.buyoutPriceMax <= 0 || a.buyoutPrice <= f.buyoutPriceMax)
  {
    SelectKeepsExactly((x: Auction) => AuctionMatches(f, x), response, a);
    assert a in MatchingAuctions(f, response) <==> a in multiset(MatchingAuctions(f, response));
    assert a in response <==> a in multiset(response);
  }
}
