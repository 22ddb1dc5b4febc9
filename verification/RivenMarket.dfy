/** One step of the riven watch stated over what it was given: the response as the market sent it, the spec, the clock
    and the outcome of every send, without the filter, the loop or the endings of the code. */
module RivenMarket {
  import opened Common
  import opened Market
  import opened RivenWatch
  import opened RivenLoop
  import MarketAdapter
  import RivenCalculator

  type Calculator = RivenCalculator.Calculator

  // ---------- What the watch asks for ----------

  /** The auction meets what the spec asks of owner status, direct sale and price. */
  predicate IsAsked(spec: RivenSpec, a: Auction) {
    && (if spec.playerStatus == [] then a.owner.status == "ingame" || a.owner.status == "online"
        else a.owner.status in spec.playerStatus)
    && (spec.buyoutOnly ==> a.isDirectSell)
    && (spec.threshold >= 1 ==> a.buyoutPrice <= spec.threshold)
  }

  /** How many asked-for auctions precede position k of the response: the number of the clock reading and of the send
      that belong to the auction there. */
  function AskedBefore(spec: RivenSpec, raw: seq<Auction>, k: nat): nat
    requires k <= |raw|
  {
    if k == 0 then 0 else AskedBefore(spec, raw, k - 1) + (if IsAsked(spec, raw[k - 1]) then 1 else 0)
  }

  lemma {:induction false} AskedMonotone(spec: RivenSpec, raw: seq<Auction>, k: nat, m: nat)
    requires k < m <= |raw| && IsAsked(spec, raw[k])
    ensures AskedBefore(spec, raw, k) < AskedBefore(spec, raw, m)
  {
    if k < m - 1 {
      AskedMonotone(spec, raw, k, m - 1);
    } else {
      assert AskedBefore(spec, raw, m) == AskedBefore(spec, raw, k) + 1;
    }
  }

  /** The auction at position k of the response is asked for and good enough. */
  predicate IsWanted(c: Calculator, inp: RivenInput, k: nat)
    requires inp.search.Some?
  {
    var raw := inp.search.value;
    && k < |raw| && IsAsked(inp.spec, raw[k])
    && c.Quality(raw[k].attributes, raw[k].modRank, inp.weapon) >= inp.spec.minRollQuality
  }

  /** The clock reading for the auction at position k is inside the window. */
  predicate IsInside(inp: RivenInput, k: nat)
    requires inp.search.Some? && k < |inp.search.value|
  {
    inp.spec.window.Some? ==>
      inp.spec.window.value.from
      <= inp.minuteAt(AskedBefore(inp.spec, inp.search.value, k))
      <= inp.spec.window.value.to
  }

  /** The auction at position k is to be announced: wanted, inside the window and not remembered, and no earlier one has
      its id and the same claim. */
  predicate IsOpen(c: Calculator, base: seq<string>, inp: RivenInput, k: nat)
    requires inp.search.Some?
  {
    IsWanted(c, inp, k) && IsInside(inp, k) && inp.search.value[k].id !in base
  }

  ghost predicate IsPending(c: Calculator, base: seq<string>, inp: RivenInput, k: nat)
    requires inp.search.Some?
  {
    && IsOpen(c, base, inp, k)
    && forall j: nat :: j < k && IsOpen(c, base, inp, j) ==> inp.search.value[j].id != inp.search.value[k].id
  }

  /** The pending auctions among the first n of the response. */
  ghost function Pending(c: Calculator, base: seq<string>, inp: RivenInput, n: nat): seq<Auction>
    requires inp.search.Some? && n <= |inp.search.value|
  {
    if n == 0 then []
    else Pending(c, base, inp, n - 1) + (if IsPending(c, base, inp, n - 1) then [inp.search.value[n - 1]] else [])
  }

  /** A message about the auction at position k can be made and is accepted. */
  predicate CanBeSent(inp: RivenInput, k: nat)
    requires inp.search.Some? && k < |inp.search.value|
  {
    inp.weapon.Some? && inp.sendOk(AskedBefore(inp.spec, inp.search.value, k))
  }

  /** The first pending auction that cannot be sent. */
  ghost predicate IsBlocked(c: Calculator, base: seq<string>, inp: RivenInput, k: nat)
    requires inp.search.Some?
  {
    && IsPending(c, base, inp, k) && !CanBeSent(inp, k)
    && forall j: nat :: j < k && IsPending(c, base, inp, j) ==> CanBeSent(inp, j)
  }

  // ---------- The pass over the filtered response, by positions of the response ----------

  /** The auction found at i stands at some position below n of the response. */
  ghost predicate HasOrigin(spec: RivenSpec, raw: seq<Auction>, n: nat, i: nat)
    requires n <= |raw|
  {
    exists k: nat :: k < n && IsAsked(spec, raw[k]) && AskedBefore(spec, raw, k) == i
  }

  lemma {:induction false} AskedIsFound(spec: RivenSpec, raw: seq<Auction>, n: nat)
    requires n <= |raw|
    ensures var m := MarketAdapter.MatchingAuctions(FilterOf(spec), raw[..n]);
      && |m| == AskedBefore(spec, raw, n)
      && (forall k: nat :: k < n && IsAsked(spec, raw[k]) ==>
            AskedBefore(spec, raw, k) < |m| && m[AskedBefore(spec, raw, k)] == raw[k])
      && (forall i: nat :: i < |m| ==> HasOrigin(spec, raw, n, i))
  {
    if n == 0 {
    } else {
      AskedIsFound(spec, raw, n - 1);
      assert raw[..n] == raw[..n - 1] + [raw[n - 1]];
      var f := FilterOf(spec);
      MarketAdapter.SelectSnoc((a: Auction) => MarketAdapter.AuctionMatches(f, a), raw[..n - 1], raw[n - 1]);
      assert MarketAdapter.AuctionMatches(f, raw[n - 1]) <==> IsAsked(spec, raw[n - 1]);
      var m := MarketAdapter.MatchingAuctions(f, raw[..n]);
      forall i: nat | i < |m| ensures HasOrigin(spec, raw, n, i) {
        if i < AskedBefore(spec, raw, n - 1) {
          assert HasOrigin(spec, raw, n - 1, i);
        } else {
          assert AskedBefore(spec, raw, n - 1) == i;
        }
      }
    }
  }

  lemma FoundByPosition(c: Calculator, inp: RivenInput)
    requires inp.search.Some?
    ensures var p, raw := PassOf(c, inp), inp.search.value;
      && |p.found| == AskedBefore(inp.spec, raw, |raw|)
      && (forall k: nat :: k < |raw| && IsAsked(inp.spec, raw[k]) ==>
            AskedBefore(inp.spec, raw, k) < |p.found| && p.found[AskedBefore(inp.spec, raw, k)] ==
              Candidate(raw[k], c.Quality(raw[k].attributes, raw[k].modRank, inp.weapon)))
      && (forall i: nat :: i < |p.found| ==> HasOrigin(inp.spec, raw, |raw|, i))
  {
    var raw := inp.search.value;
    AskedIsFound(inp.spec, raw, |raw|);
    assert raw[..|raw|] == raw;
  }

  /** The position in the response of the auction found at i. */
  lemma OriginOf(c: Calculator, inp: RivenInput, i: nat) returns (k: nat)
    requires inp.search.Some? && i < |PassOf(c, inp).found|
    ensures k < |inp.search.value| && IsAsked(inp.spec, inp.search.value[k])
    ensures AskedBefore(inp.spec, inp.search.value, k) == i
  {
    hide IsAsked, AskedBefore;
    FoundByPosition(c, inp);
    assert HasOrigin(inp.spec, inp.search.value, |inp.search.value|, i);
    k :| k < |inp.search.value| && IsAsked(inp.spec, inp.search.value[k])
      && AskedBefore(inp.spec, inp.search.value, k) == i;
  }

  /** Position k of the response as the loop sees it. */
  lemma SeenAt(c: Calculator, base: seq<string>, inp: RivenInput, k: nat)
    requires inp.search.Some? && k < |inp.search.value| && IsAsked(inp.spec, inp.search.value[k])
    ensures var p, i, a := PassOf(c, inp), AskedBefore(inp.spec, inp.search.value, k), inp.search.value[k];
      && i < |p.found| && p.found[i] == Candidate(a, c.Quality(a.attributes, a.modRank, inp.weapon))
      && (p.Qualifies(i) <==> IsWanted(c, inp, k))
      && (p.Open(i) <==> IsInside(inp, k))
      && (Eligible(p, base, i) <==> IsOpen(c, base, inp, k))
      && (Deliverable(p, i) <==> CanBeSent(inp, k))
  {
    hide IsAsked, AskedBefore;
    FoundByPosition(c, inp);
  }

  lemma OpenIsAsked(c: Calculator, base: seq<string>, inp: RivenInput, k: nat)
    requires inp.search.Some? && IsOpen(c, base, inp, k)
    ensures k < |inp.search.value| && IsAsked(inp.spec, inp.search.value[k])
  {}

  lemma DueIsPending(c: Calculator, base: seq<string>, inp: RivenInput, k: nat)
    requires inp.search.Some? && k < |inp.search.value| && IsAsked(inp.spec, inp.search.value[k])
    requires AskedBefore(inp.spec, inp.search.value, k) < |PassOf(c, inp).found|
    ensures IsDue(PassOf(c, inp), base, AskedBefore(inp.spec, inp.search.value, k)) <==> IsPending(c, base, inp, k)
  {
    hide IsAsked, AskedBefore, PassOf, IsOpen, Eligible;
    var p, raw, i := PassOf(c, inp), inp.search.value, AskedBefore(inp.spec, inp.search.value, k);
    SeenAt(c, base, inp, k);
    if IsPending(c, base, inp, k) {
      forall j: nat | j < i && Eligible(p, base, j) ensures p.Id(j) != p.Id(i) {
        var m := OriginOf(c, inp, j);
        SeenAt(c, base, inp, m);
        if k < m { AskedMonotone(inp.spec, raw, k, m); }
      }
    }
    if IsDue(p, base, i) {
      forall m: nat | m < k && IsOpen(c, base, inp, m) ensures raw[m].id != raw[k].id {
        OpenIsAsked(c, base, inp, m);
        SeenAt(c, base, inp, m);
        AskedMonotone(inp.spec, raw, m, k);
      }
    }
  }

  /** The due list of the loop is the pending list of the response. */
  lemma {:induction false} DueArePending(c: Calculator, base: seq<string>, inp: RivenInput, n: nat)
    requires inp.search.Some? && n <= |inp.search.value|
    ensures AskedBefore(inp.spec, inp.search.value, n) <= |PassOf(c, inp).found|
    ensures Due(PassOf(c, inp), base, AskedBefore(inp.spec, inp.search.value, n)) == Pending(c, base, inp, n)
  {
    hide PassOf, IsDue;
    var raw := inp.search.value;
    if n == 0 {
    } else {
      DueArePending(c, base, inp, n - 1);
      if IsAsked(inp.spec, raw[n - 1]) {
        SeenAt(c, base, inp, n - 1);
        DueIsPending(c, base, inp, n - 1);
      }
    }
  }

  // ---------- The auction to report ----------

  function PriceAt(inp: RivenInput, k: nat): int
    requires inp.search.Some? && k < |inp.search.value|
  {
    inp.search.value[k].buyoutPrice
  }

  function QualityAt(c: Calculator, inp: RivenInput, k: nat): int
    requires inp.search.Some? && k < |inp.search.value|
  {
    c.Quality(inp.search.value[k].attributes, inp.search.value[k].modRank, inp.weapon)
  }

  /** The first cheapest wanted auction from position l on. */
  ghost predicate IsCheapestFrom(c: Calculator, inp: RivenInput, l: nat, m: nat)
    requires inp.search.Some?
  {
    && l <= m && IsWanted(c, inp, m)
    && (forall j: nat :: l <= j && IsWanted(c, inp, j) ==> PriceAt(inp, m) <= PriceAt(inp, j))
    && (forall j: nat :: l <= j < m && IsWanted(c, inp, j) ==> PriceAt(inp, m) < PriceAt(inp, j))
  }

  /** The last wanted auction that is free. */
  ghost predicate IsLastFreeWanted(c: Calculator, inp: RivenInput, l: nat)
    requires inp.search.Some?
  {
    && IsWanted(c, inp, l) && PriceAt(inp, l) == 0
    && forall j: nat :: l < j && IsWanted(c, inp, j) ==> PriceAt(inp, j) != 0
  }

  ghost predicate NoneNegative(c: Calculator, inp: RivenInput)
    requires inp.search.Some?
  {
    forall j: nat :: IsWanted(c, inp, j) ==> PriceAt(inp, j) >= 0
  }

  /** The auction whose price and quality are reported: the first cheapest wanted one, or, when that one is free, the
      first cheapest after the last free one. */
  ghost predicate IsReported(c: Calculator, inp: RivenInput, m: nat)
    requires inp.search.Some?
  {
    && IsWanted(c, inp, m) && PriceAt(inp, m) != 0
    && (IsCheapestFrom(c, inp, 0, m)
        || (NoneNegative(c, inp) && exists l: nat :: IsLastFreeWanted(c, inp, l) && IsCheapestFrom(c, inp, l + 1, m)))
  }

  /** The market ends the loop on zero although something is wanted: no wanted auction has a negative price and the last
      one is free. */
  ghost predicate EndsOnFree(c: Calculator, inp: RivenInput)
    requires inp.search.Some?
  {
    && NoneNegative(c, inp)
    && exists l: nat :: IsLastFreeWanted(c, inp, l) && forall j: nat :: l < j ==> !IsWanted(c, inp, j)
  }

  lemma WantedIsSeen(c: Calculator, inp: RivenInput, k: nat)
    requires inp.search.Some? && IsWanted(c, inp, k)
    ensures var p, i := PassOf(c, inp), AskedBefore(inp.spec, inp.search.value, k);
      i < |p.found| && p.Qualifies(i) && p.Price(i) == PriceAt(inp, k) && p.found[i].quality == QualityAt(c, inp, k)
  {
    SeenAt(c, [], inp, k);
  }

  lemma WantedMonotone(c: Calculator, inp: RivenInput, k: nat, m: nat)
    requires inp.search.Some? && IsWanted(c, inp, k) && IsWanted(c, inp, m)
    ensures k < m <==> AskedBefore(inp.spec, inp.search.value, k) < AskedBefore(inp.spec, inp.search.value, m)
  {
    if k < m { AskedMonotone(inp.spec, inp.search.value, k, m); }
    if m < k { AskedMonotone(inp.spec, inp.search.value, m, k); }
  }

  /** The position of a qualifying auction the loop sees. */
  lemma QualifyingIsWanted(c: Calculator, inp: RivenInput, i: nat) returns (k: nat)
    requires inp.search.Some? && i < |PassOf(c, inp).found| && PassOf(c, inp).Qualifies(i)
    ensures IsWanted(c, inp, k) && AskedBefore(inp.spec, inp.search.value, k) == i
    ensures PriceAt(inp, k) == PassOf(c, inp).Price(i) && QualityAt(c, inp, k) == PassOf(c, inp).found[i].quality
  {
    k := OriginOf(c, inp, i);
    SeenAt(c, [], inp, k);
  }

  /** First cheapest after position l of the response, or from its beginning, is the same in the loop's numbering. */
  lemma CheapestIsSeen(c: Calculator, inp: RivenInput, l: nat, m: nat)
    requires inp.search.Some? && l < |inp.search.value| && IsWanted(c, inp, l)
    requires IsCheapestFrom(c, inp, l + 1, m)
    ensures var p, raw := PassOf(c, inp), inp.search.value; var n := |p.found|;
      IsFirstCheapestAfter(p, n, AskedBefore(inp.spec, raw, l), AskedBefore(inp.spec, raw, m))
  {
    hide PassOf, IsAsked, AskedBefore, PriceAt, QualityAt;
    var p, raw := PassOf(c, inp), inp.search.value;
    WantedIsSeen(c, inp, m);
    WantedMonotone(c, inp, l, m);
    forall i: nat | AskedBefore(inp.spec, raw, l) < i < |p.found| && p.Qualifies(i)
      ensures p.Price(AskedBefore(inp.spec, raw, m)) <= p.Price(i)
      ensures i < AskedBefore(inp.spec, raw, m) ==> p.Price(AskedBefore(inp.spec, raw, m)) < p.Price(i)
    {
      var k := QualifyingIsWanted(c, inp, i);
      WantedMonotone(c, inp, l, k);
      WantedMonotone(c, inp, k, m);
    }
  }

  lemma CheapestOfAllIsSeen(c: Calculator, inp: RivenInput, m: nat)
    requires inp.search.Some? && IsCheapestFrom(c, inp, 0, m)
    ensures var p := PassOf(c, inp); IsFirstCheapest(p, |p.found|, AskedBefore(inp.spec, inp.search.value, m))
  {
    hide PassOf, IsAsked, AskedBefore, PriceAt, QualityAt;
    var p, raw := PassOf(c, inp), inp.search.value;
    WantedIsSeen(c, inp, m);
    forall i: nat | i < |p.found| && p.Qualifies(i)
      ensures p.Price(AskedBefore(inp.spec, raw, m)) <= p.Price(i)
      ensures i < AskedBefore(inp.spec, raw, m) ==> p.Price(AskedBefore(inp.spec, raw, m)) < p.Price(i)
    {
      var k := QualifyingIsWanted(c, inp, i);
      WantedMonotone(c, inp, k, m);
    }
  }

  lemma LastFreeIsSeen(c: Calculator, inp: RivenInput, l: nat)
    requires inp.search.Some? && IsLastFreeWanted(c, inp, l)
    ensures var p := PassOf(c, inp); IsLastFree(p, |p.found|, AskedBefore(inp.spec, inp.search.value, l))
  {
    hide PassOf, IsAsked, AskedBefore, PriceAt, QualityAt;
    var p, raw := PassOf(c, inp), inp.search.value;
    WantedIsSeen(c, inp, l);
    forall i: nat | AskedBefore(inp.spec, raw, l) < i < |p.found| && p.Qualifies(i) ensures p.Price(i) != 0 {
      var k := QualifyingIsWanted(c, inp, i);
      WantedMonotone(c, inp, l, k);
    }
  }

  lemma NoneNegativeIsSeen(c: Calculator, inp: RivenInput)
    requires inp.search.Some?
    ensures NoneNegative(c, inp) <==>
      var p := PassOf(c, inp); forall i: nat :: i < |p.found| && p.Qualifies(i) ==> p.Price(i) >= 0
  {
    hide PassOf, IsAsked, AskedBefore, PriceAt, QualityAt;
    var p := PassOf(c, inp);
    if NoneNegative(c, inp) {
      forall i: nat | i < |p.found| && p.Qualifies(i) ensures p.Price(i) >= 0 {
        var k := QualifyingIsWanted(c, inp, i);
      }
    }
    if forall i: nat :: i < |p.found| && p.Qualifies(i) ==> p.Price(i) >= 0 {
      forall k: nat | IsWanted(c, inp, k) ensures k < |inp.search.value| && PriceAt(inp, k) >= 0 {
        WantedIsSeen(c, inp, k);
      }
    }
  }

  /** The tracked pair is price and quality of the reported auction. */
  lemma ReportedIsTracked(c: Calculator, inp: RivenInput, m: nat)
    requires inp.search.Some? && IsReported(c, inp, m)
    ensures var p := PassOf(c, inp); Best(p, |p.found|) == (PriceAt(inp, m), QualityAt(c, inp, m))
  {
    hide PassOf, IsAsked, AskedBefore, PriceAt, QualityAt, Best, IsFirstCheapest, IsFirstCheapestAfter;
    var p, raw := PassOf(c, inp), inp.search.value;
    var n, i := |p.found|, AskedBefore(inp.spec, raw, m);
    WantedIsSeen(c, inp, m);
    if IsCheapestFrom(c, inp, 0, m) {
      CheapestOfAllIsSeen(c, inp, m);
      BestIsFirstCheapest(p, n, i);
    } else {
      var l: nat :| IsLastFreeWanted(c, inp, l) && IsCheapestFrom(c, inp, l + 1, m);
      var f := AskedBefore(inp.spec, raw, l);
      LastFreeIsSeen(c, inp, l);
      CheapestIsSeen(c, inp, l, m);
      NoneNegativeIsSeen(c, inp);
      BestAfterLastFree(p, n, f);
      FirstCheapestAfterIsUnique(p, n, f, i);
    }
  }

  /** The same in the other direction: what the loop sees as cheapest is cheapest in the response. */
  lemma SeenIsCheapestOfAll(c: Calculator, inp: RivenInput, m: nat)
    requires inp.search.Some? && IsWanted(c, inp, m)
    requires var p := PassOf(c, inp);
      AskedBefore(inp.spec, inp.search.value, m) < |p.found|
      && IsFirstCheapest(p, |p.found|, AskedBefore(inp.spec, inp.search.value, m))
    ensures IsCheapestFrom(c, inp, 0, m)
  {
    hide PassOf, IsAsked, AskedBefore, PriceAt, QualityAt;
    WantedIsSeen(c, inp, m);
    forall j: nat | IsWanted(c, inp, j)
      ensures PriceAt(inp, m) <= PriceAt(inp, j) && (j < m ==> PriceAt(inp, m) < PriceAt(inp, j))
    {
      WantedIsSeen(c, inp, j);
      WantedMonotone(c, inp, j, m);
    }
  }

  lemma SeenIsCheapest(c: Calculator, inp: RivenInput, l: nat, m: nat)
    requires inp.search.Some? && IsWanted(c, inp, l) && IsWanted(c, inp, m)
    requires var p, raw := PassOf(c, inp), inp.search.value;
      IsFirstCheapestAfter(p, |p.found|, AskedBefore(inp.spec, raw, l), AskedBefore(inp.spec, raw, m))
    ensures IsCheapestFrom(c, inp, l + 1, m)
  {
    hide PassOf, IsAsked, AskedBefore, PriceAt, QualityAt;
    WantedIsSeen(c, inp, m);
    WantedMonotone(c, inp, l, m);
    forall j: nat | l < j && IsWanted(c, inp, j)
      ensures PriceAt(inp, m) <= PriceAt(inp, j) && (j < m ==> PriceAt(inp, m) < PriceAt(inp, j))
    {
      WantedIsSeen(c, inp, j);
      WantedMonotone(c, inp, l, j);
      WantedMonotone(c, inp, j, m);
    }
  }

  lemma SeenIsLastFree(c: Calculator, inp: RivenInput, l: nat)
    requires inp.search.Some? && IsWanted(c, inp, l)
    requires var p := PassOf(c, inp); IsLastFree(p, |p.found|, AskedBefore(inp.spec, inp.search.value, l))
    ensures IsLastFreeWanted(c, inp, l)
  {
    hide PassOf, IsAsked, AskedBefore, PriceAt, QualityAt;
    WantedIsSeen(c, inp, l);
    forall j: nat | l < j && IsWanted(c, inp, j) ensures PriceAt(inp, j) != 0 {
      WantedIsSeen(c, inp, j);
      WantedMonotone(c, inp, l, j);
    }
  }

  lemma LastFreeQualifies(p: Pass, i: nat)
    requires IsLastFree(p, |p.found|, i)
    ensures i < |p.found| && p.Qualifies(i)
  {}

  /** The last free wanted auction, when some wanted auction is free. */
  lemma LastFreeWantedExists(c: Calculator, inp: RivenInput, f: nat) returns (l: nat)
    requires inp.search.Some? && IsWanted(c, inp, f) && PriceAt(inp, f) == 0
    ensures IsLastFreeWanted(c, inp, l)
  {
    hide PassOf, IsAsked, AskedBefore, PriceAt, QualityAt, IsLastFree, IsLastFreeWanted;
    var p := PassOf(c, inp);
    WantedIsSeen(c, inp, f);
    var i := LastFreeExists(p, |p.found|, AskedBefore(inp.spec, inp.search.value, f));
    LastFreeQualifies(p, i);
    l := QualifyingIsWanted(c, inp, i);
    SeenIsLastFree(c, inp, l);
  }

  lemma TrackedAfterFree(c: Calculator, inp: RivenInput, f: nat) returns (m: nat)
    requires inp.search.Some? && Best(PassOf(c, inp), |PassOf(c, inp).found|).0 != 0
    requires IsCheapestFrom(c, inp, 0, f) && PriceAt(inp, f) == 0
    ensures IsReported(c, inp, m)
  {
    hide PassOf, IsAsked, AskedBefore, PriceAt, QualityAt, Best, IsLastQualifying;
    var p, raw := PassOf(c, inp), inp.search.value;
    var n := |p.found|;
    var l := LastFreeWantedExists(c, inp, f);
    LastFreeIsSeen(c, inp, l);
    NoneNegativeIsSeen(c, inp);
    BestAfterLastFree(p, n, AskedBefore(inp.spec, raw, l));
    var i: nat :| IsFirstCheapestAfter(p, n, AskedBefore(inp.spec, raw, l), i)
      && Best(p, n) == (p.Price(i), p.found[i].quality) && p.Price(i) > 0;
    m := QualifyingIsWanted(c, inp, i);
    SeenIsCheapest(c, inp, l, m);
  }

  /** Whenever the loop ends with a price, some auction is the one to report. */
  lemma TrackedIsReported(c: Calculator, inp: RivenInput) returns (m: nat)
    requires inp.search.Some? && Best(PassOf(c, inp), |PassOf(c, inp).found|).0 != 0
    ensures IsReported(c, inp, m)
  {
    hide PassOf, IsAsked, AskedBefore, PriceAt, QualityAt, Best;
    var p := PassOf(c, inp);
    var n := |p.found|;
    if NoneQualifies(p, n) { BestOfNone(p, n); }
    var i := FirstCheapestExists(p, n);
    m := QualifyingIsWanted(c, inp, i);
    SeenIsCheapestOfAll(c, inp, m);
    if PriceAt(inp, m) == 0 {
      m := TrackedAfterFree(c, inp, m);
    }
  }

  lemma EndsOnFreeIsSeen(c: Calculator, inp: RivenInput)
    requires inp.search.Some?
    ensures EndsOnFree(c, inp) <==> EndsFree(PassOf(c, inp))
  {
    hide PassOf, IsAsked, AskedBefore, PriceAt, QualityAt, Best;
    var p, raw := PassOf(c, inp), inp.search.value;
    NoneNegativeIsSeen(c, inp);
    if EndsOnFree(c, inp) {
      var l: nat :| IsLastFreeWanted(c, inp, l) && forall j: nat :: l < j ==> !IsWanted(c, inp, j);
      WantedIsSeen(c, inp, l);
      forall i: nat | AskedBefore(inp.spec, raw, l) < i < |p.found| ensures !p.Qualifies(i) {
        if p.Qualifies(i) {
          var k := QualifyingIsWanted(c, inp, i);
          WantedMonotone(c, inp, l, k);
        }
      }
      assert IsLastQualifying(p, |p.found|, AskedBefore(inp.spec, raw, l));
    }
    if EndsFree(p) {
      var i: nat :| IsLastQualifying(p, |p.found|, i) && p.Price(i) == 0;
      var l := QualifyingIsWanted(c, inp, i);
      forall j: nat | l < j ensures !IsWanted(c, inp, j) {
        if IsWanted(c, inp, j) {
          WantedIsSeen(c, inp, j);
          WantedMonotone(c, inp, l, j);
        }
      }
      assert IsLastFreeWanted(c, inp, l);
    }
  }

  /** When something is wanted, either some auction is the one to report or the market ends on a free one. */
  lemma ReportedUnlessFree(c: Calculator, inp: RivenInput)
    requires inp.search.Some? && exists k: nat :: IsWanted(c, inp, k)
    ensures (exists m: nat :: IsReported(c, inp, m)) <==> !EndsOnFree(c, inp)
  {
    hide PassOf, IsAsked, AskedBefore, PriceAt, QualityAt, Best;
    var p := PassOf(c, inp);
    EndsOnFreeIsSeen(c, inp);
    EndsOnZeroIff(p);
    var k: nat :| IsWanted(c, inp, k);
    WantedIsSeen(c, inp, k);
    if !EndsOnFree(c, inp) {
      var m := TrackedIsReported(c, inp);
    }
    forall m: nat | IsReported(c, inp, m) ensures !EndsOnFree(c, inp) {
      ReportedIsTracked(c, inp, m);
    }
  }
}
