/** What one pass over the auctions delivers, remembers and reports, stated without the loop. */
module RivenLoop {
  import opened Market
  import opened RivenWatch

  // ---------- What is due, by definition ----------

  /** Auction i would be announced if it were alone: it qualifies, its clock reading is inside the window, and the
      memory does not hold it. */
  predicate Eligible(p: Pass, base: seq<string>, i: nat)
    requires i < |p.found|
  {
    p.Qualifies(i) && p.Open(i) && p.Id(i) !in base
  }

  /** Auction i is due: eligible, and no earlier eligible auction has its id. */
  ghost predicate IsDue(p: Pass, base: seq<string>, i: nat)
    requires i < |p.found|
  {
    Eligible(p, base, i) && forall j: nat :: j < i && Eligible(p, base, j) ==> p.Id(j) != p.Id(i)
  }

  /** The due auctions among the first n, in order. */
  ghost function Due(p: Pass, base: seq<string>, n: nat): seq<Auction>
    requires n <= |p.found|
  {
    if n == 0 then []
    else Due(p, base, n - 1) + (if IsDue(p, base, n - 1) then [p.found[n - 1].auction] else [])
  }

  function Ids(auctions: seq<Auction>): seq<string> {
    seq(|auctions|, i requires 0 <= i < |auctions| => auctions[i].id)
  }

  ghost predicate NoDuplicates(s: seq<string>) {
    forall i, j :: 0 <= i < j < |s| ==> s[i] != s[j]
  }

  /** The pass can deliver auction i. */
  predicate Deliverable(p: Pass, i: nat) {
    p.hasWeapon && p.sendOk(i)
  }

  /** k is the first due auction that cannot be delivered. */
  ghost predicate StopsAt(p: Pass, base: seq<string>, k: nat)
    requires k < |p.found|
  {
    IsDue(p, base, k) && !Deliverable(p, k) && forall j: nat :: j < k && IsDue(p, base, j) ==> Deliverable(p, j)
  }

  lemma IdsAppend(a: seq<Auction>, b: seq<Auction>)
    ensures Ids(a + b) == Ids(a) + Ids(b)
  {}

  /** Every eligible auction is represented in the due list, and the due list holds nothing else. */
  lemma {:induction false} DueCovers(p: Pass, base: seq<string>, n: nat)
    requires n <= |p.found|
    ensures forall i: nat :: i < n && Eligible(p, base, i) ==> p.Id(i) in Ids(Due(p, base, n))
    ensures forall x :: x in Ids(Due(p, base, n)) ==> exists j: nat :: j < n && IsDue(p, base, j) && p.Id(j) == x
  {
    if n == 0 {
    } else {
      DueCovers(p, base, n - 1);
      var before, tail := Due(p, base, n - 1), if IsDue(p, base, n - 1) then [p.found[n - 1].auction] else [];
      IdsAppend(before, tail);
      assert Ids(tail) == if IsDue(p, base, n - 1) then [p.Id(n - 1)] else [];
      if Eligible(p, base, n - 1) && !IsDue(p, base, n - 1) {
        var j: nat :| j < n - 1 && Eligible(p, base, j) && p.Id(j) == p.Id(n - 1);
        assert p.Id(j) in Ids(before);
      }
    }
  }

  /** The ids of the due list are new and pairwise distinct. */
  lemma {:induction false} DueIsFresh(p: Pass, base: seq<string>, n: nat)
    requires n <= |p.found|
    ensures NoDuplicates(Ids(Due(p, base, n)))
    ensures forall x :: x in Ids(Due(p, base, n)) ==> x !in base
  {
    DueCovers(p, base, n);
    if n == 0 {
    } else {
      DueIsFresh(p, base, n - 1);
      DueCovers(p, base, n - 1);
      if IsDue(p, base, n - 1) {
        var d := Due(p, base, n - 1);
        IdsAppend(d, [p.found[n - 1].auction]);
        assert Ids([p.found[n - 1].auction]) == [p.Id(n - 1)];
        assert p.Id(n - 1) !in Ids(d);
      } else {
        assert Due(p, base, n) == Due(p, base, n - 1);
      }
    }
  }

  // ---------- The loop delivers exactly what is due, up to the first that cannot be delivered ----------

  /** The memory is the old one followed by the ids of this pass's deliveries, in order. */
  lemma {:induction false} MemoryGrowsBySent(p: Pass, base: seq<string>, n: nat)
    requires n <= |p.found|
    ensures p.After(base, n).ids == base + Ids(p.After(base, n).sent)
  {
    if n == 0 {
    } else {
      MemoryGrowsBySent(p, base, n - 1);
      var s := p.After(base, n - 1);
      IdsAppend(s.sent, [p.found[n - 1].auction]);
      assert Ids([p.found[n - 1].auction]) == [p.Id(n - 1)];
      assert base + Ids(s.sent) + [p.Id(n - 1)] == base + (Ids(s.sent) + [p.Id(n - 1)]);
    }
  }

  /** At a running loop, "not yet in the list, qualifying and inside the window" is the same as due. */
  lemma VisitIsDue(p: Pass, base: seq<string>, i: nat)
    requires i < |p.found|
    requires p.After(base, i).end == Running && p.After(base, i).sent == Due(p, base, i)
    ensures IsDue(p, base, i) <==> p.Qualifies(i) && p.Open(i) && p.Id(i) !in p.After(base, i).ids
  {
    MemoryGrowsBySent(p, base, i);
    DueCovers(p, base, i);
  }

  /** A running loop has delivered everything due so far. */
  lemma {:induction false} RunningMeansAllDelivered(p: Pass, base: seq<string>, n: nat)
    requires n <= |p.found|
    ensures p.After(base, n).end == Running ==>
      p.After(base, n).sent == Due(p, base, n) && forall j: nat :: j < n && IsDue(p, base, j) ==> Deliverable(p, j)
    ensures p.After(base, n).end != Running ==>
      exists k: nat :: k < n && StopsAt(p, base, k) && p.After(base, n).sent == Due(p, base, k)
        && p.After(base, n).end == (if p.hasWeapon then SendRejected else NilWeapon)
  {
    if n == 0 {
    } else {
      var s := p.After(base, n - 1);
      RunningMeansAllDelivered(p, base, n - 1);
      if s.end == Running {
        VisitIsDue(p, base, n - 1);
      }
    }
  }

  /** The whole pass, both ways: it runs to the end exactly when every due auction can be delivered, and then it
      delivers exactly the due list; otherwise it delivers the due list up to the first that cannot be. */
  lemma PassDelivers(p: Pass, base: seq<string>)
    ensures var f := p.Final(base); var n := |p.found|;
      && f.ids == base + Ids(f.sent)
      && (f.end == Running <==> forall j: nat :: j < n && IsDue(p, base, j) ==> Deliverable(p, j))
      && (f.end == Running ==> f.sent == Due(p, base, n))
      && (f.end != Running ==> exists k: nat :: k < n && StopsAt(p, base, k) && f.sent == Due(p, base, k))
      && (f.end != Running ==> f.end == if p.hasWeapon then SendRejected else NilWeapon)
  {
    MemoryGrowsBySent(p, base, |p.found|);
    RunningMeansAllDelivered(p, base, |p.found|);
  }

  lemma DistinctAppend(a: seq<string>, b: seq<string>)
    requires NoDuplicates(a) && NoDuplicates(b) && forall x :: x in b ==> x !in a
    ensures NoDuplicates(a + b)
  {
    var s := a + b;
    forall i, j | 0 <= i < j < |s| ensures s[i] != s[j] {
      if j >= |a| {
        assert s[j] == b[j - |a|];
        if i >= |a| { assert s[i] == b[i - |a|]; } else { assert s[i] in a && s[j] in b; }
      }
    }
  }

  /** The deliveries of a pass are new to the memory and pairwise distinct, even if the search repeats an auction,
      so a memory without duplicates stays without. */
  lemma PassDeliversOnce(p: Pass, base: seq<string>)
    ensures var f := p.Final(base);
      && NoDuplicates(Ids(f.sent))
      && (forall x :: x in Ids(f.sent) ==> x !in base)
      && (NoDuplicates(base) ==> NoDuplicates(f.ids))
  {
    PassDelivers(p, base);
    var f := p.Final(base);
    if f.end == Running {
      DueIsFresh(p, base, |p.found|);
    } else {
      var k: nat :| k < |p.found| && StopsAt(p, base, k) && f.sent == Due(p, base, k);
      DueIsFresh(p, base, k);
    }
    if NoDuplicates(base) { DistinctAppend(base, Ids(f.sent)); }
  }

  // ---------- Resuming after an interruption ----------

  lemma {:induction false} NothingEligible(p: Pass, base: seq<string>, n: nat)
    requires n <= |p.found|
    requires forall i: nat :: i < n ==> !Eligible(p, base, i)
    ensures Due(p, base, n) == []
  {
    if n == 0 {
    } else {
      NothingEligible(p, base, n - 1);
    }
  }

  lemma DueAfter(p: Pass, base: seq<string>, k: nat, i: nat)
    requires k <= i < |p.found|
    ensures IsDue(p, base, i) <==> IsDue(p, base + Ids(Due(p, base, k)), i)
  {
    var more := base + Ids(Due(p, base, k));
    DueCovers(p, base, k);
    if IsDue(p, base, i) {
      assert p.Id(i) !in Ids(Due(p, base, k));
    }
    if IsDue(p, more, i) {
      assert forall j: nat :: j < i && Eligible(p, base, j) && p.Id(j) !in more ==> Eligible(p, more, j);
    }
  }

  /** Remembering what was delivered up to position k leaves exactly the rest due: nothing lost, nothing repeated. */
  lemma {:induction false} DueSplit(p: Pass, base: seq<string>, k: nat, n: nat)
    requires k <= n <= |p.found|
    ensures Due(p, base, n) == Due(p, base, k) + Due(p, base + Ids(Due(p, base, k)), n)
  {
    var more := base + Ids(Due(p, base, k));
    if n == k {
      DueCovers(p, base, k);
      NothingEligible(p, more, k);
    } else {
      DueSplit(p, base, k, n - 1);
      DueAfter(p, base, k, n - 1);
      var tail := if IsDue(p, base, n - 1) then [p.found[n - 1].auction] else [];
      assert Due(p, base, k) + (Due(p, more, n - 1) + tail) == (Due(p, base, k) + Due(p, more, n - 1)) + tail;
    }
  }

  /** Two passes over the same market whose clock readings agree on the window have the same due list. */
  ghost predicate SameMarket(p: Pass, q: Pass) {
    && p.found == q.found && p.minQuality == q.minQuality
    && forall i: nat :: i < |p.found| ==> p.Open(i) == q.Open(i)
  }

  lemma {:induction false} SameMarketSameDue(p: Pass, q: Pass, base: seq<string>, n: nat)
    requires SameMarket(p, q) && n <= |p.found|
    ensures Due(p, base, n) == Due(q, base, n)
    ensures forall i: nat :: i < n ==> IsDue(p, base, i) == IsDue(q, base, i)
  {
    forall i: nat | i < |p.found| ensures Eligible(p, base, i) == Eligible(q, base, i) {
      assert p.Open(i) == q.Open(i);
    }
    if n == 0 {
    } else {
      SameMarketSameDue(p, q, base, n - 1);
    }
  }

  // ---------- The cheapest auction ----------

  /** The tracked pair does not depend on the memory, the window or any send. */
  function Best(p: Pass, n: nat): (int, int)
    requires n <= |p.found|
  {
    if n == 0 then (0, 0)
    else
      var (c, q) := Best(p, n - 1);
      if p.Qualifies(n - 1) && (c == 0 || p.Price(n - 1) < c) then (p.Price(n - 1), p.found[n - 1].quality) else (c, q)
  }

  lemma {:induction false} TracksBest(p: Pass, base: seq<string>, n: nat)
    requires n <= |p.found| && p.After(base, n).end == Running
    ensures (p.After(base, n).cheapest, p.After(base, n).best) == Best(p, n)
  {
    if n == 0 {
    } else {
      TracksBest(p, base, n - 1);
    }
  }

  /** m is the first of the cheapest qualifying auctions among the first n. */
  ghost predicate IsFirstCheapest(p: Pass, n: nat, m: nat)
    requires n <= |p.found|
  {
    && m < n && p.Qualifies(m)
    && (forall i: nat :: i < n && p.Qualifies(i) ==> p.Price(m) <= p.Price(i))
    && (forall i: nat :: i < m && p.Qualifies(i) ==> p.Price(m) < p.Price(i))
  }

  ghost predicate NoneQualifies(p: Pass, n: nat)
    requires n <= |p.found|
  {
    forall i: nat :: i < n ==> !p.Qualifies(i)
  }

  /** m is the last qualifying auction among the first n. */
  ghost predicate IsLastQualifying(p: Pass, n: nat, m: nat)
    requires n <= |p.found|
  {
    m < n && p.Qualifies(m) && forall i: nat :: m < i < n ==> !p.Qualifies(i)
  }

  lemma {:induction false} FirstCheapestExists(p: Pass, n: nat) returns (m: nat)
    requires n <= |p.found| && !NoneQualifies(p, n)
    ensures IsFirstCheapest(p, n, m)
  {
    if NoneQualifies(p, n - 1) {
      m := n - 1;
    } else {
      m := FirstCheapestExists(p, n - 1);
      if p.Qualifies(n - 1) && p.Price(n - 1) < p.Price(m) { m := n - 1; }
    }
  }

  lemma {:induction false} BestOfNone(p: Pass, n: nat)
    requires n <= |p.found| && NoneQualifies(p, n)
    ensures Best(p, n) == (0, 0)
  {
    if n == 0 {
    } else {
      BestOfNone(p, n - 1);
    }
  }

  /** Zero doubles as "nothing found yet", so a free auction is forgotten by the next qualifying one.  When the
      cheapest price is not zero the tracked pair is that of the first cheapest auction; when it is zero the loop ends
      on zero exactly if the last qualifying auction is free, and otherwise on some positive price. */
  lemma {:induction false} BestIsFirstCheapest(p: Pass, n: nat, m: nat)
    requires n <= |p.found| && IsFirstCheapest(p, n, m)
    ensures p.Price(m) != 0 ==> Best(p, n) == (p.Price(m), p.found[m].quality)
    ensures p.Price(m) == 0 ==> Best(p, n).0 >= 0
    ensures p.Price(m) == 0 ==> forall l: nat :: IsLastQualifying(p, n, l) ==> (Best(p, n).0 == 0 <==> p.Price(l) == 0)
  {
    if m < n - 1 {
      assert IsFirstCheapest(p, n - 1, m);
      BestIsFirstCheapest(p, n - 1, m);
      if !p.Qualifies(n - 1) {
        forall l: nat | IsLastQualifying(p, n, l) ensures IsLastQualifying(p, n - 1, l) {}
      }
    } else if NoneQualifies(p, n - 1) {
      BestOfNone(p, n - 1);
    } else {
      var m' := FirstCheapestExists(p, n - 1);
      BestIsFirstCheapest(p, n - 1, m');
    }
  }

  /** l is the last qualifying free auction among the first n. */
  ghost predicate IsLastFree(p: Pass, n: nat, l: nat)
    requires n <= |p.found|
  {
    && l < n && p.Qualifies(l) && p.Price(l) == 0
    && forall i: nat :: l < i < n && p.Qualifies(i) ==> p.Price(i) != 0
  }

  /** m is the first of the cheapest qualifying auctions from position l + 1 on. */
  ghost predicate IsFirstCheapestAfter(p: Pass, n: nat, l: nat, m: nat)
    requires n <= |p.found|
  {
    && l < m < n && p.Qualifies(m)
    && (forall i: nat :: l < i < n && p.Qualifies(i) ==> p.Price(m) <= p.Price(i))
    && (forall i: nat :: l < i < m && p.Qualifies(i) ==> p.Price(m) < p.Price(i))
  }

  lemma {:induction false} BestNotNegative(p: Pass, n: nat)
    requires n <= |p.found|
    requires forall i: nat :: i < n && p.Qualifies(i) ==> p.Price(i) >= 0
    ensures Best(p, n).0 >= 0
  {
    if n == 0 {
    } else {
      BestNotNegative(p, n - 1);
    }
  }

  lemma {:induction false} FreeAtTheEnd(p: Pass, n: nat, l: nat)
    requires n <= |p.found| && IsLastFree(p, n, l) && IsLastQualifying(p, n, l)
    requires forall i: nat :: i < n && p.Qualifies(i) ==> p.Price(i) >= 0
    ensures Best(p, n) == (0, p.found[l].quality)
  {
    if n == l + 1 {
      BestNotNegative(p, l);
    } else {
      FreeAtTheEnd(p, n - 1, l);
    }
  }

  lemma {:induction false} FreeForgotten(p: Pass, n: nat, l: nat) returns (m: nat)
    requires n <= |p.found| && IsLastFree(p, n, l) && !IsLastQualifying(p, n, l)
    requires forall i: nat :: i < n && p.Qualifies(i) ==> p.Price(i) >= 0
    ensures IsFirstCheapestAfter(p, n, l, m) && Best(p, n) == (p.Price(m), p.found[m].quality) && p.Price(m) > 0
  {
    if IsLastQualifying(p, n - 1, l) {
      FreeAtTheEnd(p, n - 1, l);
      m := n - 1;
    } else {
      m := FreeForgotten(p, n - 1, l);
      if p.Qualifies(n - 1) && p.Price(n - 1) < p.Price(m) { m := n - 1; }
    }
  }

  /** With free auctions and no negative price, the loop ends with the first cheapest qualifying auction after the last
      free one, or on zero and the quality of that last free one when nothing qualifies after it. */
  lemma BestAfterLastFree(p: Pass, n: nat, l: nat)
    requires n <= |p.found| && IsLastFree(p, n, l)
    requires forall i: nat :: i < n && p.Qualifies(i) ==> p.Price(i) >= 0
    ensures IsLastQualifying(p, n, l) ==> Best(p, n) == (0, p.found[l].quality)
    ensures !IsLastQualifying(p, n, l) ==>
      exists m: nat ::
        IsFirstCheapestAfter(p, n, l, m) && Best(p, n) == (p.Price(m), p.found[m].quality) && p.Price(m) > 0
  {
    if IsLastQualifying(p, n, l) {
      FreeAtTheEnd(p, n, l);
    } else {
      var m := FreeForgotten(p, n, l);
    }
  }

  lemma FirstCheapestAfterIsUnique(p: Pass, n: nat, l: nat, m: nat)
    requires n <= |p.found| && IsFirstCheapestAfter(p, n, l, m)
    ensures !IsLastQualifying(p, n, l)
    ensures forall k: nat :: IsFirstCheapestAfter(p, n, l, k) ==> k == m
  {}

  lemma {:induction false} LastQualifyingExists(p: Pass, n: nat) returns (l: nat)
    requires n <= |p.found| && !NoneQualifies(p, n)
    ensures IsLastQualifying(p, n, l)
  {
    if p.Qualifies(n - 1) {
      l := n - 1;
    } else {
      assert !NoneQualifies(p, n - 1);
      l := LastQualifyingExists(p, n - 1);
    }
  }

  lemma {:induction false} LastFreeExists(p: Pass, n: nat, f: nat) returns (l: nat)
    requires n <= |p.found| && f < n && p.Qualifies(f) && p.Price(f) == 0
    ensures IsLastFree(p, n, l)
  {
    if p.Qualifies(n - 1) && p.Price(n - 1) == 0 {
      l := n - 1;
    } else {
      l := LastFreeExists(p, n - 1, f);
    }
  }

  /** A market that ends the loop on zero although something qualifies: no qualifying price is negative and the
      last qualifying auction is free. */
  ghost predicate EndsFree(p: Pass) {
    && (forall i: nat :: i < |p.found| && p.Qualifies(i) ==> p.Price(i) >= 0)
    && (exists l: nat :: IsLastQualifying(p, |p.found|, l) && p.Price(l) == 0)
  }

  /** Exactly when the loop ends on the sentinel. */
  lemma EndsOnZeroIff(p: Pass)
    ensures Best(p, |p.found|).0 == 0 <==> NoneQualifies(p, |p.found|) || EndsFree(p)
  {
    var n := |p.found|;
    if NoneQualifies(p, n) {
      BestOfNone(p, n);
    } else {
      var m := FirstCheapestExists(p, n);
      BestIsFirstCheapest(p, n, m);
      var l := LastQualifyingExists(p, n);
    }
  }
}
