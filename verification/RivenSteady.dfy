/** Repeated passes over one unchanging market, seen only through where each starts and what it delivers. */
module RivenSteady {
  import opened Market
  import opened RivenWatch
  import opened RivenLoop

  /** One pass, the memory it starts from, and its deliveries. */
  datatype Trial = Trial(p: Pass, base: seq<string>, sent: seq<Auction>)

  /** Everything the trials delivered, in order. */
  function Concat(ts: seq<Trial>): seq<Auction> {
    if ts == [] then [] else Concat(ts[..|ts| - 1]) + ts[|ts| - 1].sent
  }

  // ---------- Cut short and resumed ----------

  /** The trial delivers what is due up to the first auction whose send fails. */
  ghost predicate CutShort(t: Trial) {
    exists k: nat :: k < |t.p.found| && StopsAt(t.p, t.base, k) && t.sent == Due(t.p, t.base, k)
  }

  ghost predicate Uncut(t: Trial) {
    t.sent == Due(t.p, t.base, |t.p.found|)
  }

  /** One market; every trial but the last is cut short, and the next starts with what was delivered remembered. */
  ghost predicate Interrupted(ts: seq<Trial>) {
    && ts != []
    && (forall k :: 0 <= k < |ts| ==> SameMarket(ts[k].p, ts[0].p))
    && (forall k: nat :: k < |ts| - 1 ==> CutShort(ts[k]) && ts[k + 1].base == ts[k].base + Ids(ts[k].sent))
    && Uncut(ts[|ts| - 1])
  }

  /** The auction whose send failed is still due afterwards. */
  lemma StillDue(p: Pass, base: seq<string>, k: nat, n: nat)
    requires k < n <= |p.found| && IsDue(p, base, k)
    ensures Due(p, base + Ids(Due(p, base, k)), n) != []
  {
    var more := base + Ids(Due(p, base, k));
    DueAfter(p, base, k, k);
    DueCovers(p, more, n);
    assert Eligible(p, more, k);
    assert p.Id(k) in Ids(Due(p, more, n));
  }

  /** What a trial cut short leaves due is exactly the rest. */
  lemma CutShortLeavesRest(t: Trial, p: Pass)
    requires CutShort(t) && SameMarket(t.p, p)
    ensures Due(p, t.base, |p.found|) == t.sent + Due(p, t.base + Ids(t.sent), |p.found|)
    ensures Due(p, t.base + Ids(t.sent), |p.found|) != []
  {
    var n := |p.found|;
    var k: nat :| k < n && StopsAt(t.p, t.base, k) && t.sent == Due(t.p, t.base, k);
    DueSplit(t.p, t.base, k, n);
    StillDue(t.p, t.base, k, n);
    SameMarketSameDue(t.p, p, t.base, n);
    SameMarketSameDue(t.p, p, t.base + Ids(t.sent), n);
  }

  lemma ChainStep(base: seq<string>, before: seq<Auction>, sent: seq<Auction>, rest: seq<Auction>)
    ensures (base + Ids(before)) + Ids(sent) == base + Ids(before + sent)
    ensures before + (sent + rest) == (before + sent) + rest
  {
    IdsAppend(before, sent);
    assert (base + Ids(before)) + Ids(sent) == base + (Ids(before) + Ids(sent));
  }

  /** After j trials the memory is the starting memory plus everything delivered, and what is still due is exactly what
      remains of the first due list. */
  lemma {:induction false} InterruptedPrefix(ts: seq<Trial>, j: nat)
    requires Interrupted(ts) && j < |ts|
    ensures var p := ts[0].p; var n := |p.found|; var sent := Concat(ts[..j]);
      && ts[j].base == ts[0].base + Ids(sent)
      && Due(p, ts[0].base, n) == sent + Due(p, ts[j].base, n)
      && (j > 0 ==> Due(p, ts[j].base, n) != [])
  {
    if j == 0 {
    } else {
      var p, t, before := ts[0].p, ts[j - 1], Concat(ts[..j - 1]);
      var n := |p.found|;
      InterruptedPrefix(ts, j - 1);
      assert CutShort(ts[j - 1]);
      CutShortLeavesRest(t, p);
      assert ts[..j][..j - 1] == ts[..j - 1];
      ChainStep(ts[0].base, before, t.sent, Due(p, ts[j].base, n));
    }
  }

  /** Put together, the trials deliver exactly the due list of the first: nothing lost, nothing repeated, in order. */
  lemma InterruptedTotal(ts: seq<Trial>)
    requires Interrupted(ts)
    ensures var last := ts[|ts| - 1];
      && Concat(ts) == Due(ts[0].p, ts[0].base, |ts[0].p.found|)
      && last.base + Ids(last.sent) == ts[0].base + Ids(Concat(ts))
      && (|ts| > 1 ==> last.sent != [])
  {
    var m := |ts| - 1;
    InterruptedPrefix(ts, m);
    SameMarketSameDue(ts[m].p, ts[0].p, ts[m].base, |ts[0].p.found|);
    ChainStep(ts[0].base, Concat(ts[..m]), ts[m].sent, []);
  }

  lemma {:induction false} ConcatAtLeast(ts: seq<Trial>)
    requires forall k :: 0 <= k < |ts| ==> ts[k].sent != []
    ensures |Concat(ts)| >= |ts|
  {
    if ts == [] {
    } else {
      ConcatAtLeast(ts[..|ts| - 1]);
    }
  }

  // ---------- Waiting, delivering, resting ----------

  /** Every qualifying auction is in the memory. */
  ghost predicate Saturated(p: Pass, ids: seq<string>) {
    forall i: nat :: i < |p.found| && p.Qualifies(i) ==> p.Id(i) in ids
  }

  ghost predicate Closed(p: Pass) {
    forall i: nat :: i < |p.found| ==> !p.Open(i)
  }

  ghost predicate AllOpen(p: Pass) {
    forall i: nat :: i < |p.found| ==> p.Open(i)
  }

  /** One market, nothing cut short, whatever the clock of each trial lets through; trial m is inside the window
      throughout.  The memory carries over up to and after trial m, and after every trial that delivered nothing. */
  ghost predicate Smooth(ts: seq<Trial>, m: nat) {
    && m < |ts|
    && (forall k ::
         0 <= k < |ts| ==> ts[k].p.found == ts[0].p.found && ts[k].p.minQuality == ts[0].p.minQuality && Uncut(ts[k]))
    && AllOpen(ts[m].p)
    && (forall k: nat ::
         k < |ts| - 1 && (ts[k].sent == [] || k <= m) ==> ts[k + 1].base == ts[k].base + Ids(ts[k].sent))
  }

  lemma ClosedDeliversNothing(t: Trial)
    requires Uncut(t) && Closed(t.p)
    ensures t.sent == [] && t.base + Ids(t.sent) == t.base
  {
    NothingEligible(t.p, t.base, |t.p.found|);
  }

  lemma SaturatedDeliversNothing(t: Trial)
    requires Uncut(t) && Saturated(t.p, t.base)
    ensures t.sent == [] && t.base + Ids(t.sent) == t.base
  {
    NothingEligible(t.p, t.base, |t.p.found|);
  }

  lemma OpenSaturates(t: Trial)
    requires Uncut(t) && AllOpen(t.p)
    ensures Saturated(t.p, t.base + Ids(t.sent))
  {
    DueCovers(t.p, t.base, |t.p.found|);
    forall i: nat | i < |t.p.found| && t.p.Qualifies(i) ensures t.p.Id(i) in t.base + Ids(t.sent) {
      if t.p.Id(i) !in t.base { assert Eligible(t.p, t.base, i); }
    }
  }

  /** Up to trial m nothing is forgotten and nothing is delivered twice. */
  lemma {:induction false} CarriesMemory(ts: seq<Trial>, m: nat, k: nat)
    requires Smooth(ts, m) && k <= m + 1 && k <= |ts|
    ensures NoDuplicates(Ids(Concat(ts[..k]))) && forall x :: x in Ids(Concat(ts[..k])) ==> x !in ts[0].base
    ensures k < |ts| ==> ts[k].base == ts[0].base + Ids(Concat(ts[..k]))
  {
    if k == 0 {
      assert ts[0].base + Ids([]) == ts[0].base;
    } else {
      var before, t := Concat(ts[..k - 1]), ts[k - 1];
      CarriesMemory(ts, m, k - 1);
      assert ts[..k][..k - 1] == ts[..k - 1];
      assert Uncut(t);
      DueIsFresh(t.p, t.base, |t.p.found|);
      IdsAppend(before, t.sent);
      DistinctAppend(Ids(before), Ids(t.sent));
      ChainStep(ts[0].base, before, t.sent, []);
    }
  }

  /** After trial m every qualifying id is in the memory, and nothing is delivered any more. */
  lemma {:induction false} RestsAfter(ts: seq<Trial>, m: nat, k: nat)
    requires Smooth(ts, m) && m < k <= |ts|
    ensures Saturated(ts[0].p, ts[0].base + Ids(Concat(ts[..m + 1])))
    ensures k < |ts| ==> ts[k].sent == [] && ts[k].base == ts[0].base + Ids(Concat(ts[..m + 1]))
  {
    var memory := ts[0].base + Ids(Concat(ts[..m + 1]));
    if k == m + 1 {
      CarriesMemory(ts, m, m);
      OpenSaturates(ts[m]);
      assert ts[..m + 1][..m] == ts[..m];
      ChainStep(ts[0].base, Concat(ts[..m]), ts[m].sent, []);
      assert forall i: nat :: i < |ts[0].p.found| ==> ts[m].p.Qualifies(i) == ts[0].p.Qualifies(i);
      CarriesMemory(ts, m, m + 1);
    } else {
      RestsAfter(ts, m, k - 1);
      assert Ids(ts[k - 1].sent) == [];
    }
    if k < |ts| {
      assert forall i: nat :: i < |ts[0].p.found| ==> ts[k].p.Qualifies(i) == ts[0].p.Qualifies(i);
      SaturatedDeliversNothing(ts[k]);
    }
  }

  /** Up to trial m every trial delivers what is due and not yet delivered; after it none delivers anything;
      together the deliveries are new and pairwise distinct and leave every qualifying id in the memory. */
  lemma DeliversOnceThenRests(ts: seq<Trial>, m: nat, k: nat)
    requires Smooth(ts, m) && k < |ts|
    ensures k <= m ==> ts[k].sent == Due(ts[k].p, ts[0].base + Ids(Concat(ts[..k])), |ts[k].p.found|)
    ensures k > m || Closed(ts[k].p) ==> ts[k].sent == []
    ensures k >= m ==> ts[k].base + Ids(ts[k].sent) == ts[0].base + Ids(Concat(ts[..m + 1]))
    ensures NoDuplicates(Ids(Concat(ts[..m + 1]))) && forall x :: x in Ids(Concat(ts[..m + 1])) ==> x !in ts[0].base
    ensures Saturated(ts[0].p, ts[0].base + Ids(Concat(ts[..m + 1])))
  {
    hide Due, Eligible;
    CarriesMemory(ts, m, m + 1);
    RestsAfter(ts, m, m + 1);
    if Closed(ts[k].p) { ClosedDeliversNothing(ts[k]); }
    if k <= m {
      CarriesMemory(ts, m, k);
      assert Uncut(ts[k]);
      if k == m {
        assert ts[..m + 1][..m] == ts[..m];
        ChainStep(ts[0].base, Concat(ts[..m]), ts[m].sent, []);
      }
    } else {
      RestsAfter(ts, m, k);
    }
  }
}
