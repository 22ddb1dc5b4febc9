/** Runs of the riven watch over an unchanging market: interrupted sends, suppressed alerts, repeated alerts. */
module RivenSteadyRuns {
  import opened Common
  import opened Market
  import opened Watch
  import opened RivenWatch
  import opened RivenLoop
  import opened RivenSteady
  import opened RivenMarket
  import opened RivenSteps
  import RivenCalculator

  /** The step runs over the same market and spec as ref and its status is applied. */
  ghost predicate Steady(inp: RivenInput, ref: RivenInput) {
    && inp.get == Found && inp.applied && inp.search.Some?
    && inp.spec == ref.spec && inp.search == ref.search && inp.weapon == ref.weapon
  }

  /** Every clock reading of the step is inside the window. */
  ghost predicate AlwaysOpen(inp: RivenInput) {
    forall w :: inp.spec.window == Some(w) ==> forall i: nat :: w.from <= inp.minuteAt(i) <= w.to
  }

  /** Every clock reading of the step is outside the window. */
  ghost predicate AlwaysClosed(inp: RivenInput) {
    inp.spec.window.Some? &&
    forall i: nat :: inp.minuteAt(i) < inp.spec.window.value.from || inp.spec.window.value.to < inp.minuteAt(i)
  }

  // ---------- One step ----------

  /** Every due auction can be delivered. */
  ghost predicate AllDeliverable(p: Pass, base: seq<string>) {
    forall j: nat :: j < |p.found| && IsDue(p, base, j) ==> Deliverable(p, j)
  }

  /** A step over a search that found something, in terms of what is due. */
  ghost predicate Delivers(s: Step, p: Pass, base: seq<string>, stamp: Date) {
    var n := |p.found|;
    && (s.ending in {Completed, NothingQualifies} <==> AllDeliverable(p, base))
    && (s.ending in {Completed, NothingQualifies} ==>
          s.delivered == Due(p, base, n) && (s.ending == Completed <==> Best(p, n).0 != 0))
    && (s.ending == Completed ==>
          var (price, quality) := Best(p, n);
          var ids, notified := base + Ids(s.delivered), if s.delivered == [] then None else Some(stamp);
          s.status == RivenStatus(price, quality, ids, notified, Some(Condition(true, AuctionFound))))
    && (s.ending == NothingQualifies ==> s.status == Persist(Bare(Condition(true, QualityThresholdNotMet))))
    && (s.ending == SendFailed ==>
          CutShort(Trial(p, base, s.delivered)) && s.status.notifiedAuctionIDs == base + Ids(s.delivered)
            && s.status.lastNotifiedAt == None)
  }

  lemma StepDelivers(c: Calculator, stored: RivenStatus, inp: RivenInput)
    requires inp.get == Found && inp.applied && inp.search.Some? && PassOf(c, inp).found != []
    ensures Delivers(Reconcile(c, stored, inp), PassOf(c, inp), Remembered(stored, inp.today), inp.stamp)
  {
    var p, base := PassOf(c, inp), Remembered(stored, inp.today);
    StepOfPass(c, stored, inp);
    PassDelivers(p, base);
    if p.Final(base).end == Running { TracksBest(p, base, |p.found|); }
  }

  lemma SteadyPass(c: Calculator, a: RivenInput, ref: RivenInput)
    requires Steady(a, ref)
    ensures PassOf(c, a) == PassOf(c, ref).(minuteAt := a.minuteAt, sendOk := a.sendOk)
  {}

  lemma SameWindow(p: Pass, q: Pass)
    requires q == p.(minuteAt := q.minuteAt, sendOk := q.sendOk)
    requires forall i: nat :: MaySend(p.window, p.minuteAt(i)) && MaySend(q.window, q.minuteAt(i))
    ensures SameMarket(p, q)
  {
    forall i: nat | i < |p.found| ensures p.Open(i) == q.Open(i) {
      assert MaySend(p.window, p.minuteAt(i)) && MaySend(q.window, q.minuteAt(i));
    }
  }

  lemma SteadyOpen(c: Calculator, a: RivenInput, ref: RivenInput)
    requires Steady(a, ref) && Steady(ref, ref) && AlwaysOpen(a) && AlwaysOpen(ref)
    ensures SameMarket(PassOf(c, a), PassOf(c, ref)) && SameMarket(PassOf(c, ref), PassOf(c, a))
  {
    SteadyPass(c, a, ref);
    SameWindow(PassOf(c, a), PassOf(c, ref));
    SameWindow(PassOf(c, ref), PassOf(c, a));
  }

  lemma {:induction false} BestOfFound(p: Pass, q: Pass, n: nat)
    requires p.found == q.found && p.minQuality == q.minQuality && n <= |p.found|
    ensures Best(p, n) == Best(q, n)
  {
    if n == 0 {
    } else {
      BestOfFound(p, q, n - 1);
    }
  }

  /** The steps of a run as trials. */
  function Trials(c: Calculator, start: RivenStatus, run: seq<RivenInput>): (ts: seq<Trial>)
    requires forall k :: 0 <= k < |run| ==> run[k].search.Some?
    ensures |ts| == |run|
    ensures forall k: nat :: k < |ts| ==>
      ts[k]
        == Trial(PassOf(c, run[k]), Remembered(StatusAt(c, start, run, k), run[k].today),
          StepAt(c, start, run, k).delivered)
  {
    seq(|run|, k requires 0 <= k < |run| =>
      Trial(PassOf(c, run[k]), Remembered(StatusAt(c, start, run, k), run[k].today),
        StepAt(c, start, run, k).delivered))
  }

  lemma {:induction false} TrialsConcat(c: Calculator, start: RivenStatus, run: seq<RivenInput>, k: nat)
    requires k <= |run| && forall i :: 0 <= i < |run| ==> run[i].search.Some?
    ensures Concat(Trials(c, start, run)[..k]) == DeliveredBefore(c, start, run, k)
  {
    hide Reconcile, PassOf, Remembered, StepAt, StatusAt;
    if k == 0 {
    } else {
      TrialsConcat(c, start, run, k - 1);
      var ts := Trials(c, start, run);
      assert ts[..k][..k - 1] == ts[..k - 1];
      assert ts[k - 1].sent == StepAt(c, start, run, k - 1).delivered;
    }
  }

  // ---------- Interrupted equals uninterrupted ----------

  /** A run over one market with the window open, in which every step but the last is cut short by a failed send. */
  ghost predicate InterruptedRun(c: Calculator, start: RivenStatus, run: seq<RivenInput>) {
    && run != []
    && (forall k :: 0 <= k < |run| ==> Steady(run[k], run[0]) && AlwaysOpen(run[k]))
    && (forall k: nat :: k < |run| - 1 ==> StepAt(c, start, run, k).ending == SendFailed)
    && StepAt(c, start, run, |run| - 1).ending in {Completed, NothingQualifies}
  }

  /** The first step of the run as it would be if every send were accepted, stamped when the run really ended. */
  function Uninterrupted(run: seq<RivenInput>): RivenInput
    requires run != []
  {
    run[0].(sendOk := (_: nat) => true, stamp := run[|run| - 1].stamp)
  }

  /** A step that ends in any of these ways has found auctions. */
  lemma EndingFoundSomething(c: Calculator, stored: RivenStatus, inp: RivenInput)
    requires inp.search.Some? && Reconcile(c, stored, inp).ending in {Completed, NothingQualifies, SendFailed}
    ensures inp.get == Found && PassOf(c, inp).found != []
  {}

  lemma CutShortStep(c: Calculator, stored: RivenStatus, inp: RivenInput, next: RivenInput)
    requires inp.applied && inp.search.Some? && Reconcile(c, stored, inp).ending == SendFailed
    ensures var s := Reconcile(c, stored, inp); var base := Remembered(stored, inp.today);
      CutShort(Trial(PassOf(c, inp), base, s.delivered)) && Remembered(s.status, next.today) == base + Ids(s.delivered)
  {
    EndingFoundSomething(c, stored, inp);
    StepDelivers(c, stored, inp);
  }

  lemma UncutStep(c: Calculator, stored: RivenStatus, inp: RivenInput)
    requires inp.applied && inp.search.Some? && Reconcile(c, stored, inp).ending in {Completed, NothingQualifies}
    ensures Uncut(Trial(PassOf(c, inp), Remembered(stored, inp.today), Reconcile(c, stored, inp).delivered))
  {
    EndingFoundSomething(c, stored, inp);
    StepDelivers(c, stored, inp);
  }

  lemma TrialsInterrupted(c: Calculator, start: RivenStatus, run: seq<RivenInput>)
    requires InterruptedRun(c, start, run)
    ensures Interrupted(Trials(c, start, run))
  {
    hide Reconcile, PassOf, Remembered, SameMarket, CutShort, Uncut, Ids, AlwaysOpen;
    var ts := Trials(c, start, run);
    assert Steady(run[0], run[0]) && AlwaysOpen(run[0]);
    forall k | 0 <= k < |ts| ensures SameMarket(ts[k].p, ts[0].p) {
      assert Steady(run[k], run[0]) && AlwaysOpen(run[k]);
      SteadyOpen(c, run[k], run[0]);
    }
    forall k: nat | k < |ts| - 1 ensures CutShort(ts[k]) && ts[k + 1].base == ts[k].base + Ids(ts[k].sent) {
      assert Steady(run[k], run[0]) && StepAt(c, start, run, k).ending == SendFailed;
      CutShortStep(c, StatusAt(c, start, run, k), run[k], run[k + 1]);
    }
    assert Steady(run[|run| - 1], run[0]);
    UncutStep(c, StatusAt(c, start, run, |run| - 1), run[|run| - 1]);
  }

  /** Two complete steps over one market, the second starting with the memory the first began with plus what had been
      delivered in between, leave the same status. */
  lemma SameOutcome(once: Step, p: Pass, base: seq<string>, last: Step, q: Pass, base': seq<string>, sent: seq<Auction>,
                    stamp: Date)
    requires Delivers(once, p, base, stamp) && Delivers(last, q, base', stamp)
    requires SameMarket(q, p) && AllDeliverable(p, base)
    requires last.ending in {Completed, NothingQualifies}
    requires base' + Ids(last.delivered) == base + Ids(sent) && sent == Due(p, base, |p.found|)
    requires sent == [] <==> last.delivered == []
    ensures once.delivered == sent && once.status == last.status && once.ending == last.ending
  {
    BestOfFound(p, q, |p.found|);
  }

  lemma FirstStepNotPanicking(c: Calculator, start: RivenStatus, run: seq<RivenInput>)
    requires InterruptedRun(c, start, run) && run[0].weapon.None?
    ensures var p := PassOf(c, run[0]);
      && SameMarket(PassOf(c, Uninterrupted(run)), p)
      && forall j: nat :: j < |p.found| ==> !IsDue(p, Remembered(start, run[0].today), j)
  {
    var p, base := PassOf(c, run[0]), Remembered(start, run[0].today);
    assert Steady(run[0], run[0]) && AlwaysOpen(run[0]);
    assert StepAt(c, start, run, 0) == Reconcile(c, start, run[0]);
    EndingFoundSomething(c, start, run[0]);
    StepDelivers(c, start, run[0]);
    StepOfPass(c, start, run[0]);
    PassDelivers(p, base);
    SteadyPass(c, Uninterrupted(run), run[0]);
    SameWindow(p, PassOf(c, Uninterrupted(run)));
  }

  /** With a weapon every due auction of the failure-free step can be delivered; without one, nothing was due. */
  lemma OnceDeliverable(c: Calculator, start: RivenStatus, run: seq<RivenInput>)
    requires InterruptedRun(c, start, run)
    ensures var p := PassOf(c, Uninterrupted(run)); var base := Remembered(start, run[0].today);
      AllDeliverable(p, base)
  {
    hide Reconcile;
    var p, q, base := PassOf(c, Uninterrupted(run)), PassOf(c, run[0]), Remembered(start, run[0].today);
    assert Steady(run[0], run[0]) && AlwaysOpen(run[0]);
    SteadyPass(c, Uninterrupted(run), run[0]);
    if run[0].weapon.None? {
      FirstStepNotPanicking(c, start, run);
      SameMarketSameDue(p, q, base, |p.found|);
    }
  }

  lemma TrialsOutcome(ts: seq<Trial>, once: Step, p: Pass, last: Step, stamp: Date)
    requires Interrupted(ts) && SameMarket(ts[0].p, p) && SameMarket(ts[|ts| - 1].p, p)
    requires Delivers(once, p, ts[0].base, stamp) && Delivers(last, ts[|ts| - 1].p, ts[|ts| - 1].base, stamp)
    requires last.delivered == ts[|ts| - 1].sent && last.ending in {Completed, NothingQualifies}
    requires AllDeliverable(p, ts[0].base)
    ensures once.delivered == Concat(ts) && once.status == last.status && once.ending == last.ending
  {
    InterruptedTotal(ts);
    SameMarketSameDue(ts[0].p, p, ts[0].base, |p.found|);
    assert |ts| == 1 ==> ts[..0] == [] && Concat(ts) == [] + last.delivered;
    SameOutcome(once, p, ts[0].base, last, ts[|ts| - 1].p, ts[|ts| - 1].base, Concat(ts), stamp);
  }

  lemma OnceAndLast(c: Calculator, start: RivenStatus, run: seq<RivenInput>)
    requires InterruptedRun(c, start, run)
    ensures var ts := Trials(c, start, run); var once := Uninterrupted(run); var m := |run| - 1;
      && SameMarket(ts[0].p, PassOf(c, once)) && SameMarket(ts[m].p, PassOf(c, once))
      && Delivers(Reconcile(c, start, once), PassOf(c, once), ts[0].base, once.stamp)
      && Delivers(StepAt(c, start, run, m), ts[m].p, ts[m].base, once.stamp)
  {
    hide Reconcile, PassOf, Delivers, SameMarket;
    var ts, m, once := Trials(c, start, run), |run| - 1, Uninterrupted(run);
    assert Steady(run[m], run[0]) && Steady(run[0], run[0]) && AlwaysOpen(run[0]) && AlwaysOpen(run[m]);
    assert Steady(once, run[0]) && AlwaysOpen(once) && Steady(once, once) && Steady(run[m], once);
    SteadyOpen(c, once, run[0]);
    SteadyOpen(c, run[m], once);
    SteadyPass(c, run[m], once);
    EndingFoundSomething(c, StatusAt(c, start, run, m), run[m]);
    StepDelivers(c, start, once);
    StepDelivers(c, StatusAt(c, start, run, m), run[m]);
  }

  lemma InterruptedAsTrials(c: Calculator, start: RivenStatus, run: seq<RivenInput>)
    requires InterruptedRun(c, start, run)
    ensures
      var ts, u := Trials(c, start, run), Reconcile(c, start, Uninterrupted(run));
      var last := StepAt(c, start, run, |run| - 1);
      && u.delivered == Concat(ts) && u.status == last.status && u.ending == last.ending
  {
    assert StatusAt(c, start, run, 0) == start;
    hide Reconcile, PassOf, Remembered, Concat, StepAt, StatusAt, Trials, AlwaysOpen, IsDue, Best, Due, Ids;
    var ts, m := Trials(c, start, run), |run| - 1;
    TrialsInterrupted(c, start, run);
    OnceAndLast(c, start, run);
    OnceDeliverable(c, start, run);
    assert ts[0].base == Remembered(start, run[0].today);
    assert ts[m].sent == StepAt(c, start, run, m).delivered;
    var u, p := Reconcile(c, start, Uninterrupted(run)), PassOf(c, Uninterrupted(run));
    var last, stamp := StepAt(c, start, run, m), Uninterrupted(run).stamp;
    TrialsOutcome(ts, u, p, last, stamp);
  }

  lemma LastStatus(c: Calculator, start: RivenStatus, run: seq<RivenInput>)
    requires run != []
    ensures StatusAt(c, start, run, |run|) == StepAt(c, start, run, |run| - 1).status
  {
    hide Reconcile;
  }

  /** Interrupted equals uninterrupted: however often sends fail on the way, the deliveries of the run, put together,
      are exactly the deliveries of one failure-free step, and the final status is the one that step would leave. */
  lemma InterruptedEqualsUninterrupted(c: Calculator, start: RivenStatus, run: seq<RivenInput>)
    requires InterruptedRun(c, start, run)
    ensures DeliveredBefore(c, start, run, |run|) == Reconcile(c, start, Uninterrupted(run)).delivered
    ensures StatusAt(c, start, run, |run|) == Reconcile(c, start, Uninterrupted(run)).status
    ensures Reconcile(c, start, Uninterrupted(run)).ending == StepAt(c, start, run, |run| - 1).ending
  {
    LastStatus(c, start, run);
    hide Reconcile, PassOf, Remembered, Concat, Uninterrupted, StatusAt, StepAt, Trials, DeliveredBefore, AlwaysOpen;
    InterruptedAsTrials(c, start, run);
    TrialsConcat(c, start, run, |run|);
    assert Trials(c, start, run)[..|run|] == Trials(c, start, run);
  }

  /** If every interrupted step delivers something, the run takes no more steps than it has deliveries. */
  lemma InterruptedRunIsShort(c: Calculator, start: RivenStatus, run: seq<RivenInput>)
    requires InterruptedRun(c, start, run) && |run| > 1
    requires forall k: nat :: k < |run| - 1 ==> StepAt(c, start, run, k).delivered != []
    ensures |run| <= |DeliveredBefore(c, start, run, |run|)|
  {
    hide Reconcile, PassOf, Remembered, Concat, StatusAt, StepAt, DeliveredBefore;
    var ts := Trials(c, start, run);
    TrialsInterrupted(c, start, run);
    InterruptedTotal(ts);
    forall k | 0 <= k < |ts| ensures ts[k].sent != [] {
      assert ts[k].sent == StepAt(c, start, run, k).delivered;
    }
    ConcatAtLeast(ts);
    TrialsConcat(c, start, run, |run|);
    assert ts[..|run|] == ts;
  }

  // ---------- Convergence ----------

  /** A step over the market of ref in which nothing outside fails. */
  ghost predicate NothingFails(inp: RivenInput, ref: RivenInput) {
    Steady(inp, ref) && inp.weapon.Some? && forall i: nat :: inp.sendOk(i)
  }

  /** Something is wanted, and the market does not end on a free auction. */
  ghost predicate HasPrice(c: Calculator, inp: RivenInput)
    requires inp.search.Some?
  {
    (exists k: nat :: IsWanted(c, inp, k)) && !EndsOnFree(c, inp)
  }

  /** A run over one market in which nothing outside fails and step m is inside the window throughout.  The clock of
      every other step may be inside, outside, or cross an edge of the window.  Up to step m, a step that was inside the
      window at any reading is followed on the day of its timestamp; later steps may have any date. */
  ghost predicate SmoothRun(c: Calculator, run: seq<RivenInput>, m: nat) {
    && m < |run|
    && (forall k :: 0 <= k < |run| ==> NothingFails(run[k], run[0]))
    && HasPrice(c, run[0])
    && AlwaysOpen(run[m])
    && (forall k: nat :: k <= m && k + 1 < |run| && !AlwaysClosed(run[k]) ==> run[k + 1].today == run[k].stamp)
  }

  lemma NothingFailsCompletes(c: Calculator, stored: RivenStatus, inp: RivenInput)
    requires NothingFails(inp, inp) && Best(PassOf(c, inp), |PassOf(c, inp).found|).0 != 0
    ensures var s := Reconcile(c, stored, inp); var base := Remembered(stored, inp.today);
      && Uncut(Trial(PassOf(c, inp), base, s.delivered))
      && s.status.notifiedAuctionIDs == base + Ids(s.delivered)
      && s.status.lastNotifiedAt == if s.delivered == [] then None else Some(inp.stamp)
  {
    StepDelivers(c, stored, inp);
  }

  lemma PriceIsTracked(c: Calculator, inp: RivenInput)
    requires inp.search.Some? && HasPrice(c, inp)
    ensures Best(PassOf(c, inp), |PassOf(c, inp).found|).0 != 0
  {
    hide PassOf, IsAsked, Best, EndsOnFree;
    ReportedUnlessFree(c, inp);
    var m: nat :| IsReported(c, inp, m);
    ReportedIsTracked(c, inp, m);
  }

  /** One step of a smooth run as a trial, and the memory it leaves. */
  lemma SmoothTrial(c: Calculator, start: RivenStatus, run: seq<RivenInput>, m: nat, k: nat)
    requires SmoothRun(c, run, m) && k < |run|
    ensures var t := Trials(c, start, run)[k]; var after := StatusAt(c, start, run, k + 1);
      && t.p.found == PassOf(c, run[0]).found && t.p.minQuality == PassOf(c, run[0]).minQuality
      && Uncut(t)
      && after.notifiedAuctionIDs == t.base + Ids(t.sent)
      && after.lastNotifiedAt == if t.sent == [] then None else Some(run[k].stamp)
  {
    hide Reconcile, PassOf, Uncut, Remembered;
    var p := PassOf(c, run[0]);
    assert NothingFails(run[k], run[0]);
    PriceIsTracked(c, run[0]);
    SteadyPass(c, run[k], run[0]);
    BestOfFound(PassOf(c, run[k]), p, |p.found|);
    NothingFailsCompletes(c, StatusAt(c, start, run, k), run[k]);
  }

  lemma RememberedNext(stored: RivenStatus, sent: seq<Auction>, stamp: Date, today: Date)
    requires stored.lastNotifiedAt == if sent == [] then None else Some(stamp)
    requires sent == [] || today == stamp
    ensures Remembered(stored, today) == stored.notifiedAuctionIDs
  {}

  lemma PassClosed(c: Calculator, inp: RivenInput)
    requires inp.search.Some? && AlwaysClosed(inp)
    ensures Closed(PassOf(c, inp))
  {
    var p := PassOf(c, inp);
    forall i: nat | i < |p.found| ensures !p.Open(i) {
      assert !MaySend(inp.spec.window, inp.minuteAt(i));
    }
  }

  lemma PassOpen(c: Calculator, inp: RivenInput)
    requires inp.search.Some? && AlwaysOpen(inp)
    ensures AllOpen(PassOf(c, inp))
  {
    var p := PassOf(c, inp);
    forall i: nat | i < |p.found| ensures p.Open(i) {
      assert MaySend(inp.spec.window, inp.minuteAt(i));
    }
  }

  lemma TrialsSmooth(c: Calculator, start: RivenStatus, run: seq<RivenInput>, m: nat)
    requires SmoothRun(c, run, m)
    ensures Smooth(Trials(c, start, run), m)
    ensures forall k: nat :: k < |run| ==>
      StatusAt(c, start, run, k + 1).notifiedAuctionIDs
        == Trials(c, start, run)[k].base + Ids(Trials(c, start, run)[k].sent)
  {
    hide Reconcile, PassOf, Remembered, StatusAt, StepAt, AllOpen, HasPrice, Ids;
    var ts := Trials(c, start, run);
    forall k: nat | k < |ts|
      ensures ts[k].p.found == ts[0].p.found && ts[k].p.minQuality == ts[0].p.minQuality && Uncut(ts[k])
      ensures StatusAt(c, start, run, k + 1).notifiedAuctionIDs == ts[k].base + Ids(ts[k].sent)
    {
      SmoothTrial(c, start, run, m, k);
    }
    forall k: nat | k < |ts| - 1 && (ts[k].sent == [] || k <= m)
      ensures ts[k + 1].base == ts[k].base + Ids(ts[k].sent)
    {
      SmoothTrial(c, start, run, m, k);
      if AlwaysClosed(run[k]) {
        assert NothingFails(run[k], run[0]);
        PassClosed(c, run[k]);
        ClosedDeliversNothing(ts[k]);
      }
      RememberedNext(StatusAt(c, start, run, k + 1), ts[k].sent, run[k].stamp, run[k + 1].today);
    }
    assert NothingFails(run[m], run[0]);
    PassOpen(c, run[m]);
  }

  lemma SaturatedMeaning(c: Calculator, inp: RivenInput, ids: seq<string>)
    requires inp.search.Some? && Saturated(PassOf(c, inp), ids)
    ensures forall k: nat :: IsWanted(c, inp, k) ==> inp.search.value[k].id in ids
  {
    hide PassOf, IsAsked, AskedBefore;
    forall k: nat | IsWanted(c, inp, k) ensures inp.search.value[k].id in ids {
      SeenAt(c, [], inp, k);
    }
  }

  lemma AllDueArePending(c: Calculator, base: seq<string>, inp: RivenInput)
    requires inp.search.Some?
    ensures Due(PassOf(c, inp), base, |PassOf(c, inp).found|) == Pending(c, base, inp, |inp.search.value|)
  {
    hide PassOf, Due, Pending, AskedBefore;
    FoundByPosition(c, inp);
    DueArePending(c, base, inp, |inp.search.value|);
  }

  /** No alert is lost and none is repeated.  Up to step m, every step delivers exactly what qualifies inside its own
      window and has not been delivered or remembered before, nothing while the window is closed.  Step m leaves every
      qualifying id in memory; every later step, inside the window or not and on whatever day, sends nothing and leaves
      the memory as it is.  All deliveries of the run together are new and pairwise distinct. */
  lemma ConvergesWithoutLoss(c: Calculator, start: RivenStatus, run: seq<RivenInput>, m: nat, k: nat)
    requires SmoothRun(c, run, m) && k < |run|
    ensures var base := Remembered(start, run[0].today); var delivered := StepAt(c, start, run, k).delivered;
      && (k <= m ==>
            delivered
              == Pending(c, base + Ids(DeliveredBefore(c, start, run, k)), run[k], |run[k].search.value|))
      && (k > m || AlwaysClosed(run[k]) ==> delivered == [])
    ensures var base := Remembered(start, run[0].today); var sent := DeliveredBefore(c, start, run, m + 1);
      && (k >= m ==> StatusAt(c, start, run, k + 1).notifiedAuctionIDs == base + Ids(sent))
      && NoDuplicates(Ids(sent)) && (forall x :: x in Ids(sent) ==> x !in base)
      && forall i: nat :: IsWanted(c, run[0], i) ==> run[0].search.value[i].id in base + Ids(sent)
  {
    assert StatusAt(c, start, run, 0) == start;
    hide Reconcile, PassOf, Remembered, StatusAt, StepAt, Due, Trials, DeliveredBefore, Concat, Pending, IsWanted,
      Saturated;
    TrialsSmooth(c, start, run, m);
    TrialsConcat(c, start, run, k);
    TrialsConcat(c, start, run, m + 1);
    if AlwaysClosed(run[k]) { PassClosed(c, run[k]); }
    DeliversOnceThenRests(Trials(c, start, run), m, k);
    AllDueArePending(c, Remembered(start, run[0].today) + Ids(DeliveredBefore(c, start, run, k)), run[k]);
    SaturatedMeaning(c, run[0], Remembered(start, run[0].today) + Ids(DeliveredBefore(c, start, run, m + 1)));
  }

  lemma NothingBlocks(c: Calculator, base: seq<string>, inp: RivenInput)
    requires NothingFails(inp, inp)
    ensures forall k: nat :: IsPending(c, base, inp, k) ==> CanBeSent(inp, k)
  {}

  /** The step over a market that ends on a free auction stores nothing, so the next one inside the window announces
      again. */
  lemma FreeEndingRepeats(c: Calculator, stored: RivenStatus, a: RivenInput, b: RivenInput)
    requires NothingFails(a, a) && NothingFails(b, a) && AlwaysOpen(b)
    requires EndsOnFree(c, a) && exists k: nat :: IsWanted(c, a, k)
    ensures Reconcile(c, Reconcile(c, stored, a).status, b).delivered != []
  {
    hide Reconcile, IsAsked, Pending, IsReported, IsPending, CanBeSent, EndsOnFree, AskedBefore;
    var first := Reconcile(c, stored, a).status;
    NothingBlocks(c, Remembered(stored, a.today), a);
    NothingBlocks(c, [], b);
    ReportedUnlessFree(c, a);
    StatusMeaning(c, stored, a);
    var k: nat :| IsWanted(c, a, k);
    assert IsAsked(a.spec, a.search.value[k]);
    assert first.notifiedAuctionIDs == [] && first.lastNotifiedAt == None;
    DeliveredMeaning(c, first, b);
    assert IsWanted(c, b, k) && IsInside(b, k);
    WantedAreKept(c, [], b, k);
  }

  lemma SecondOfTwo(c: Calculator, stored: RivenStatus, a: RivenInput, b: RivenInput)
    ensures StepAt(c, stored, [a, b], 1) == Reconcile(c, Reconcile(c, stored, a).status, b)
  {
    assert StatusAt(c, stored, [a, b], 0) == stored;
    assert StatusAt(c, stored, [a, b], 1) == Reconcile(c, stored, a).status;
  }

  /** Two successful steps on one day over one market with the window open: the second sends nothing exactly when the
      market does not end on the zero sentinel.  If the last qualifying auction is free and none has a negative price,
      everything is sent again. */
  lemma SecondStepQuietIff(c: Calculator, stored: RivenStatus, a: RivenInput, b: RivenInput)
    requires NothingFails(a, a) && NothingFails(b, a) && AlwaysOpen(a) && AlwaysOpen(b) && b.today == a.stamp
    requires exists k: nat :: IsWanted(c, a, k)
    ensures var first := Reconcile(c, stored, a); var second := Reconcile(c, first.status, b);
      second.delivered == [] <==> !EndsOnFree(c, a)
  {
    hide Reconcile, EndsOnFree, IsWanted;
    if EndsOnFree(c, a) {
      FreeEndingRepeats(c, stored, a, b);
    } else {
      SecondOfTwo(c, stored, a, b);
      assert SmoothRun(c, [a, b], 0);
      ConvergesWithoutLoss(c, stored, [a, b], 0, 1);
    }
  }

  // ---------- Instances ----------

  /** A single auction that never changes: seen twice on day 1 and once on day 2, with the window always open. */
  function SameAuctionDaily(price: int): seq<RivenInput> {
    var a := Auction("riven", price, true, AuctionOwner("seller", "ingame"), 0, []);
    var spec := RivenSpec([], 0, false, 20, None);
    var weapon := WeaponInfo("weapon", 1.0, "Melee");
    var first := RivenInput(Found, spec, Some([a]), Some(weapon), 1, (_: nat) => 0, (_: nat) => true, 1, true);
    [first, first, first.(today := 2, stamp := 2)]
  }

  /** The auction is wanted, and to be announced while it is not remembered. */
  lemma OneAuctionWanted(c: Calculator, inp: RivenInput, price: int)
    requires price <= 20
    requires inp in SameAuctionDaily(price) || inp == SameAuctionDaily(price)[0].(weapon := None)
    ensures forall k: nat :: IsWanted(c, inp, k) <==> k == 0
    ensures IsPending(c, [], inp, 0) && Pending(c, [], inp, 1) == inp.search.value
    ensures IsLastFreeWanted(c, inp, 0) <==> price == 0
    ensures EndsOnFree(c, inp) <==> price == 0
  {
    RivenCalculator.QualityIsPercentage(c, [], 0, inp.weapon);
    hide Calculator.Quality;
    assert forall k: nat :: IsWanted(c, inp, k) <==> k == 0;
    assert IsPending(c, [], inp, 0);
    assert Pending(c, [], inp, 0) == [];
  }

  lemma WantedIsAsked(c: Calculator, inp: RivenInput, k: nat)
    requires inp.search.Some? && IsWanted(c, inp, k)
    ensures k < |inp.search.value| && IsAsked(inp.spec, inp.search.value[k])
  {}

  /** The reset meant to repeat alerts every day does not: the quiet second step removed the date of the first, so the
      step of the next day announces nothing. */
  lemma DailyRepeatFails(c: Calculator)
    ensures var run := SameAuctionDaily(10);
      && run[2].today != run[0].stamp
      && StepAt(c, EMPTY_STATUS, run, 0).delivered == run[0].search.value
      && StepAt(c, EMPTY_STATUS, run, 2).delivered == []
  {
    hide Reconcile, StepAt, StatusAt, IsWanted, IsPending, Pending, EndsOnFree;
    var run := SameAuctionDaily(10);
    OneAuctionWanted(c, run[0], 10);
    assert IsWanted(c, run[0], 0);
    assert SmoothRun(c, run, 0);
    assert Remembered(EMPTY_STATUS, 1) + Ids(DeliveredBefore(c, EMPTY_STATUS, run, 0)) == [];
    ConvergesWithoutLoss(c, EMPTY_STATUS, run, 0, 0);
    ConvergesWithoutLoss(c, EMPTY_STATUS, run, 0, 2);
  }

  /** A free auction is announced, but the status neither reports its price nor keeps its id, and the next step on the
      same day announces it again. */
  lemma FreeAuctionRepeats(c: Calculator)
    ensures var run := SameAuctionDaily(0); var after := StatusAt(c, EMPTY_STATUS, run, 1);
      && IsWanted(c, run[0], 0) && EndsOnFree(c, run[0])
      && StepAt(c, EMPTY_STATUS, run, 0).delivered == run[0].search.value
      && after == RivenStatus(0, 0, [], None, Some(Condition(true, QualityThresholdNotMet)))
      && StepAt(c, EMPTY_STATUS, run, 1).delivered == run[0].search.value
  {
    hide Reconcile, IsWanted, IsPending, Pending, EndsOnFree, IsReported, CanBeSent, IsAsked;
    var run := SameAuctionDaily(0);
    OneAuctionWanted(c, run[0], 0);
    assert StatusAt(c, EMPTY_STATUS, run, 0) == EMPTY_STATUS;
    NothingBlocks(c, [], run[0]);
    ReportedUnlessFree(c, run[0]);
    WantedIsAsked(c, run[0], 0);
    StatusMeaning(c, EMPTY_STATUS, run[0]);
    DeliveredMeaning(c, EMPTY_STATUS, run[0]);
    DeliveredMeaning(c, StatusAt(c, EMPTY_STATUS, run, 1), run[1]);
  }

  /** Without a weapon and without a demanded quality the very first step panics on the same market. */
  lemma MissingWeaponPanics(c: Calculator)
    ensures Reconcile(c, EMPTY_STATUS, SameAuctionDaily(10)[0].(weapon := None)).result == Crashed
  {
    hide Reconcile;
    var inp := SameAuctionDaily(10)[0].(weapon := None);
    OneAuctionWanted(c, inp, 10);
    assert IsPending(c, Remembered(EMPTY_STATUS, inp.today), inp, 0);
    ResultMeaning(c, EMPTY_STATUS, inp);
  }
}
