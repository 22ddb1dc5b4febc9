/** Safety over whole runs of the riven watch: any specs, markets, clocks, send and apply outcomes, step by step. */
module RivenRuns {
  import opened Common
  import opened Market
  import opened Watch
  import opened RivenWatch
  import opened RivenLoop
  import opened RivenMarket
  import opened RivenSteps
  import opened RivenHistory

  // ---------- One step ----------

  /** How a step treats the memory it starts from. */
  ghost predicate HandlesMemory(s: Step, stored: RivenStatus, base: seq<string>, stamp: Date) {
    && (!s.persisted ==> s.status == stored)
    && (s.persisted && Clears(s.ending) ==> s.status.notifiedAuctionIDs == [])
    && (s.persisted && !Clears(s.ending) ==> s.status.notifiedAuctionIDs == base + Ids(s.delivered))
    && (s.persisted ==>
          s.status.lastNotifiedAt == if s.ending == Completed && s.delivered != [] then Some(stamp) else None)
    && (forall x :: x in Ids(s.delivered) ==> x !in base)
    && NoDuplicates(Ids(s.delivered))
  }

  lemma NotPersisted(c: Calculator, stored: RivenStatus, inp: RivenInput)
    ensures !Reconcile(c, stored, inp).persisted ==> Reconcile(c, stored, inp).status == stored
    ensures Reconcile(c, stored, inp).persisted ==> Reconcile(c, stored, inp).ending !in {NotRun, Panicked}
    ensures Reconcile(c, stored, inp).persisted && Reconcile(c, stored, inp).ending == NothingQualifies ==>
      Reconcile(c, stored, inp).status.notifiedAuctionIDs == []
        && Reconcile(c, stored, inp).status.lastNotifiedAt == None
  {}

  lemma StepMemoryOfPass(c: Calculator, stored: RivenStatus, inp: RivenInput)
    requires inp.get == Found && inp.search.Some? && PassOf(c, inp).found != []
    ensures HandlesMemory(Reconcile(c, stored, inp), stored, Remembered(stored, inp.today), inp.stamp)
  {
    StepOfPass(c, stored, inp);
    NotPersisted(c, stored, inp);
    hide Reconcile, PassOf, Remembered;
    PassDelivers(PassOf(c, inp), Remembered(stored, inp.today));
    PassDeliversOnce(PassOf(c, inp), Remembered(stored, inp.today));
  }

  /** What a step does to the memory, whatever the outside does. */
  lemma StepMemory(c: Calculator, stored: RivenStatus, inp: RivenInput)
    ensures HandlesMemory(Reconcile(c, stored, inp), stored, Remembered(stored, inp.today), inp.stamp)
  {
    if inp.get == Found && inp.search.Some? && PassOf(c, inp).found != [] {
      StepMemoryOfPass(c, stored, inp);
    }
  }

  // ---------- The memory over whole runs ----------

  function MemoryOf(s: RivenStatus): Memory {
    Memory(s.notifiedAuctionIDs, s.lastNotifiedAt)
  }

  function EventOf(s: Step, inp: RivenInput): Event {
    Event(s.persisted, s.ending, Ids(s.delivered), inp.today, inp.stamp)
  }

  /** The history of a run from an empty status. */
  function HistoryOf(c: Calculator, run: seq<RivenInput>): History {
    History(
      seq(|run|, k requires 0 <= k < |run| => EventOf(StepAt(c, EMPTY_STATUS, run, k), run[k])),
      seq(|run| + 1, k requires 0 <= k <= |run| => MemoryOf(StatusAt(c, EMPTY_STATUS, run, k))))
  }

  lemma StepFollows(c: Calculator, stored: RivenStatus, inp: RivenInput)
    ensures var s := Reconcile(c, stored, inp); Follows(MemoryOf(stored), EventOf(s, inp), MemoryOf(s.status))
  {
    hide Reconcile;
    StepMemory(c, stored, inp);
    assert Ids(Reconcile(c, stored, inp).delivered) == [] <==> Reconcile(c, stored, inp).delivered == [];
  }

  lemma RunIsHistory(c: Calculator, run: seq<RivenInput>)
    ensures IsHistory(HistoryOf(c, run))
  {
    hide Reconcile, Follows;
    var h := HistoryOf(c, run);
    forall k | 0 <= k < |h.events| ensures Follows(h.states[k], h.events[k], h.states[k + 1]) {
      StepFollows(c, StatusAt(c, EMPTY_STATUS, run, k), run[k]);
    }
  }

  /** The stored ids are exactly the delivered ids that have not been forgotten: in every reachable state, for every
      id. */
  lemma MemoryIsUnforgottenDeliveries(c: Calculator, run: seq<RivenInput>, k: nat, x: string)
    requires k <= |run|
    ensures IsHistory(HistoryOf(c, run))
    ensures x in StatusAt(c, EMPTY_STATUS, run, k).notifiedAuctionIDs <==>
      exists i: nat :: KeptSince(HistoryOf(c, run), k, i, x)
  {
    RunIsHistory(c, run);
    IdsAreKeptDeliveries(HistoryOf(c, run), k, x);
  }

  /** At most once: if an auction is delivered by two steps of a run, then the first delivery was lost with its status
      (failed apply, or an ending that clears), or a step in between dropped the memory, or the second step itself
      began with a day reset.  Within one step an id is delivered once. */
  lemma AtMostOnceUnlessForgotten(c: Calculator, run: seq<RivenInput>, i: nat, j: nat, x: string)
    requires i < j < |run|
    requires x in Ids(StepAt(c, EMPTY_STATUS, run, i).delivered) && x in Ids(StepAt(c, EMPTY_STATUS, run, j).delivered)
    ensures IsHistory(HistoryOf(c, run))
    ensures var h := HistoryOf(c, run);
      || !h.events[i].persisted
      || Clears(h.events[i].ending)
      || (exists m: nat :: i < m < j && Drops(h, m))
      || DayReset(h.states[j], h.events[j])
    ensures NoDuplicates(Ids(StepAt(c, EMPTY_STATUS, run, j).delivered))
  {
    RunIsHistory(c, run);
    var h := HistoryOf(c, run);
    RepeatNeedsForgetting(h, i, j, x);
    assert Follows(h.states[j], h.events[j], h.states[j + 1]);
  }

  /** No reachable status lists an id twice, even when a search returns an auction twice. */
  lemma MemoryHasNoDuplicates(c: Calculator, run: seq<RivenInput>, k: nat)
    requires k <= |run|
    ensures NoDuplicates(StatusAt(c, EMPTY_STATUS, run, k).notifiedAuctionIDs)
  {
    RunIsHistory(c, run);
    IdsAreDistinct(HistoryOf(c, run), k);
  }

  /** LastNotifiedAt survives no applied step that does not itself complete with a delivery; so the daily reset happens
      exactly when the last applied step completed with a delivery stamped on another day. */
  lemma DayResetIff(c: Calculator, run: seq<RivenInput>, j: nat)
    requires j < |run|
    ensures IsHistory(HistoryOf(c, run))
    ensures forall d: Date ::
      StatusAt(c, EMPTY_STATUS, run, j).lastNotifiedAt == Some(d)
      <==> exists i: nat :: LastAppliedNotified(HistoryOf(c, run), j, i) && run[i].stamp == d
    ensures var stored := StatusAt(c, EMPTY_STATUS, run, j);
      (stored.lastNotifiedAt.Some? && stored.lastNotifiedAt.value != run[j].today)
      <==> exists i: nat :: LastAppliedNotified(HistoryOf(c, run), j, i) && run[i].stamp != run[j].today
  {
    RunIsHistory(c, run);
    var h := HistoryOf(c, run);
    forall d: Date
      ensures h.states[j].lastNotifiedAt == Some(d) <==>
        exists i: nat :: LastAppliedNotified(h, j, i) && h.events[i].stamp == d
    {
      LastNotifiedAtMeaning(h, j, d);
    }
    ResetNeedsOtherDay(h, j);
    assert forall i: nat :: LastAppliedNotified(h, j, i) ==> h.events[i].stamp == run[i].stamp;
  }

  // ---------- Notification safety, from the market response to the message ----------

  /** Every delivery of every step of every run is an auction of that step's response whose price, owner status, direct
      sale and quality met that step's spec (a validated threshold is at least 1); its own clock reading was inside the
      window, its own message was accepted, and the weapon was known. */
  lemma DeliveriesAreSafe(c: Calculator, start: RivenStatus, run: seq<RivenInput>, k: nat, a: Auction)
    requires k < |run| && a in StepAt(c, start, run, k).delivered
    ensures run[k].get == Found && run[k].search.Some? && a in run[k].search.value
    ensures run[k].spec.threshold >= 1 ==> a.buyoutPrice <= run[k].spec.threshold
    ensures run[k].spec.playerStatus != [] ==> a.owner.status in run[k].spec.playerStatus
    ensures run[k].spec.playerStatus == [] ==> a.owner.status in ["ingame", "online"]
    ensures run[k].spec.buyoutOnly ==> a.isDirectSell
    ensures run[k].spec.minRollQuality <= c.Quality(a.attributes, a.modRank, run[k].weapon)
    ensures run[k].weapon.Some?
    ensures var inp, raw := run[k], run[k].search.value;
      exists i: nat ::
        && i < |raw| && raw[i] == a && inp.sendOk(AskedBefore(inp.spec, raw, i))
        && forall w :: inp.spec.window == Some(w) ==> w.from <= inp.minuteAt(AskedBefore(inp.spec, raw, i)) <= w.to
  {
    hide Reconcile, Remembered, AskedBefore;
    var i := DeliveredPosition(c, StatusAt(c, start, run, k), run[k], a);
    assert IsWanted(c, run[k], i) && IsInside(run[k], i);
  }
}
