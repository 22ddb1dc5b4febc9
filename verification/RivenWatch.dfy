/** One reconcile of a riven price watch: search, score, decide, notify, persist the status. */
module RivenWatch {
  import opened Common
  import opened Market
  import opened Watch
  import MarketAdapter
  import RivenCalculator

  // ---------- Spec and status ----------

  datatype RivenSpec = RivenSpec(
    playerStatus: seq<string>,
    minRollQuality: int,
    buyoutOnly: bool,
    threshold: int,
    window: Option<NotificationWindow>)

  /** The status as the use case builds it: a field is set or it is not. */
  datatype StatusApplyConfiguration = StatusApplyConfiguration(
    cheapestPrice: Option<int>,
    bestRollQuality: Option<int>,
    notifiedAuctionIDs: seq<string>,
    lastNotifiedAt: Option<Date>,
    condition: Condition)

  /** The status as it is read back: unset numbers read as zero. */
  datatype RivenStatus = RivenStatus(
    cheapestPrice: int,
    bestRollQuality: int,
    notifiedAuctionIDs: seq<string>,
    lastNotifiedAt: Option<Date>,
    condition: Option<Condition>)

  const EMPTY_STATUS := RivenStatus(0, 0, [], None, None)

  /** Server-side apply by the only owner of the status: what the configuration leaves unset is removed. */
  function Persist(a: StatusApplyConfiguration): RivenStatus {
    RivenStatus(a.cheapestPrice.GetOr(0), a.bestRollQuality.GetOr(0), a.notifiedAuctionIDs, a.lastNotifiedAt,
      Some(a.condition))
  }

  /** Everything one reconcile learns from outside.  The clock is read once for the day, once per auction for the
      window, and once for the timestamp; a send is attempted at most once per auction. */
  datatype RivenInput = RivenInput(
    get: GetOutcome,
    spec: RivenSpec,
    search: Option<seq<Auction>>,
    weapon: Option<WeaponInfo>,
    today: Date,
    minuteAt: nat -> int,
    sendOk: nat -> bool,
    stamp: Date,
    applied: bool)

  function ToUserStatuses(statuses: seq<string>): seq<UserStatus> {
    if statuses == [] then [USER_STATUS_INGAME, USER_STATUS_ONLINE] else statuses
  }

  method UserStatuses(statuses: seq<string>) returns (result: seq<UserStatus>)
    ensures result == ToUserStatuses(statuses)
    ensures result == if |statuses| > 0 then statuses else ["ingame", "online"]
  {
    if |statuses| == 0 { return [USER_STATUS_INGAME, USER_STATUS_ONLINE]; }
    result := [];
    for i := 0 to |statuses|
      invariant result == statuses[..i]
    {
      result := result + [statuses[i]];
    }
  }

  function FilterOf(spec: RivenSpec): AuctionFilter {
    AuctionFilter(ToUserStatuses(spec.playerStatus), spec.buyoutOnly, spec.threshold)
  }

  /** The memory a step starts from: the stored ids, dropped when the last notification was on another day. */
  function Remembered(stored: RivenStatus, today: Date): seq<string> {
    if stored.lastNotifiedAt.Some? && stored.lastNotifiedAt.value != today then [] else stored.notifiedAuctionIDs
  }

  // ---------- The loop over the auctions ----------

  datatype Candidate = Candidate(auction: Auction, quality: int)

  datatype End = Running | SendRejected | NilWeapon

  /** The variables of the loop, and the auctions whose notification was accepted so far. */
  datatype Progress = Progress(cheapest: int, best: int, ids: seq<string>, sent: seq<Auction>, end: End)

  /** What the loop reads and never changes. */
  datatype Pass = Pass(
    found: seq<Candidate>,
    minQuality: int,
    window: Option<NotificationWindow>,
    hasWeapon: bool,
    minuteAt: nat -> int,
    sendOk: nat -> bool)
  {
    function Id(i: nat): string
      requires i < |found|
    {
      found[i].auction.id
    }

    function Price(i: nat): int
      requires i < |found|
    {
      found[i].auction.buyoutPrice
    }

    predicate Qualifies(i: nat)
      requires i < |found|
    {
      found[i].quality >= minQuality
    }

    predicate Open(i: nat) {
      MaySend(window, minuteAt(i))
    }

    function Track(s: Progress, i: nat): Progress
      requires i < |found|
    {
      if s.cheapest == 0 || Price(i) < s.cheapest then s.(cheapest := Price(i), best := found[i].quality) else s
    }

    function Notify(s: Progress, i: nat): Progress
      requires i < |found|
    {
      if Id(i) in s.ids || !Open(i) then s
      else if !hasWeapon then s.(end := NilWeapon)
      else if !sendOk(i) then s.(end := SendRejected)
      else s.(ids := s.ids + [Id(i)], sent := s.sent + [found[i].auction])
    }

    function Visit(s: Progress, i: nat): Progress
      requires i < |found|
    {
      if Qualifies(i) then Notify(Track(s, i), i) else s
    }

    /** The loop variables after the first n auctions, starting from the given memory. */
    function After(base: seq<string>, n: nat): Progress
      requires n <= |found|
    {
      if n == 0 then Progress(0, 0, base, [], Running)
      else
        var s := After(base, n - 1);
        if s.end != Running then s else Visit(s, n - 1)
    }

    function Final(base: seq<string>): Progress {
      After(base, |found|)
    }
  }

  lemma {:induction false} StoppedStays(p: Pass, base: seq<string>, n: nat, m: nat)
    requires n <= m <= |p.found| && p.After(base, n).end != Running
    ensures p.After(base, m) == p.After(base, n)
  {
    if n < m { StoppedStays(p, base, n, m - 1); }
  }

  // ---------- One execution of the use case ----------

  datatype Ending = NotRun | SearchFailed | NoneFound | SendFailed | NothingQualifies | Completed | Panicked

  /** status is what the use case hands to the controller; there is none when it panics. */
  datatype Execution = Execution(ending: Ending, status: Option<StatusApplyConfiguration>, delivered: seq<Auction>)

  function Bare(condition: Condition): StatusApplyConfiguration {
    StatusApplyConfiguration(None, None, [], None, condition)
  }

  function Candidates(score: Auction -> int, auctions: seq<Auction>): (r: seq<Candidate>)
    ensures |r| == |auctions|
    ensures forall i :: 0 <= i < |r| ==> r[i] == Candidate(auctions[i], score(auctions[i]))
  {
    seq(|auctions|, i requires 0 <= i < |auctions| => Candidate(auctions[i], score(auctions[i])))
  }

  /** The quality of an auction, as the calculator and the averaging make it. */
  function QualityWith(c: RivenCalculator.Calculator, weapon: Option<WeaponInfo>): Auction -> int {
    (a: Auction) => c.Quality(a.attributes, a.modRank, weapon)
  }

  /** score is that function.  The trigger keeps the formula out of proofs about the loop. */
  ghost predicate IsQuality(score: Auction -> int, c: RivenCalculator.Calculator, weapon: Option<WeaponInfo>) {
    forall a: Auction {:trigger c.Quality(a.attributes, a.modRank, weapon)} ::
      score(a) == c.Quality(a.attributes, a.modRank, weapon)
  }

  /** The pass over the given auctions. */
  function PassOver(score: Auction -> int, inp: RivenInput, auctions: seq<Auction>): Pass {
    Pass(Candidates(score, auctions), inp.spec.minRollQuality, inp.spec.window, inp.weapon.Some?, inp.minuteAt,
      inp.sendOk)
  }

  function PassOf(c: RivenCalculator.Calculator, inp: RivenInput): Pass
    requires inp.search.Some?
  {
    PassOver(QualityWith(c, inp.weapon), inp, MarketAdapter.MatchingAuctions(FilterOf(inp.spec), inp.search.value))
  }

  /** What follows the loop. */
  function Conclude(f: Progress, stamp: Date): Execution
  {
    match f.end
    case NilWeapon => Execution(Panicked, None, f.sent)
    case SendRejected =>
      Execution(SendFailed, Some(Bare(Condition(true, AuctionFound)).(notifiedAuctionIDs := f.ids)), f.sent)
    case Running =>
      if f.cheapest == 0 then Execution(NothingQualifies, Some(Bare(Condition(true, QualityThresholdNotMet))), f.sent)
      else
        var stamped := if f.sent == [] then None else Some(stamp);
        Execution(
          Completed,
          Some(StatusApplyConfiguration(Some(f.cheapest), Some(f.best), f.ids, stamped, Condition(true, AuctionFound))),
          f.sent)
  }

  function Execute(c: RivenCalculator.Calculator, stored: RivenStatus, inp: RivenInput): Execution {
    if inp.search.None? then Execution(SearchFailed, Some(Bare(Condition(false, FetchFailed))), [])
    else
      var p := PassOf(c, inp);
      if p.found == [] then Execution(NoneFound, Some(Bare(Condition(true, NoAuctions))), [])
      else
        Conclude(p.Final(Remembered(stored, inp.today)), inp.stamp)
  }

  method RollQualityOf(c: RivenCalculator.Calculator, weapon: Option<WeaponInfo>, a: Auction,
                       ghost score: Auction -> int)
    returns (quality: int)
    requires IsQuality(score, c, weapon)
    ensures quality == score(a)
  {
    var scores := c.ScoreAuction(a.attributes, a.modRank, weapon);
    quality := RivenCalculator.AverageRollQuality(scores);
    assert quality == c.Quality(a.attributes, a.modRank, weapon);
  }

  /** One more auction: the next state of a loop still running, and the final state once it stops. */
  lemma VisitNext(p: Pass, base: seq<string>, i: nat) returns (next: Progress)
    requires i < |p.found| && p.After(base, i).end == Running
    ensures next == p.Visit(p.After(base, i), i) == p.After(base, i + 1)
    ensures next.end != Running ==> p.Final(base) == next
  {
    next := p.After(base, i + 1);
    if next.end != Running { StoppedStays(p, base, i + 1, |p.found|); }
  }

  /** The body of the loop for auction i, once it is scored.  notifiedSet and the id list are two views of one
      memory; exactly an accepted send is appended to the list and to the deliveries. */
  method VisitAuction(inp: RivenInput, i: nat, a: Auction, quality: int, s: Progress, notifiedSet: set<string>,
                      notifier: Notifier<Auction>, ghost p: Pass)
    returns (t: Progress, newNotifiedSet: set<string>)
    requires i < |p.found| && p.found[i] == Candidate(a, quality)
    requires p == Pass(p.found, inp.spec.minRollQuality, inp.spec.window, inp.weapon.Some?, inp.minuteAt, inp.sendOk)
    requires s.end == Running && notifiedSet == set id | id in s.ids
    modifies notifier
    ensures t == p.Visit(s, i)
    ensures newNotifiedSet == set id | id in t.ids
    ensures s.ids <= t.ids && s.sent <= t.sent
    ensures notifier.delivered == old(notifier.delivered) + t.sent[|s.sent|..]
  {
    t, newNotifiedSet := s, notifiedSet;
    if quality < inp.spec.minRollQuality { return; }
    if t.cheapest == 0 || a.buyoutPrice < t.cheapest {
      t := t.(cheapest := a.buyoutPrice, best := quality);
    }
    if a.id in notifiedSet { return; }
    if inp.spec.window.Some? && !IsWithinWindow(inp.minuteAt(i), inp.spec.window.value) { return; }
    if inp.weapon.None? {
      t := t.(end := NilWeapon);
      return;
    }
    var ok := notifier.Send(a, inp.sendOk(i));
    if !ok {
      t := t.(end := SendRejected);
      return;
    }
    t := t.(ids := t.ids + [a.id], sent := t.sent + [a]);
    newNotifiedSet := newNotifiedSet + {a.id};
  }

  method NotifyLoop(c: RivenCalculator.Calculator, inp: RivenInput, auctions: seq<Auction>, notifiedIDs: seq<string>,
                    notifier: Notifier<Auction>, ghost score: Auction -> int)
    returns (f: Progress)
    requires IsQuality(score, c, inp.weapon)
    modifies notifier
    ensures f == PassOver(score, inp, auctions).Final(notifiedIDs)
    ensures notifier.delivered == old(notifier.delivered) + f.sent
  {
    ghost var p := PassOver(score, inp, auctions);
    var notifiedSet := set id | id in notifiedIDs;
    f := Progress(0, 0, notifiedIDs, [], Running);
    for i := 0 to |auctions|
      invariant f == p.After(notifiedIDs, i) && f.end == Running
      invariant notifiedSet == set id | id in f.ids
      invariant notifier.delivered == old(notifier.delivered) + f.sent
    {
      ghost var next := VisitNext(p, notifiedIDs, i);
      var quality := RollQualityOf(c, inp.weapon, auctions[i], score);
      f, notifiedSet := VisitAuction(inp, i, auctions[i], quality, f, notifiedSet, notifier, p);
      if f.end != Running { return; }
    }
  }

  method ExecuteWatch(c: RivenCalculator.Calculator, stored: RivenStatus, inp: RivenInput, notifier: Notifier<Auction>)
    returns (e: Execution)
    modifies notifier
    ensures e == Execute(c, stored, inp)
    ensures notifier.delivered == old(notifier.delivered) + e.delivered
  {
    var statuses := UserStatuses(inp.spec.playerStatus);
    var filter := AuctionFilter(statuses, inp.spec.buyoutOnly, inp.spec.threshold);
    var response: Result<seq<Auction>, ()> := if inp.search.None? then Err(()) else Ok(inp.search.value);
    var searched := MarketAdapter.SearchAuctions(response, filter);
    if searched.Err? {
      return Execution(SearchFailed, Some(Bare(Condition(false, FetchFailed))), []);
    }
    var auctions := searched.value;
    if |auctions| == 0 {
      return Execution(NoneFound, Some(Bare(Condition(true, NoAuctions))), []);
    }
    var notifiedIDs := stored.notifiedAuctionIDs;
    if stored.lastNotifiedAt.Some? && stored.lastNotifiedAt.value != inp.today {
      notifiedIDs := [];
    }
    var f := NotifyLoop(c, inp, auctions, notifiedIDs, notifier, QualityWith(c, inp.weapon));
    e := Conclude(f, inp.stamp);
  }

  // ---------- One reconcile ----------

  /** persisted says whether this step replaced the stored status. */
  datatype Step = Step(
    status: RivenStatus,
    delivered: seq<Auction>,
    ending: Ending,
    persisted: bool,
    result: ReconcileResult)

  function Reconcile(c: RivenCalculator.Calculator, stored: RivenStatus, inp: RivenInput): Step {
    if inp.get != Found then Step(stored, [], NotRun, false, if inp.get == NotFound then Gone else Failed)
    else
      var e := Execute(c, stored, inp);
      if e.status.None? then Step(stored, e.delivered, e.ending, false, Crashed)
      else if !inp.applied then Step(stored, e.delivered, e.ending, false, Failed)
      else Step(Persist(e.status.value), e.delivered, e.ending, true,
        if e.ending in {SearchFailed, SendFailed} then Failed else Requeued)
  }

  /** The stored status after the first k reconciles, and everything they delivered. */
  function StatusAt(c: RivenCalculator.Calculator, start: RivenStatus, run: seq<RivenInput>, k: nat): RivenStatus
    requires k <= |run|
  {
    if k == 0 then start else Reconcile(c, StatusAt(c, start, run, k - 1), run[k - 1]).status
  }

  function StepAt(c: RivenCalculator.Calculator, start: RivenStatus, run: seq<RivenInput>, k: nat): Step
    requires k < |run|
  {
    Reconcile(c, StatusAt(c, start, run, k), run[k])
  }

  function DeliveredBefore(c: RivenCalculator.Calculator, start: RivenStatus, run: seq<RivenInput>,
                           k: nat): seq<Auction>
    requires k <= |run|
  {
    if k == 0 then [] else DeliveredBefore(c, start, run, k - 1) + StepAt(c, start, run, k - 1).delivered
  }

  lemma {:induction false} RunExtended(c: RivenCalculator.Calculator, start: RivenStatus, run: seq<RivenInput>,
                                       inp: RivenInput, k: nat)
    requires k <= |run|
    ensures StatusAt(c, start, run + [inp], k) == StatusAt(c, start, run, k)
    ensures DeliveredBefore(c, start, run + [inp], k) == DeliveredBefore(c, start, run, k)
  {
    if k == 0 {
    } else {
      RunExtended(c, start, run, inp, k - 1);
    }
  }

  /** The reconciler together with the one stored object it works on. */
  class RivenPriceWatchReconciler {
    const calculator: RivenCalculator.Calculator
    const notifier: Notifier<Auction>
    var status: RivenStatus
    ghost var run: seq<RivenInput>

    /** The stored status and the deliveries are those of the run so far, from an empty status. */
    ghost predicate Valid()
      reads this, notifier
    {
      && status == StatusAt(calculator, EMPTY_STATUS, run, |run|)
      && notifier.delivered == DeliveredBefore(calculator, EMPTY_STATUS, run, |run|)
    }

    constructor (c: RivenCalculator.Calculator)
      ensures Valid() && run == [] && calculator == c && fresh(notifier)
    {
      calculator := c;
      notifier := new Notifier<Auction>();
      status := EMPTY_STATUS;
      run := [];
    }

    method ReconcileOnce(inp: RivenInput) returns (result: ReconcileResult)
      requires Valid()
      modifies this, notifier
      ensures Valid() && run == old(run) + [inp]
      ensures result == Reconcile(calculator, old(status), inp).result
      ensures status == Reconcile(calculator, old(status), inp).status
      ensures notifier.delivered == old(notifier.delivered) + Reconcile(calculator, old(status), inp).delivered
    {
      RunExtended(calculator, EMPTY_STATUS, run, inp, |run|);
      run := run + [inp];
      if inp.get != Found {
        assert notifier.delivered + [] == notifier.delivered;
        return if inp.get == NotFound then Gone else Failed;
      }
      var e := ExecuteWatch(calculator, status, inp, notifier);
      if e.status.None? { return Crashed; }
      if !inp.applied { return Failed; }
      status := Persist(e.status.value);
      return if e.ending in {SearchFailed, SendFailed} then Failed else Requeued;
    }
  }
}
