/** What one step of the riven watch reports, delivers and stores, for every input and every stored status. */
module RivenSteps {
  import opened Common
  import opened Market
  import opened Watch
  import opened RivenWatch
  import opened RivenLoop
  import opened RivenMarket
  import RivenCalculator

  // ---------- The loop inside the step ----------

  lemma StepOfPass(c: Calculator, stored: RivenStatus, inp: RivenInput)
    requires inp.get == Found && inp.search.Some? && PassOf(c, inp).found != []
    ensures var s := Reconcile(c, stored, inp); var f := PassOf(c, inp).Final(Remembered(stored, inp.today));
      && s.delivered == f.sent
      && (s.ending == Panicked <==> f.end == NilWeapon)
      && (s.ending == SendFailed <==> f.end == SendRejected)
      && (s.ending == NothingQualifies <==> f.end == Running && f.cheapest == 0)
      && (s.ending == Completed <==> f.end == Running && f.cheapest != 0)
      && (s.persisted <==> inp.applied && s.ending != Panicked)
      && (s.persisted && s.ending == SendFailed ==>
            s.status.notifiedAuctionIDs == f.ids && s.status.lastNotifiedAt == None)
      && (s.persisted && s.ending == Completed ==>
            var stamp := if f.sent == [] then None else Some(inp.stamp);
            s.status == RivenStatus(f.cheapest, f.best, f.ids, stamp, Some(Condition(true, AuctionFound))))
  {}

  lemma PendingInRange(c: Calculator, base: seq<string>, inp: RivenInput, k: nat)
    requires inp.search.Some? && IsPending(c, base, inp, k)
    ensures k < |inp.search.value| && IsAsked(inp.spec, inp.search.value[k])
  {}

  lemma StopIsBlocked(c: Calculator, base: seq<string>, inp: RivenInput, i: nat) returns (k: nat)
    requires inp.search.Some? && i < |PassOf(c, inp).found| && StopsAt(PassOf(c, inp), base, i)
    ensures IsBlocked(c, base, inp, k) && AskedBefore(inp.spec, inp.search.value, k) == i
  {
    hide PassOf, IsAsked, AskedBefore, IsDue, IsPending, CanBeSent, Deliverable;
    var raw := inp.search.value;
    k := OriginOf(c, inp, i);
    SeenAt(c, base, inp, k);
    DueIsPending(c, base, inp, k);
    forall j: nat | j < k && IsPending(c, base, inp, j) ensures CanBeSent(inp, j) {
      PendingInRange(c, base, inp, j);
      SeenAt(c, base, inp, j);
      DueIsPending(c, base, inp, j);
      AskedMonotone(inp.spec, raw, j, k);
    }
  }

  lemma AllDueCanBeSent(c: Calculator, base: seq<string>, inp: RivenInput)
    requires inp.search.Some?
    requires forall j: nat :: j < |PassOf(c, inp).found| && IsDue(PassOf(c, inp), base, j) ==>
      Deliverable(PassOf(c, inp), j)
    ensures forall k: nat :: IsPending(c, base, inp, k) ==> CanBeSent(inp, k)
  {
    hide PassOf, IsAsked, AskedBefore, IsDue, CanBeSent, Deliverable;
    forall k: nat | IsPending(c, base, inp, k) ensures CanBeSent(inp, k) {
      PendingInRange(c, base, inp, k);
      SeenAt(c, base, inp, k);
      DueIsPending(c, base, inp, k);
    }
  }

  lemma PassHasWeapon(c: Calculator, inp: RivenInput)
    requires inp.search.Some?
    ensures PassOf(c, inp).hasWeapon == inp.weapon.Some?
  {}

  /** The final state of the loop: everything pending, or what precedes the first that cannot be sent. */
  lemma FinalByPosition(c: Calculator, base: seq<string>, inp: RivenInput)
    requires inp.search.Some?
    ensures var f := PassOf(c, inp).Final(base);
      && f.ids == base + Ids(f.sent)
      && (f.end == Running <==> forall k: nat :: IsPending(c, base, inp, k) ==> CanBeSent(inp, k))
      && (f.end == Running ==> f.sent == Pending(c, base, inp, |inp.search.value|))
      && (f.end != Running ==>
            exists k: nat :: IsBlocked(c, base, inp, k) && f.sent == Pending(c, base, inp, k))
      && (f.end != Running ==> f.end == if inp.weapon.Some? then SendRejected else NilWeapon)
  {
    hide PassOf, IsPending, IsDue, AskedBefore, CanBeSent, Pending, Due;
    var p, raw := PassOf(c, inp), inp.search.value;
    PassDelivers(p, base);
    PassHasWeapon(c, inp);
    if p.Final(base).end == Running {
      AllDueCanBeSent(c, base, inp);
      DueArePending(c, base, inp, |raw|);
      FoundByPosition(c, inp);
    } else {
      var i: nat :| i < |p.found| && StopsAt(p, base, i) && p.Final(base).sent == Due(p, base, i);
      var k := StopIsBlocked(c, base, inp, i);
      PendingInRange(c, base, inp, k);
      DueArePending(c, base, inp, k);
    }
  }

  // ---------- What is delivered and what is reported ----------

  /** The deliveries of a step: nothing unless the object was found and searched; then the pending auctions in order,
      all of them or those before the first that cannot be sent. */
  lemma DeliveredMeaning(c: Calculator, stored: RivenStatus, inp: RivenInput)
    ensures inp.get != Found || inp.search.None? ==> Reconcile(c, stored, inp).delivered == []
    ensures inp.get == Found && inp.search.Some? ==>
      var delivered, base := Reconcile(c, stored, inp).delivered, Remembered(stored, inp.today);
      && ((forall k: nat :: IsPending(c, base, inp, k) ==> CanBeSent(inp, k)) ==>
            delivered == Pending(c, base, inp, |inp.search.value|))
      && (forall k: nat :: IsBlocked(c, base, inp, k) ==> delivered == Pending(c, base, inp, k))
  {
    hide PassOf, IsPending, CanBeSent, Pending, Remembered;
    if inp.get == Found && inp.search.Some? {
      var base := Remembered(stored, inp.today);
      FinalByPosition(c, base, inp);
      if PassOf(c, inp).found != [] { StepOfPass(c, stored, inp); }
      forall k: nat, m: nat | IsBlocked(c, base, inp, k) && IsBlocked(c, base, inp, m) ensures k == m {}
    }
  }

  lemma {:induction false} PendingPosition(c: Calculator, base: seq<string>, inp: RivenInput, n: nat, a: Auction)
    returns (i: nat)
    requires inp.search.Some? && n <= |inp.search.value| && a in Pending(c, base, inp, n)
    ensures i < n && IsPending(c, base, inp, i) && inp.search.value[i] == a
  {
    hide IsPending;
    if a in Pending(c, base, inp, n - 1) {
      i := PendingPosition(c, base, inp, n - 1, a);
    } else {
      i := n - 1;
    }
  }

  /** The position of a delivered auction in the response. */
  lemma DeliveredPosition(c: Calculator, stored: RivenStatus, inp: RivenInput, a: Auction) returns (i: nat)
    requires a in Reconcile(c, stored, inp).delivered
    ensures inp.get == Found && inp.search.Some?
    ensures IsPending(c, Remembered(stored, inp.today), inp, i) && CanBeSent(inp, i) && inp.search.value[i] == a
  {
    hide Reconcile, PassOf, IsOpen, CanBeSent, Pending, Remembered, AskedBefore;
    DeliveredMeaning(c, stored, inp);
    var base := Remembered(stored, inp.today);
    FinalByPosition(c, base, inp);
    if PassOf(c, inp).Final(base).end == Running {
      i := PendingPosition(c, base, inp, |inp.search.value|, a);
    } else {
      var k: nat :| IsBlocked(c, base, inp, k);
      PendingInRange(c, base, inp, k);
      i := PendingPosition(c, base, inp, k, a);
    }
  }

  /** What the step reports.  Gone: the object is gone.  Crashed: there is something to announce and no weapon to name
      in the message.  Requeued, the only success: found, searched, applied, and everything to announce was sent.
      Failed in all other cases. */
  lemma ResultMeaning(c: Calculator, stored: RivenStatus, inp: RivenInput)
    ensures var result, base := Reconcile(c, stored, inp).result, Remembered(stored, inp.today);
      && (result == Gone <==> inp.get == NotFound)
      && (result == Crashed <==>
            && inp.get == Found && inp.search.Some? && inp.weapon.None?
            && exists k: nat :: IsPending(c, base, inp, k))
      && (result == Requeued <==>
            && inp.get == Found && inp.search.Some? && inp.applied
            && forall k: nat :: IsPending(c, base, inp, k) ==> CanBeSent(inp, k))
  {
    hide PassOf, IsPending, Pending, Remembered;
    if inp.get == Found && inp.search.Some? {
      var base := Remembered(stored, inp.today);
      FinalByPosition(c, base, inp);
    }
  }

  /** The status is replaced exactly by a step that is applied and did not crash. */
  lemma NothingStored(c: Calculator, stored: RivenStatus, inp: RivenInput)
    ensures var s := Reconcile(c, stored, inp);
      && (s.persisted <==> inp.get == Found && inp.applied && s.result != Crashed)
      && (!s.persisted ==> s.status == stored)
  {}

  lemma WithoutWeapon(c: Calculator, inp: RivenInput)
    requires inp.search.Some? && inp.weapon.None?
    ensures forall k: nat :: IsWanted(c, inp, k) <==>
      k < |inp.search.value| && IsAsked(inp.spec, inp.search.value[k]) && inp.spec.minRollQuality <= 0
  {
    hide IsAsked;
    forall k: nat | k < |inp.search.value|
      ensures c.Quality(inp.search.value[k].attributes, inp.search.value[k].modRank, inp.weapon) == 0
    {
      RivenCalculator.QualityIsPercentage(c, inp.search.value[k].attributes, inp.search.value[k].modRank, inp.weapon);
    }
  }

  /** The first auction with the id of an open one is pending. */
  lemma FirstOfItsId(c: Calculator, base: seq<string>, inp: RivenInput, k: nat) returns (j: nat)
    requires inp.search.Some? && IsOpen(c, base, inp, k)
    ensures IsPending(c, base, inp, j) && inp.search.value[j].id == inp.search.value[k].id && j <= k
  {
    hide IsInside;
    if i: nat :| i < k && IsOpen(c, base, inp, i) && inp.search.value[i].id == inp.search.value[k].id {
      j := FirstOfItsId(c, base, inp, i);
    } else {
      j := k;
    }
  }

  /** Nothing pending comes before the first pending auction. */
  lemma {:induction false} NonePending(c: Calculator, base: seq<string>, inp: RivenInput, n: nat)
    requires inp.search.Some? && n <= |inp.search.value|
    requires forall k: nat :: k < n ==> !IsPending(c, base, inp, k)
    ensures Pending(c, base, inp, n) == []
  {
    hide IsPending;
    if n == 0 {
    } else {
      NonePending(c, base, inp, n - 1);
    }
  }

  lemma PendingIsOpen(c: Calculator, base: seq<string>, inp: RivenInput, k: nat)
    requires inp.search.Some? && IsPending(c, base, inp, k)
    ensures IsOpen(c, base, inp, k)
  {}

  lemma FirstBlocked(c: Calculator, base: seq<string>, inp: RivenInput, k: nat) returns (m: nat)
    requires inp.search.Some? && inp.weapon.None? && IsPending(c, base, inp, k)
    ensures IsBlocked(c, base, inp, m) && forall j: nat :: j < m ==> !IsPending(c, base, inp, j)
  {
    if j: nat :| j < k && IsPending(c, base, inp, j) {
      m := FirstBlocked(c, base, inp, j);
    } else {
      m := k;
    }
  }

  /** The use case panics exactly when the weapon is unknown, no quality is demanded, and some asked-for auction is both
      inside the window and not remembered; nothing is delivered then, and the status stays as it was.  With a demanded
      quality a missing weapon leaves nothing to announce. */
  lemma PanicsIff(c: Calculator, stored: RivenStatus, inp: RivenInput)
    requires inp.get == Found && inp.search.Some?
    ensures var s, raw, base := Reconcile(c, stored, inp), inp.search.value, Remembered(stored, inp.today);
      && (s.result == Crashed <==>
            inp.weapon.None? && inp.spec.minRollQuality <= 0
            && exists k: nat :: k < |raw| && IsAsked(inp.spec, raw[k]) && IsInside(inp, k) && raw[k].id !in base)
      && (inp.weapon.None? ==> s.delivered == [])
      && (s.result == Crashed ==> s.status == stored)
  {
    hide Reconcile, IsAsked, IsInside, Remembered, Pending, IsPending, IsWanted;
    var raw, base := inp.search.value, Remembered(stored, inp.today);
    ResultMeaning(c, stored, inp);
    DeliveredMeaning(c, stored, inp);
    if Reconcile(c, stored, inp).result == Crashed { NothingStored(c, stored, inp); }
    if inp.weapon.None? {
      WithoutWeapon(c, inp);
      forall k: nat | IsPending(c, base, inp, k) ensures IsOpen(c, base, inp, k) {
        PendingIsOpen(c, base, inp, k);
      }
      forall k: nat |
        && k < |raw| && IsAsked(inp.spec, raw[k]) && IsInside(inp, k) && raw[k].id !in base
        && inp.spec.minRollQuality <= 0
        ensures IsOpen(c, base, inp, k)
      {
        assert IsWanted(c, inp, k);
      }
      if k: nat :| IsOpen(c, base, inp, k) {
        var j := FirstOfItsId(c, base, inp, k);
        var m := FirstBlocked(c, base, inp, j);
        NonePending(c, base, inp, m);
      } else {
        NonePending(c, base, inp, |raw|);
      }
    }
  }

  // ---------- What is stored ----------

  /** A status with nothing but a condition. */
  ghost predicate IsBare(s: RivenStatus, status: bool, reason: Reason) {
    s == RivenStatus(0, 0, [], None, Some(Condition(status, reason)))
  }

  lemma FailedExits(c: Calculator, stored: RivenStatus, inp: RivenInput)
    requires inp.get == Found && inp.applied
    ensures inp.search.None? ==> IsBare(Reconcile(c, stored, inp).status, false, FetchFailed)
    ensures inp.search.Some? && PassOf(c, inp).found == [] ==>
      IsBare(Reconcile(c, stored, inp).status, true, NoAuctions)
  {}

  lemma PassExits(c: Calculator, stored: RivenStatus, inp: RivenInput)
    requires inp.get == Found && inp.applied && inp.search.Some? && PassOf(c, inp).found != []
    ensures var s, f := Reconcile(c, stored, inp).status, PassOf(c, inp).Final(Remembered(stored, inp.today));
      && (f.end == SendRejected ==> s == RivenStatus(0, 0, f.ids, None, Some(Condition(true, AuctionFound))))
      && (f.end == Running && f.cheapest == 0 ==> IsBare(s, true, QualityThresholdNotMet))
  {}

  lemma FoundIffAsked(c: Calculator, inp: RivenInput)
    requires inp.search.Some?
    ensures PassOf(c, inp).found == [] <==>
      forall k :: 0 <= k < |inp.search.value| ==> !IsAsked(inp.spec, inp.search.value[k])
  {
    hide PassOf, IsAsked, AskedBefore;
    FoundByPosition(c, inp);
    if PassOf(c, inp).found != [] { var k := OriginOf(c, inp, 0); }
  }

  lemma NothingPending(c: Calculator, base: seq<string>, inp: RivenInput)
    requires inp.search.Some?
    requires forall k :: 0 <= k < |inp.search.value| ==> !IsAsked(inp.spec, inp.search.value[k])
    ensures forall k: nat :: !IsPending(c, base, inp, k)
  {}

  lemma TrackedIffReported(c: Calculator, inp: RivenInput)
    requires inp.search.Some?
    ensures var p := PassOf(c, inp); var best := Best(p, |p.found|);
      && (forall m: nat :: IsReported(c, inp, m) ==> best == (PriceAt(inp, m), QualityAt(c, inp, m)) && best.0 != 0)
      && (best.0 != 0 ==> exists m: nat :: IsReported(c, inp, m))
  {
    hide PassOf, Best, PriceAt, QualityAt;
    var p := PassOf(c, inp);
    forall m: nat | IsReported(c, inp, m)
      ensures Best(p, |p.found|) == (PriceAt(inp, m), QualityAt(c, inp, m)) && PriceAt(inp, m) != 0
    {
      ReportedIsTracked(c, inp, m);
    }
    if Best(p, |p.found|).0 != 0 { var m := TrackedIsReported(c, inp); }
  }

  lemma EndingOfPass(c: Calculator, stored: RivenStatus, inp: RivenInput)
    requires inp.get == Found && inp.search.Some? && PassOf(c, inp).found != []
    ensures
      var ending, base := Reconcile(c, stored, inp).ending, Remembered(stored, inp.today);
      var sent := forall k: nat :: IsPending(c, base, inp, k) ==> CanBeSent(inp, k);
      && (ending == SendFailed <==> !sent && inp.weapon.Some?)
      && (ending == Panicked <==> !sent && inp.weapon.None?)
      && (ending == Completed <==> sent && exists m: nat :: IsReported(c, inp, m))
      && (ending == NothingQualifies <==> sent && forall m: nat :: !IsReported(c, inp, m))
  {
    hide PassOf, IsPending, CanBeSent, Pending, Remembered, Reconcile, Best, PriceAt, QualityAt;
    var p, base := PassOf(c, inp), Remembered(stored, inp.today);
    StepOfPass(c, stored, inp);
    FinalByPosition(c, base, inp);
    if p.Final(base).end == Running {
      TracksBest(p, base, |p.found|);
      TrackedIffReported(c, inp);
    }
  }

  lemma StatusOfPass(c: Calculator, stored: RivenStatus, inp: RivenInput)
    requires inp.get == Found && inp.applied && inp.search.Some? && PassOf(c, inp).found != []
    ensures var s, raw, base := Reconcile(c, stored, inp).status, inp.search.value, Remembered(stored, inp.today);
      if forall k: nat :: IsPending(c, base, inp, k) ==> CanBeSent(inp, k) then
        var sent := Pending(c, base, inp, |raw|);
        && (forall m: nat :: IsReported(c, inp, m) ==>
              s == RivenStatus(PriceAt(inp, m), QualityAt(c, inp, m), base + Ids(sent),
                if sent == [] then None else Some(inp.stamp), Some(Condition(true, AuctionFound))))
        && ((forall m: nat :: !IsReported(c, inp, m)) ==> IsBare(s, true, QualityThresholdNotMet))
      else
        inp.weapon.Some? ==> forall k: nat :: IsBlocked(c, base, inp, k) ==>
          s == RivenStatus(0, 0, base + Ids(Pending(c, base, inp, k)), None, Some(Condition(true, AuctionFound)))
  {
    hide PassOf, IsPending, CanBeSent, Pending, Remembered, Reconcile, Best, PriceAt, QualityAt, IsBare;
    var p, base := PassOf(c, inp), Remembered(stored, inp.today);
    StepOfPass(c, stored, inp);
    PassExits(c, stored, inp);
    FinalByPosition(c, base, inp);
    DeliveredMeaning(c, stored, inp);
    if p.Final(base).end == Running {
      TracksBest(p, base, |p.found|);
      TrackedIffReported(c, inp);
    }
  }

  lemma FailedEndings(c: Calculator, stored: RivenStatus, inp: RivenInput)
    requires inp.get == Found
    ensures Reconcile(c, stored, inp).ending == SearchFailed <==> inp.search.None?
    ensures Reconcile(c, stored, inp).ending == NoneFound <==> inp.search.Some? && PassOf(c, inp).found == []
    ensures Reconcile(c, stored, inp).ending != NotRun
  {}

  /** What the endings stand for. */
  lemma EndingMeaning(c: Calculator, stored: RivenStatus, inp: RivenInput)
    ensures Reconcile(c, stored, inp).ending == NotRun <==> inp.get != Found
    ensures inp.get == Found ==> (Reconcile(c, stored, inp).ending == SearchFailed <==> inp.search.None?)
    ensures inp.get == Found && inp.search.Some? ==>
      var ending, raw, base := Reconcile(c, stored, inp).ending, inp.search.value, Remembered(stored, inp.today);
      var found, sent :=
        exists k :: 0 <= k < |raw| && IsAsked(inp.spec, raw[k]),
        forall k: nat :: IsPending(c, base, inp, k) ==> CanBeSent(inp, k);
      && (ending == NoneFound <==> !found)
      && (ending == SendFailed <==> !sent && inp.weapon.Some?)
      && (ending == Panicked <==> !sent && inp.weapon.None?)
      && (ending == Completed <==> found && sent && exists m: nat :: IsReported(c, inp, m))
      && (ending == NothingQualifies <==> found && sent && forall m: nat :: !IsReported(c, inp, m))
  {
    if inp.get == Found {
      FailedEndings(c, stored, inp);
      if inp.search.Some? {
        FoundIffAsked(c, inp);
        if PassOf(c, inp).found == [] { NothingPending(c, Remembered(stored, inp.today), inp); }
        else { EndingOfPass(c, stored, inp); }
      }
    }
  }

  /** What an applied step stores.  A failed search, an empty one, and a market that leaves nothing to report each leave
      only their condition; a rejected send keeps the ids it got to; a completed step stores price and quality of the
      reported auction, all remembered and announced ids, and the time if it announced anything. */
  lemma StatusMeaning(c: Calculator, stored: RivenStatus, inp: RivenInput)
    requires inp.get == Found && inp.applied
    ensures inp.search.None? ==> IsBare(Reconcile(c, stored, inp).status, false, FetchFailed)
    ensures inp.search.Some? ==>
      var s, raw, base := Reconcile(c, stored, inp).status, inp.search.value, Remembered(stored, inp.today);
      if forall k :: 0 <= k < |raw| ==> !IsAsked(inp.spec, raw[k]) then IsBare(s, true, NoAuctions)
      else if forall k: nat :: IsPending(c, base, inp, k) ==> CanBeSent(inp, k) then
        var sent := Pending(c, base, inp, |raw|);
        && (forall m: nat :: IsReported(c, inp, m) ==>
              s == RivenStatus(raw[m].buyoutPrice, c.Quality(raw[m].attributes, raw[m].modRank, inp.weapon),
                base + Ids(sent), if sent == [] then None else Some(inp.stamp), Some(Condition(true, AuctionFound))))
        && ((forall m: nat :: !IsReported(c, inp, m)) ==> IsBare(s, true, QualityThresholdNotMet))
      else
        inp.weapon.Some? ==> forall k: nat :: IsBlocked(c, base, inp, k) ==>
          s == RivenStatus(0, 0, base + Ids(Pending(c, base, inp, k)), None, Some(Condition(true, AuctionFound)))
  {
    FailedExits(c, stored, inp);
    if inp.search.Some? {
      FoundIffAsked(c, inp);
      if PassOf(c, inp).found != [] { StatusOfPass(c, stored, inp); }
    }
  }

  // ---------- Completeness and the reported price ----------

  lemma WantedAreKept(c: Calculator, base: seq<string>, inp: RivenInput, k: nat)
    requires inp.search.Some? && IsWanted(c, inp, k) && IsInside(inp, k)
    ensures inp.search.value[k].id in base + Ids(Pending(c, base, inp, |inp.search.value|))
  {
    hide IsInside, IsAsked, AskedBefore, PassOf;
    var p, raw := PassOf(c, inp), inp.search.value;
    DueArePending(c, base, inp, |raw|);
    FoundByPosition(c, inp);
    DueCovers(p, base, |p.found|);
    SeenAt(c, base, inp, k);
  }

  /** A successful step inside the window throughout: the applied status holds the id of every auction of the response
      that meets the spec, announced or already known, exactly when the market does not end on a free auction. */
  lemma CompletenessIff(c: Calculator, stored: RivenStatus, inp: RivenInput)
    requires inp.search.Some? && Reconcile(c, stored, inp).result == Requeued
    requires forall w :: inp.spec.window == Some(w) ==> forall i: nat :: w.from <= inp.minuteAt(i) <= w.to
    requires exists k: nat :: IsWanted(c, inp, k)
    ensures (forall k: nat :: IsWanted(c, inp, k) ==>
              inp.search.value[k].id in Reconcile(c, stored, inp).status.notifiedAuctionIDs)
      <==> !EndsOnFree(c, inp)
  {
    hide Reconcile, IsAsked, Pending, Remembered, AskedBefore, EndsOnFree, IsPending, CanBeSent, IsReported;
    var raw, base := inp.search.value, Remembered(stored, inp.today);
    ResultMeaning(c, stored, inp);
    StatusMeaning(c, stored, inp);
    ReportedUnlessFree(c, inp);
    forall k: nat | IsWanted(c, inp, k) ensures raw[k].id in base + Ids(Pending(c, base, inp, |raw|)) {
      WantedAreKept(c, base, inp, k);
    }
    var k: nat :| IsWanted(c, inp, k);
    assert IsAsked(inp.spec, raw[k]);
  }

  /** The reported pair is price and quality of the first cheapest auction of the response that meets the spec exactly
      when that price is not zero; neither the memory, nor the window, nor what was announced has any influence. */
  lemma ReportsFirstCheapestIff(c: Calculator, stored: RivenStatus, inp: RivenInput, m: nat)
    requires inp.search.Some? && Reconcile(c, stored, inp).result == Requeued
    requires IsCheapestFrom(c, inp, 0, m)
    ensures var s, a := Reconcile(c, stored, inp).status, inp.search.value[m];
      (s.condition == Some(Condition(true, AuctionFound)) && s.cheapestPrice == a.buyoutPrice
        && s.bestRollQuality == c.Quality(a.attributes, a.modRank, inp.weapon)) <==> a.buyoutPrice != 0
  {
    hide Reconcile, IsAsked, Pending, Remembered, AskedBefore, IsPending, CanBeSent;
    ResultMeaning(c, stored, inp);
    StatusMeaning(c, stored, inp);
    assert IsAsked(inp.spec, inp.search.value[m]);
    if PriceAt(inp, m) != 0 {
      assert IsReported(c, inp, m);
    } else {
      forall k: nat | IsReported(c, inp, k) ensures PriceAt(inp, k) != 0 {}
    }
  }
}
