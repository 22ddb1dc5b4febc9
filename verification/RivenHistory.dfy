/** What happens to the memory of a riven watch over a whole run, seen only through what each step did to it. */
module RivenHistory {
  import opened Common
  import opened Watch
  import opened RivenWatch
  import opened RivenLoop

  /** The part of the stored status that later steps depend on. */
  datatype Memory = Memory(ids: seq<string>, lastNotifiedAt: Option<Date>)

  /** What one step did: whether its status was applied, how it ended, what it delivered, and its two dates. */
  datatype Event = Event(persisted: bool, ending: Ending, delivered: seq<string>, today: Date, stamp: Date)

  /** states[k] is the memory before event k. */
  datatype History = History(events: seq<Event>, states: seq<Memory>)

  /** Endings after which the applied status holds no ids. */
  predicate Clears(e: Ending) {
    e in {SearchFailed, NoneFound, NothingQualifies}
  }

  /** The step starts by dropping the stored ids because the last notification was on another day. */
  predicate DayReset(m: Memory, e: Event) {
    m.lastNotifiedAt.Some? && m.lastNotifiedAt.value != e.today
  }

  function Start(m: Memory, e: Event): seq<string> {
    if DayReset(m, e) then [] else m.ids
  }

  ghost predicate Follows(before: Memory, e: Event, after: Memory) {
    && (!e.persisted ==> after == before)
    && (e.persisted ==> after.ids == if Clears(e.ending) then [] else Start(before, e) + e.delivered)
    && (e.persisted ==>
          after.lastNotifiedAt == if e.ending == Completed && e.delivered != [] then Some(e.stamp) else None)
    && (forall x :: x in e.delivered ==> x !in Start(before, e))
    && NoDuplicates(e.delivered)
  }

  ghost predicate IsHistory(h: History) {
    && |h.states| == |h.events| + 1
    && h.states[0] == Memory([], None)
    && forall k :: 0 <= k < |h.events| ==> Follows(h.states[k], h.events[k], h.states[k + 1])
  }

  // ---------- The memory ----------

  /** Event m replaces the memory without carrying the old one over. */
  ghost predicate Drops(h: History, m: nat)
    requires IsHistory(h) && m < |h.events|
  {
    h.events[m].persisted && (Clears(h.events[m].ending) || DayReset(h.states[m], h.events[m]))
  }

  /** x was delivered by event i, the status of that step was applied with the id in it, and no event since dropped
      the memory. */
  ghost predicate KeptSince(h: History, k: nat, i: nat, x: string)
    requires IsHistory(h) && k <= |h.events|
  {
    && i < k
    && x in h.events[i].delivered
    && h.events[i].persisted
    && !Clears(h.events[i].ending)
    && forall m: nat :: i < m < k ==> !Drops(h, m)
  }

  lemma {:induction false} IdsAreKeptDeliveries(h: History, k: nat, x: string)
    requires IsHistory(h) && k <= |h.events|
    ensures x in h.states[k].ids <==> exists i: nat :: KeptSince(h, k, i, x)
  {
    if k == 0 {
    } else {
      var m := k - 1;
      var e := h.events[m];
      IdsAreKeptDeliveries(h, m, x);
      assert Follows(h.states[m], e, h.states[m + 1]);
      if x in h.states[k].ids {
        if e.persisted && x in e.delivered {
          assert KeptSince(h, k, m, x);
        } else {
          var i: nat :| KeptSince(h, m, i, x);
          assert KeptSince(h, k, i, x);
        }
      }
      forall i: nat | KeptSince(h, k, i, x) ensures x in h.states[k].ids {
        if i < m {
          assert KeptSince(h, m, i, x) && !Drops(h, m);
          assert e.persisted ==> h.states[k].ids == h.states[m].ids + e.delivered;
        } else {
          assert h.states[k].ids == Start(h.states[m], e) + e.delivered;
        }
      }
    }
  }

  /** If x is delivered twice, the first delivery was lost with its status (failed apply, or an ending that clears),
      or an event in between dropped the memory, or the second step began with a day reset. */
  lemma RepeatNeedsForgetting(h: History, i: nat, j: nat, x: string)
    requires IsHistory(h) && i < j < |h.events|
    requires x in h.events[i].delivered && x in h.events[j].delivered
    ensures
      || !h.events[i].persisted
      || Clears(h.events[i].ending)
      || (exists m: nat :: i < m < j && Drops(h, m))
      || DayReset(h.states[j], h.events[j])
  {
    assert Follows(h.states[j], h.events[j], h.states[j + 1]);
    IdsAreKeptDeliveries(h, j, x);
    if h.events[i].persisted && !Clears(h.events[i].ending) && forall m: nat :: i < m < j ==> !Drops(h, m) {
      assert KeptSince(h, j, i, x);
    }
  }

  lemma {:induction false} IdsAreDistinct(h: History, k: nat)
    requires IsHistory(h) && k <= |h.events|
    ensures NoDuplicates(h.states[k].ids)
  {
    if k == 0 {
    } else {
      IdsAreDistinct(h, k - 1);
      var before, e := h.states[k - 1], h.events[k - 1];
      assert Follows(before, e, h.states[k]);
      DistinctAppend(Start(before, e), e.delivered);
    }
  }

  // ---------- The day of the last notification ----------

  /** Event i is the last before k whose status was applied, and it completed with at least one delivery. */
  ghost predicate LastAppliedNotified(h: History, k: nat, i: nat)
    requires IsHistory(h) && k <= |h.events|
  {
    && i < k
    && h.events[i].persisted
    && (forall m: nat :: i < m < k ==> !h.events[m].persisted)
    && h.events[i].ending == Completed
    && h.events[i].delivered != []
  }

  lemma {:induction false} LastNotifiedAtMeaning(h: History, k: nat, d: Date)
    requires IsHistory(h) && k <= |h.events|
    ensures h.states[k].lastNotifiedAt == Some(d) <==>
      exists i: nat :: LastAppliedNotified(h, k, i) && h.events[i].stamp == d
  {
    if k == 0 {
    } else {
      var m := k - 1;
      LastNotifiedAtMeaning(h, m, d);
      assert Follows(h.states[m], h.events[m], h.states[m + 1]);
      if h.states[k].lastNotifiedAt == Some(d) {
        if h.events[m].persisted {
          assert LastAppliedNotified(h, k, m);
        } else {
          var i: nat :| LastAppliedNotified(h, m, i) && h.events[i].stamp == d;
          assert LastAppliedNotified(h, k, i);
        }
      }
      forall i: nat | LastAppliedNotified(h, k, i) && h.events[i].stamp == d
        ensures h.states[k].lastNotifiedAt == Some(d)
      {
        if i < m { assert LastAppliedNotified(h, m, i); }
      }
    }
  }

  lemma ResetNeedsOtherDay(h: History, j: nat)
    requires IsHistory(h) && j < |h.events|
    ensures DayReset(h.states[j], h.events[j])
      <==> exists i: nat :: LastAppliedNotified(h, j, i) && h.events[i].stamp != h.events[j].today
  {
    var t := h.states[j].lastNotifiedAt;
    if t.Some? {
      LastNotifiedAtMeaning(h, j, t.value);
    }
    forall i: nat | LastAppliedNotified(h, j, i) ensures t == Some(h.events[i].stamp) {
      LastNotifiedAtMeaning(h, j, h.events[i].stamp);
    }
  }
}
