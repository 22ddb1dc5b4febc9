/** What the two price watches share: the daily window, conditions, outcomes of a reconcile, and the notifier. */
module Watch {
  import opened Common

  /** A calendar day.  Only the day of a timestamp is ever compared. */
  type Date = int

  /** A daily window as minutes since midnight, both ends included. */
  datatype NotificationWindow = NotificationWindow(from: int, to: int)

  predicate IsWithinWindow(minute: int, w: NotificationWindow) {
    w.from <= minute && minute <= w.to
  }

  /** A window is open at some minute of the day exactly when it does not cross midnight: a watch whose window does
      never announces anything. */
  lemma OpensSometimeIff(w: NotificationWindow)
    requires 0 <= w.from < 24 * 60 && 0 <= w.to < 24 * 60
    ensures (exists minute :: 0 <= minute < 24 * 60 && IsWithinWindow(minute, w)) <==> w.from <= w.to
  {
    if w.from <= w.to { assert IsWithinWindow(w.from, w); }
  }

  /** Both ends are open, the minutes next to them are closed, and nothing between two open minutes is closed. */
  lemma WindowIsInterval(w: NotificationWindow)
    requires w.from <= w.to
    ensures IsWithinWindow(w.from, w) && IsWithinWindow(w.to, w)
    ensures !IsWithinWindow(w.from - 1, w) && !IsWithinWindow(w.to + 1, w)
    ensures forall a, b, m :: IsWithinWindow(a, w) && IsWithinWindow(b, w) && a <= m <= b ==> IsWithinWindow(m, w)
  {}

  /** The window test as both watches make it: no window means always. */
  predicate MaySend(window: Option<NotificationWindow>, minute: int) {
    window.None? || IsWithinWindow(minute, window.value)
  }

  datatype Reason = FetchFailed | NoAuctions | QualityThresholdNotMet | AuctionFound | NoSellOrders | PriceFetched

  datatype Condition = Condition(status: bool, reason: Reason)

  datatype GetOutcome = Found | NotFound | GetFailed

  /** Gone: nothing to do.  Failed: an error is returned and the request is retried.  Crashed: the use case panicked.
      Requeued: success, looked at again after five minutes. */
  datatype ReconcileResult = Gone | Failed | Crashed | Requeued

  /** The notification service.  Whether it accepts a message is not up to the caller. */
  class Notifier<T> {
    var delivered: seq<T>

    constructor ()
      ensures delivered == []
    {
      delivered := [];
    }

    method Send(message: T, accepted: bool) returns (ok: bool)
      modifies this
      ensures ok == accepted
      ensures delivered == if accepted then old(delivered) + [message] else old(delivered)
    {
      if accepted {
        delivered := delivered + [message];
      }
      return accepted;
    }
  }
}
