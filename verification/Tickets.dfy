/** The per-result reporter under the alert engine: no ticket is filed twice because a sibling failed
    (internal/report/linear.go with internal/runner/runner.go). */
module Tickets {
  import opened Text
  import opened Check
  import opened State
  import opened Routing
  import opened Linear
  import opened Engine
  import opened EngineFacts
  import opened Histories

  // Reporter k delivers like the linear reporter; create[i] says which issues call i can create.
  ghost predicate FilesPerResult(h: History, k: nat, create: seq<Result -> bool>) {
    && h.Valid() && k < |h.reporters| && |create| == |h.calls|
    && !h.reporters[k].route.repeatAlerts
    && forall i, slice :: 0 <= i < |h.calls| ==>
         h.calls[i].deliver(h.reporters[k].name, slice) == LinearOutcome(slice, create[i])
  }

  // An issue for the check is created by call i.
  predicate FiledAt(h: History, k: nat, create: seq<Result -> bool>, i: nat, c: string)
    requires k < |h.reporters| && i < |h.calls| == |create|
  {
    h.HandedAt(k, i, c) && create[i](h.Observed(i, c).value)
  }

  lemma FiledIffLanded(h: History, k: nat, create: seq<Result -> bool>, i: nat, c: string)
    requires FilesPerResult(h, k, create) && i < |h.calls|
    ensures FiledAt(h, k, create, i, c) <==> h.LandedAt(k, i, c)
  {
    if h.HandedAt(k, i, c) {
      var changed := Snapshot(h.At(i), h.calls[i].results);
      TurnOf(h.At(i), h.reporters, k, changed, h.calls[i]);
      SliceDistinct(h.At(i), h.reporters[k], changed, h.calls[i]);
      FindNone(h.calls[i].results, c);
      LandsIffCreated(h.SliceAt(k, i), create[i], h.Observed(i, c).value);
    }
  }

  /** The notify entry of a check moves in a call exactly when its own issue was created there. */
  lemma EntryMovesWithItsTicket(h: History, k: nat, create: seq<Result -> bool>, i: nat, c: string)
    requires FilesPerResult(h, k, create) && i < |h.calls|
    ensures var key := NotifyKey(h.reporters[k].name, c);
      Lookup(h.At(i + 1), key)
        == if FiledAt(h, k, create, i, c)
           then Some(Entry(h.calls[i].now, StatusName(h.Observed(i, c).value.status)))
           else Lookup(h.At(i), key)
  {
    hide Step, Handed, Find;
    MemoryIsHistory(h, k, i, c);
    MemoryIsHistory(h, k, i + 1, c);
    FiledIffLanded(h, k, create, i, c);
  }

  // With no window, a check that keeps its status gets no second ticket, whatever else failed
  // in the batch that filed the first.
  lemma NoSecondTicket(h: History, k: nat, create: seq<Result -> bool>, c: string, s: Status, i: nat, j: nat)
    requires FilesPerResult(h, k, create) && i < j < |h.calls| && Stable(h, c, s, i, j + 1)
    requires h.reporters[k].route.dedupeWindow <= 0
    requires FiledAt(h, k, create, i, c)
    ensures !h.HandedAt(k, j, c)
  {
    hide Step, Handed, Find;
    FiledIffLanded(h, k, create, i, c);
    KeepsTold(h, k, c, s, i, j);
    FindNone(h.calls[j].results, c);
    HandedWhen(h, k, j, c);
  }

  lemma {:induction false} KeepsTold(h: History, k: nat, c: string, s: Status, i: nat, j: nat)
    requires k < |h.reporters| && i < j <= |h.calls| && Stable(h, c, s, i, j) && h.LandedAt(k, i, c)
    ensures h.LastSeen(j, c) == Some(StatusName(s))
    ensures h.LastTold(k, j, c).Some? && h.LastTold(k, j, c).value.status == StatusName(s)
  {
    if i + 1 < j { KeepsTold(h, k, c, s, i, j - 1); }
  }

  // A sibling whose issue was not created stays subject to the exact retry condition.
  lemma FailedTicketRetries(h: History, k: nat, create: seq<Result -> bool>, c: string, s: Status, i: nat, j: nat)
    requires FilesPerResult(h, k, create) && i < j < |h.calls| && Stable(h, c, s, i, j + 1)
    requires h.HandedAt(k, i, c)
    requires forall m :: i <= m < j ==> !FiledAt(h, k, create, m, c)
    requires h.Observed(j, c).Some? && Accepts(h.reporters[k].route, h.Observed(j, c).value)
    ensures h.HandedAt(k, j, c)
      <==> Retryable(h.LastTold(k, i, c), s, h.reporters[k].route.dedupeWindow, h.calls[j].now)
  {
    forall m | i <= m < j ensures !h.LandedAt(k, m, c) { FiledIffLanded(h, k, create, m, c); }
    RetryExactly(h, k, c, s, i, j);
  }
}
