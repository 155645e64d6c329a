/** Whole runs of the alert engine: any sequence of Report calls with any delivery outcomes, from
    any store. The lemmas describe every slice handed to a reporter by the run's own past. */
module Histories {
  import opened Text
  import opened Selection
  import opened Check
  import opened State
  import opened Routing
  import opened Engine
  import opened EngineFacts

  datatype History = History(start: Entries, reporters: seq<BoundReporter>, calls: seq<Call>) {

    predicate Valid() {
      && Separated(reporters)
      && forall i :: 0 <= i < |calls| ==> Distinct(calls[i].results)
    }

    // The store before call i.
    function At(i: nat): Entries
      requires i <= |calls|
    {
      if i == 0 then start else Step(At(i - 1), reporters, calls[i - 1])
    }

    // What reporter k is handed by call i.
    function SliceAt(k: nat, i: nat): seq<Result>
      requires k < |reporters| && i < |calls|
    {
      Handed(At(i), reporters, calls[i])[k]
    }

    function Observed(i: nat, c: string): Option<Result>
      requires i < |calls|
    {
      Find(calls[i].results, c)
    }

    predicate HandedAt(k: nat, i: nat, c: string)
      requires k < |reporters| && i < |calls|
    {
      Observed(i, c).Some? && Observed(i, c).value in SliceAt(k, i)
    }

    // Reporter k was handed the check by call i and the delivery got through.
    predicate LandedAt(k: nat, i: nat, c: string)
      requires k < |reporters| && i < |calls|
    {
      HandedAt(k, i, c) && Lands(calls[i].deliver(reporters[k].name, SliceAt(k, i)), c)
    }

    // The status the check had when last observed before call i.
    function LastSeen(i: nat, c: string): Option<string>
      requires i <= |calls|
    {
      if i == 0 then CellOf(start, "", c).seen
      else if Observed(i - 1, c).Some? then Some(StatusName(Observed(i - 1, c).value.status))
      else LastSeen(i - 1, c)
    }

    // Time and status of the reporter's last successful delivery about the check before call i.
    function LastTold(k: nat, i: nat, c: string): Option<Entry>
      requires k < |reporters| && i <= |calls|
    {
      if i == 0 then Lookup(start, NotifyKey(reporters[k].name, c))
      else if LandedAt(k, i - 1, c)
      then Some(Entry(calls[i - 1].now, StatusName(Observed(i - 1, c).value.status)))
      else LastTold(k, i - 1, c)
    }

    // Nothing to say: the reporter was last told this very status, the check did not just change,
    // and no positive window has elapsed.
    predicate Agreed(k: nat, i: nat, r: Result)
      requires k < |reporters| && i < |calls|
    {
      var told, window := LastTold(k, i, r.check), reporters[k].route.dedupeWindow;
      && LastSeen(i, r.check) == Some(StatusName(r.status))
      && told.Some?
      && told.value.status == StatusName(r.status)
      && (window > 0 ==> calls[i].now - told.value.time < window)
    }
  }

  // In every reachable state the two memories are exactly these two facts of the past.
  lemma {:induction false} MemoryIsHistory(h: History, k: nat, i: nat, c: string)
    requires h.Valid() && k < |h.reporters| && i <= |h.calls| && !h.reporters[k].route.repeatAlerts
    ensures CellOf(h.At(i), h.reporters[k].name, c) == Cell(h.LastSeen(i, c), h.LastTold(k, i, c))
  {
    hide Step, Handed, Sends, Find, Distinct, Separated;
    if i > 0 {
      MemoryIsHistory(h, k, i - 1, c);
      StepProjects(h.At(i - 1), h.reporters, k, h.calls[i - 1], c);
      var f := h.Observed(i - 1, c);
      FindNone(h.calls[i - 1].results, c);
      if f.Some? { HandedProjects(h.At(i - 1), h.reporters, k, h.calls[i - 1], f.value); }
    }
  }

  /** A result is withheld from a reporter exactly when its route drops it or both sides agree. */
  lemma QuietMeansAgreed(h: History, k: nat, i: nat, r: Result)
    requires h.Valid() && k < |h.reporters| && i < |h.calls| && !h.reporters[k].route.repeatAlerts
    ensures r in h.SliceAt(k, i)
      <==> r in h.calls[i].results && Accepts(h.reporters[k].route, r) && !h.Agreed(k, i, r)
  {
    HandedProjects(h.At(i), h.reporters, k, h.calls[i], r);
    MemoryIsHistory(h, k, i, r.check);
  }

  lemma HandedWhen(h: History, k: nat, i: nat, c: string)
    requires h.Valid() && k < |h.reporters| && i < |h.calls| && !h.reporters[k].route.repeatAlerts
    ensures var f, route := h.Observed(i, c), h.reporters[k].route;
      h.HandedAt(k, i, c) <==> f.Some? && Accepts(route, f.value) && !h.Agreed(k, i, f.value)
  {
    FindNone(h.calls[i].results, c);
    if h.Observed(i, c).Some? { QuietMeansAgreed(h, k, i, h.Observed(i, c).value); }
  }

  // A reporter that repeats its alerts is handed every result it accepts, and the store keeps nothing
  // for it.
  lemma {:induction false} RepeatersHearEverything(h: History, k: nat, i: nat, c: string)
    requires h.Valid() && k < |h.reporters| && h.reporters[k].route.repeatAlerts && i <= |h.calls|
    ensures Lookup(h.At(i), NotifyKey(h.reporters[k].name, c)) == Lookup(h.start, NotifyKey(h.reporters[k].name, c))
    ensures i < |h.calls| ==>
      forall r :: r in h.SliceAt(k, i) <==> r in h.calls[i].results && Accepts(h.reporters[k].route, r)
  {
    hide Step, Handed, Find, Distinct, Separated, Accepts;
    if i > 0 {
      RepeatersHearEverything(h, k, i - 1, c);
      StepProjects(h.At(i - 1), h.reporters, k, h.calls[i - 1], c);
    }
    if i < |h.calls| {
      forall r ensures r in h.SliceAt(k, i) <==> r in h.calls[i].results && Accepts(h.reporters[k].route, r) {
        HandedProjects(h.At(i), h.reporters, k, h.calls[i], r);
      }
    }
  }

  // Time and status of the last observation before call i that changed the check's status.
  function LastChange(h: History, i: nat, c: string): Option<Entry>
    requires i <= |h.calls|
  {
    if i == 0 then Lookup(h.start, StatusKey(c))
    else
      var f := h.Observed(i - 1, c);
      if f.Some? && h.LastSeen(i - 1, c) != Some(StatusName(f.value.status))
      then Some(Entry(h.calls[i - 1].now, StatusName(f.value.status)))
      else LastChange(h, i - 1, c)
  }

  // So an unchanged observation leaves the status entry and its time alone.
  lemma {:induction false} StatusEntryIsLastChange(h: History, i: nat, c: string)
    requires h.Valid() && i <= |h.calls|
    ensures Lookup(h.At(i), StatusKey(c)) == LastChange(h, i, c)
    ensures h.LastSeen(i, c) == (if LastChange(h, i, c).Some? then Some(LastChange(h, i, c).value.status) else None)
  {
    hide Step, Find, Distinct, Separated, StatusName, StatusKey;
    if i > 0 {
      StatusEntryIsLastChange(h, i - 1, c);
      StatusEntryAfter(h.At(i - 1), h.reporters, h.calls[i - 1], c);
    }
  }

  // --- Retries ----------------------------------------------------------------------------

  // Between calls a and b every observation of the check has this status.
  predicate Stable(h: History, c: string, s: Status, a: nat, b: nat)
    requires a <= b <= |h.calls|
  {
    forall m :: a <= m < b && h.Observed(m, c).Some? ==> h.Observed(m, c).value.status == s
  }

  lemma {:induction false} StretchKeepsMemory(h: History, k: nat, c: string, s: Status, a: nat, b: nat)
    requires k < |h.reporters| && a < b <= |h.calls| && Stable(h, c, s, a, b)
    requires h.Observed(a, c).Some?
    requires forall m :: a <= m < b ==> !h.LandedAt(k, m, c)
    ensures h.LastSeen(b, c) == Some(StatusName(s)) && h.LastTold(k, b, c) == h.LastTold(k, a, c)
    decreases b - a
  {
    if a + 1 < b { StretchKeepsMemory(h, k, c, s, a, b - 1); }
  }

  predicate Retryable(told: Option<Entry>, s: Status, window: int, now: int) {
    || told.None?
    || told.value.status != StatusName(s)
    || (window > 0 && now - told.value.time >= window)
  }

  /** The exact retry condition. A delivery of the check at status s failed at call i and nothing
      landed since; at a later, unchanged and accepted observation it is attempted again exactly
      when the last success before the failure is absent, was at another status, or is older than
      a positive window. */
  lemma RetryExactly(h: History, k: nat, c: string, s: Status, i: nat, j: nat)
    requires h.Valid() && k < |h.reporters| && i < j < |h.calls| && !h.reporters[k].route.repeatAlerts
    requires h.HandedAt(k, i, c) && Stable(h, c, s, i, j + 1)
    requires forall m :: i <= m < j ==> !h.LandedAt(k, m, c)
    requires h.Observed(j, c).Some? && Accepts(h.reporters[k].route, h.Observed(j, c).value)
    ensures h.HandedAt(k, j, c) <==> Retryable(h.LastTold(k, i, c), s, h.reporters[k].route.dedupeWindow, h.calls[j].now)
  {
    StretchKeepsMemory(h, k, c, s, i, j);
    FindNone(h.calls[j].results, c);
    HandedWhen(h, k, j, c);
  }

  // The documentation's "a reporter that fails to deliver is retried by the next run" fails here:
  // warn lands, ok is dropped by only_failing, warn fails, and the next warn stays quiet.
  function ForgottenRetry(): History {
    var route := Route(OK, [], [], true, false, 0);
    var reply := (o: Outcome) => ((name: string, slice: seq<Result>) => o);
    var disk := (s: Status) => [Result("disk", s, "", [])];
    History(map[], [BoundReporter("slack", route)],
            [Call(disk(Warn), 0, reply(Delivered)), Call(disk(OK), 1, reply(Delivered)),
             Call(disk(Warn), 2, reply(Failed)), Call(disk(Warn), 3, reply(Delivered))])
  }

  lemma ForgottenRetryStarts()
    ensures var h := ForgottenRetry();
      h.Valid() && h.LastTold(0, 1, "disk") == Some(Entry(0, "warn"))
  {
    hide Step, Handed;
    var h := ForgottenRetry();
    HandedWhen(h, 0, 0, "disk");
    assert h.LastTold(0, 0, "disk").None?;
    assert h.LandedAt(0, 0, "disk");
  }

  lemma ForgottenRetryRecoversUnseen()
    ensures var h := ForgottenRetry();
      && h.LastTold(0, 2, "disk") == Some(Entry(0, "warn"))
      && h.LastSeen(2, "disk") == Some("ok")
  {
    hide Step, Handed;
    var h := ForgottenRetry();
    ForgottenRetryStarts();
    HandedWhen(h, 0, 1, "disk");
  }

  lemma RetryIsNotUnconditional()
    ensures var h := ForgottenRetry();
      && h.Valid()
      && h.HandedAt(0, 2, "disk") && !h.LandedAt(0, 2, "disk")
      && Accepts(h.reporters[0].route, h.calls[3].results[0])
      && h.calls[3].results == h.calls[2].results
      && !h.HandedAt(0, 3, "disk")
  {
    hide Step, Handed;
    var h := ForgottenRetry();
    ForgottenRetryStarts();
    ForgottenRetryRecoversUnseen();
    HandedWhen(h, 0, 2, "disk");
    assert !h.LandedAt(0, 2, "disk");
    RetryExactly(h, 0, "disk", Warn, 2, 3);
  }

  // --- Alert rate -------------------------------------------------------------------------

  // Times of the successful deliveries about the check between calls a and b.
  function LandedTimes(h: History, k: nat, c: string, a: nat, b: nat): seq<int>
    requires k < |h.reporters| && a <= b <= |h.calls|
    decreases b - a
  {
    if a == b then []
    else
      var earlier := LandedTimes(h, k, c, a, b - 1);
      if h.LandedAt(k, b - 1, c) then earlier + [h.calls[b - 1].now] else earlier
  }

  lemma {:induction false} StretchRemembersLast(h: History, k: nat, c: string, s: Status, a: nat, b: nat)
    requires k < |h.reporters| && a <= b <= |h.calls| && Stable(h, c, s, a, b)
    ensures var times := LandedTimes(h, k, c, a, b);
      times != [] ==>
        && h.LastSeen(b, c) == Some(StatusName(s))
        && h.LastTold(k, b, c) == Some(Entry(times[|times| - 1], StatusName(s)))
    decreases b - a
  {
    if a < b { StretchRemembersLast(h, k, c, s, a, b - 1); }
  }

  /** While a check keeps one status, successful deliveries about it are a positive window apart,
      and with no window there is at most one, whatever fails in between. */
  lemma {:induction false} AlertsAreSpaced(h: History, k: nat, c: string, s: Status, a: nat, b: nat)
    requires h.Valid() && k < |h.reporters| && a <= b <= |h.calls| && Stable(h, c, s, a, b)
    requires !h.reporters[k].route.repeatAlerts
    ensures var times, window := LandedTimes(h, k, c, a, b), h.reporters[k].route.dedupeWindow;
      && (window <= 0 ==> |times| <= 1)
      && forall q :: 0 < q < |times| ==> times[q] - times[q - 1] >= window
    decreases b - a
  {
    hide Step, Handed, Find;
    if a < b {
      AlertsAreSpaced(h, k, c, s, a, b - 1);
      StretchRemembersLast(h, k, c, s, a, b - 1);
      HandedWhen(h, k, b - 1, c);
      FindNone(h.calls[b - 1].results, c);
    }
  }

  lemma {:induction false} SpacedSpan(times: seq<int>, window: nat)
    requires times != [] && forall q :: 0 < q < |times| ==> times[q] - times[q - 1] >= window
    ensures (|times| - 1) * window <= times[|times| - 1] - times[0]
  {
    if |times| > 1 {
      var init := times[..|times| - 1];
      SpacedSpan(init, window);
      assert (|times| - 1) * window == (|init| - 1) * window + window;
    }
  }

  lemma {:induction false} LandedTimesWithin(h: History, k: nat, c: string, a: nat, b: nat, lo: int, hi: int)
    requires k < |h.reporters| && a <= b <= |h.calls|
    requires forall m :: a <= m < b ==> lo <= h.calls[m].now <= hi
    ensures forall t :: t in LandedTimes(h, k, c, a, b) ==> lo <= t <= hi
    decreases b - a
  {
    if a < b { LandedTimesWithin(h, k, c, a, b - 1, lo, hi); }
  }

  lemma ProductMonotone(a: int, b: int, w: nat)
    requires a <= b
    ensures a * w <= b * w
  {
  }

  lemma QuotientBound(n: int, window: int, span: int)
    requires window > 0 && n * window <= span
    ensures n <= span / window
  {
    var q := span / window;
    assert span == q * window + span % window;
    assert (q + 1) * window == q * window + window;
    if n > q { ProductMonotone(q + 1, n, window); }
  }

  lemma SpacedWithin(times: seq<int>, window: nat, from: int, span: nat)
    requires window > 0 && times != []
    requires forall q :: 0 < q < |times| ==> times[q] - times[q - 1] >= window
    requires forall t :: t in times ==> from <= t <= from + span
    ensures |times| <= 1 + span / window
  {
    hide *;
    SpacedSpan(times, window);
    assert times[0] in times && times[|times| - 1] in times;
    QuotientBound(|times| - 1, window, span);
  }

  // Over a stable stretch of length `span` there are at most 1 + span/window deliveries.
  lemma AlertRateBound(h: History, k: nat, c: string, s: Status, a: nat, b: nat, from: int, span: nat)
    requires h.Valid() && k < |h.reporters| && a <= b <= |h.calls| && Stable(h, c, s, a, b)
    requires !h.reporters[k].route.repeatAlerts
    requires forall m :: a <= m < b ==> from <= h.calls[m].now <= from + span
    ensures var n, window := |LandedTimes(h, k, c, a, b)|, h.reporters[k].route.dedupeWindow;
      n <= if window > 0 then 1 + span / window else 1
  {
    hide LandedTimes, Stable, History.Valid;
    var times, window := LandedTimes(h, k, c, a, b), h.reporters[k].route.dedupeWindow;
    AlertsAreSpaced(h, k, c, s, a, b);
    LandedTimesWithin(h, k, c, a, b, from, from + span);
    if window > 0 && times != [] { SpacedWithin(times, window, from, span); }
  }

  // --- Trace refinement -------------------------------------------------------------------

  ghost predicate Reliable(h: History, name: string) {
    forall i, slice :: 0 <= i < |h.calls| ==> h.calls[i].deliver(name, slice) == Delivered
  }

  // Status of the last observation before call i that reporter k's route accepts.
  function LastAccepted(h: History, k: nat, i: nat, c: string): Option<string>
    requires k < |h.reporters| && i <= |h.calls|
  {
    if i == 0 then None
    else
      var f := h.Observed(i - 1, c);
      if f.Some? && Accepts(h.reporters[k].route, f.value) then Some(StatusName(f.value.status))
      else LastAccepted(h, k, i - 1, c)
  }

  // The conditions under which alerts are driven by changes alone.
  ghost predicate ChangeDriven(h: History, k: nat) {
    && h.Valid() && k < |h.reporters|
    && !h.reporters[k].route.repeatAlerts && h.reporters[k].route.dedupeWindow <= 0
    && Reliable(h, h.reporters[k].name)
  }

  lemma {:induction false} ToldIsLastAccepted(h: History, k: nat, i: nat, c: string)
    requires ChangeDriven(h, k) && i <= |h.calls|
    ensures var told, accepted := h.LastTold(k, i, c), LastAccepted(h, k, i, c);
      if accepted.Some? then told.Some? && told.value.status == accepted.value
      else told == Lookup(h.start, NotifyKey(h.reporters[k].name, c))
  {
    hide Step, Handed, Find;
    if i > 0 {
      ToldIsLastAccepted(h, k, i - 1, c);
      HandedWhen(h, k, i - 1, c);
      FindNone(h.calls[i - 1].results, c);
    }
  }

  // The status reporter k was last told about the check: the last one its route accepted or, before
  // any, the one the starting store says it was told.
  function LastBelieved(h: History, k: nat, i: nat, c: string): Option<string>
    requires k < |h.reporters| && i <= |h.calls|
  {
    var accepted, told := LastAccepted(h, k, i, c), Lookup(h.start, NotifyKey(h.reporters[k].name, c));
    if accepted.Some? then accepted else if told.Some? then Some(told.value.status) else None
  }

  /** From any store, a reliable reporter with no window receives exactly the accepted results that
      changed the check's status or differ from the status it was last told; from an empty store,
      that is the status it last accepted. */
  lemma TraceRefinement(h: History, k: nat, i: nat, r: Result)
    requires ChangeDriven(h, k) && i < |h.calls|
    ensures r in h.SliceAt(k, i)
      <==> && r in h.calls[i].results
           && Accepts(h.reporters[k].route, r)
           && (|| h.LastSeen(i, r.check) != Some(StatusName(r.status))
               || LastBelieved(h, k, i, r.check) != Some(StatusName(r.status)))
    ensures h.start == map[] ==> LastBelieved(h, k, i, r.check) == LastAccepted(h, k, i, r.check)
  {
    hide Step, Handed, Find;
    QuietMeansAgreed(h, k, i, r);
    ToldIsLastAccepted(h, k, i, r.check);
  }

  // Whether reporter k's route accepts a result of this history depends on its check and status only.
  ghost predicate SteadyRoute(h: History, k: nat)
    requires k < |h.reporters|
  {
    forall i, j, r, q ::
      (0 <= i < |h.calls| && 0 <= j < |h.calls| && r in h.calls[i].results && q in h.calls[j].results
       && r.check == q.check && r.status == q.status)
      ==> Accepts(h.reporters[k].route, r) == Accepts(h.reporters[k].route, q)
  }

  // So it is when the route names no tags, or each check always carries the same ones.
  lemma SteadyTagsSuffice(h: History, k: nat)
    requires k < |h.reporters|
    requires h.reporters[k].route.tags != [] ==>
      forall i, j, r, q ::
        (0 <= i < |h.calls| && 0 <= j < |h.calls| && r in h.calls[i].results && q in h.calls[j].results
         && r.check == q.check) ==> r.tags == q.tags
    ensures SteadyRoute(h, k)
  {
  }

  lemma {:induction false} SteadyAcceptance(h: History, k: nat, n: nat, i: nat, r: Result)
    requires k < |h.reporters| && i <= n < |h.calls| && SteadyRoute(h, k) && r in h.calls[n].results
    requires h.start == map[] && Accepts(h.reporters[k].route, r)
    requires h.LastSeen(i, r.check) == Some(StatusName(r.status))
    ensures LastAccepted(h, k, i, r.check) == Some(StatusName(r.status))
  {
    var f := h.Observed(i - 1, r.check);
    FindNone(h.calls[i - 1].results, r.check);
    if f.Some? {
      StatusNamesDiffer(f.value.status, r.status);
    } else {
      SteadyAcceptance(h, k, n, i - 1, r);
    }
  }

  // A check whose tags vary is handed over at an observation that changed nothing. The built-in
  // checks set no tags, so it takes a check that does or a configuration edited between two processes.
  function RetaggedCheck(): History {
    var route := Route(OK, [], ["db"], false, false, 0);
    var arrive := (name: string, slice: seq<Result>) => Delivered;
    History(map[], [BoundReporter("slack", route)],
            [Call([Result("disk", Warn, "", [])], 0, arrive), Call([Result("disk", Warn, "", ["db"])], 1, arrive)])
  }

  lemma ChangingTagsAlertUnchanged()
    ensures var h := RetaggedCheck();
      && ChangeDriven(h, 0) && h.start == map[]
      && Resurfaces(h, 0, 1, "disk") && h.HandedAt(0, 1, "disk")
  {
    hide Step, Handed;
    var h := RetaggedCheck();
    HandedWhen(h, 0, 0, "disk");
    HandedWhen(h, 0, 1, "disk");
    assert h.LastTold(0, 0, "disk").None? && h.LastTold(0, 1, "disk").None?;
    assert "db" in h.calls[1].results[0].tags;
  }

  function About(results: seq<Result>, c: string): seq<Result> {
    if Find(results, c).Some? then [Find(results, c).value] else []
  }

  // Everything observed about the check before call i.
  function ObservedSoFar(h: History, i: nat, c: string): seq<Result>
    requires i <= |h.calls|
  {
    if i == 0 then [] else ObservedSoFar(h, i - 1, c) + About(h.calls[i - 1].results, c)
  }

  // Everything reporter k received about the check before call i.
  function Received(h: History, k: nat, i: nat, c: string): seq<Result>
    requires k < |h.reporters| && i <= |h.calls|
  {
    if i == 0 then [] else Received(h, k, i - 1, c) + About(h.SliceAt(k, i - 1), c)
  }

  // The observations at which the status differs from the one before, the first included.
  function ChangePoints(obs: seq<Result>): seq<Result> {
    if obs == [] then []
    else
      var last := |obs| - 1;
      var earlier := ChangePoints(obs[..last]);
      if last == 0 || obs[last - 1].status != obs[last].status then earlier + [obs[last]] else earlier
  }

  lemma {:induction false} SeenIsLastObservation(h: History, i: nat, c: string)
    requires i <= |h.calls|
    ensures var obs := ObservedSoFar(h, i, c);
      h.LastSeen(i, c) == if obs == [] then h.LastSeen(0, c) else Some(StatusName(obs[|obs| - 1].status))
  {
    hide Find, StatusName, ObservedSoFar, CellOf;
    if i == 0 {
      NothingObserved(h, c);
    } else {
      SeenIsLastObservation(h, i - 1, c);
      ObservedGrows(h, i - 1, c);
    }
  }

  lemma NothingObserved(h: History, c: string)
    ensures ObservedSoFar(h, 0, c) == []
  {
  }

  lemma SliceAbout(h: History, k: nat, i: nat, c: string)
    requires h.Valid() && k < |h.reporters| && i < |h.calls|
    ensures About(h.SliceAt(k, i), c) == if h.HandedAt(k, i, c) then [h.Observed(i, c).value] else []
  {
    var slice, results := h.SliceAt(k, i), h.calls[i].results;
    var changed := Snapshot(h.At(i), results);
    TurnOf(h.At(i), h.reporters, k, changed, h.calls[i]);
    SliceDistinct(h.At(i), h.reporters[k], changed, h.calls[i]);
    FindNone(slice, c);
    FindNone(results, c);
    if Find(slice, c).Some? {
      HandedProjects(h.At(i), h.reporters, k, h.calls[i], Find(slice, c).value);
      FindMember(results, Find(slice, c).value);
    } else if h.Observed(i, c).Some? {
      FindMember(slice, h.Observed(i, c).value);
    }
  }

  // An accepted observation that changed nothing, at a status the route did not accept last time:
  // only its tags can have made the difference.
  predicate Resurfaces(h: History, k: nat, i: nat, c: string)
    requires k < |h.reporters| && i < |h.calls|
  {
    var f := h.Observed(i, c);
    && f.Some? && Accepts(h.reporters[k].route, f.value)
    && h.LastSeen(i, c) == Some(StatusName(f.value.status))
    && LastAccepted(h, k, i, c) != Some(StatusName(f.value.status))
  }

  lemma HandedAtChangePoints(h: History, k: nat, i: nat, c: string)
    requires ChangeDriven(h, k) && h.start == map[] && i < |h.calls|
    requires h.Observed(i, c).Some?
    ensures var obs, r := ObservedSoFar(h, i, c), h.Observed(i, c).value;
      var changed := obs == [] || obs[|obs| - 1].status != r.status;
      && (h.HandedAt(k, i, c) == ((Accepts(h.reporters[k].route, r) && changed) || Resurfaces(h, k, i, c)))
      && (Resurfaces(h, k, i, c) ==> !changed)
  {
    hide Step, Handed, Find;
    var obs, r := ObservedSoFar(h, i, c), h.Observed(i, c).value;
    SeenIsLastObservation(h, i, c);
    FindNone(h.calls[i].results, c);
    TraceRefinement(h, k, i, r);
    if obs != [] { StatusNamesDiffer(obs[|obs| - 1].status, r.status); }
  }

  // Through a steady route nothing resurfaces.
  lemma SteadyNeverResurfaces(h: History, k: nat, i: nat, c: string)
    requires k < |h.reporters| && i < |h.calls| && h.start == map[] && SteadyRoute(h, k)
    ensures !Resurfaces(h, k, i, c)
  {
    FindNone(h.calls[i].results, c);
    if Resurfaces(h, k, i, c) { SteadyAcceptance(h, k, i, i, h.Observed(i, c).value); }
  }

  lemma ChangePointsGrow(obs: seq<Result>, r: Result)
    ensures ChangePoints(obs + [r])
      == if obs == [] || obs[|obs| - 1].status != r.status then ChangePoints(obs) + [r] else ChangePoints(obs)
  {
    assert (obs + [r])[..|obs|] == obs;
  }

  lemma NothingReceived(h: History, k: nat, c: string)
    requires k < |h.reporters|
    ensures Received(h, k, 0, c) == FilteredChanges(h, k, 0, c) == []
  {
  }

  lemma ReceivedGrows(h: History, k: nat, i: nat, c: string)
    requires h.Valid() && k < |h.reporters| && i < |h.calls|
    ensures Received(h, k, i + 1, c)
      == if h.HandedAt(k, i, c) then Received(h, k, i, c) + [h.Observed(i, c).value] else Received(h, k, i, c)
  {
    hide Step, Handed, Find, About;
    SliceAbout(h, k, i, c);
    assert Received(h, k, i, c) + [] == Received(h, k, i, c);
  }

  lemma ObservedGrows(h: History, i: nat, c: string)
    requires i < |h.calls|
    ensures ObservedSoFar(h, i + 1, c)
      == if h.Observed(i, c).Some? then ObservedSoFar(h, i, c) + [h.Observed(i, c).value] else ObservedSoFar(h, i, c)
  {
    assert ObservedSoFar(h, i, c) + [] == ObservedSoFar(h, i, c);
  }

  // The change points of a check that a route accepts.
  function FilteredChanges(h: History, k: nat, i: nat, c: string): seq<Result>
    requires k < |h.reporters| && i <= |h.calls|
  {
    Keep(ChangePoints(ObservedSoFar(h, i, c)), Accepting(h.reporters[k].route))
  }

  predicate NoneResurface(h: History, k: nat, i: nat, c: string)
    requires k < |h.reporters| && i <= |h.calls|
  {
    forall j :: 0 <= j < i ==> !Resurfaces(h, k, j, c)
  }

  lemma FilteredChangesGrow(h: History, k: nat, i: nat, c: string)
    requires ChangeDriven(h, k) && h.start == map[] && i < |h.calls|
    ensures FilteredChanges(h, k, i + 1, c)
      == if h.HandedAt(k, i, c) && !Resurfaces(h, k, i, c)
         then FilteredChanges(h, k, i, c) + [h.Observed(i, c).value] else FilteredChanges(h, k, i, c)
  {
    hide ChangePoints, Keep, ObservedSoFar, History.HandedAt, History.Observed, Accepts, Resurfaces;
    hide Separated, Distinct, Reliable;
    ObservedGrows(h, i, c);
    var f := h.Observed(i, c);
    if f.Some? {
      HandedAtChangePoints(h, k, i, c);
      ChangePointsGrow(ObservedSoFar(h, i, c), f.value);
      KeepLast(ChangePoints(ObservedSoFar(h, i, c)), f.value, Accepting(h.reporters[k].route));
    } else {
      HandedOnlyObserved(h, k, i, c);
    }
  }

  /** When the two memories implement "take change points, then filter": what a reporter receives
      about a check is what its route accepts among the check's change points, changes from statuses
      it never sees included, exactly as long as nothing resurfaces. */
  lemma {:induction false} ChangePointsThenFilter(h: History, k: nat, i: nat, c: string)
    requires ChangeDriven(h, k) && h.start == map[] && i <= |h.calls|
    ensures Received(h, k, i, c) == FilteredChanges(h, k, i, c) <==> NoneResurface(h, k, i, c)
    ensures !NoneResurface(h, k, i, c) ==> |Received(h, k, i, c)| > |FilteredChanges(h, k, i, c)|
  {
    hide FilteredChanges, Received, History.HandedAt, History.Observed, Accepts, Resurfaces;
    hide Separated, Distinct, Reliable;
    if i == 0 {
      NothingReceived(h, k, c);
    } else {
      ChangePointsThenFilter(h, k, i - 1, c);
      ReceivedGrows(h, k, i - 1, c);
      FilteredChangesGrow(h, k, i - 1, c);
      ResurfacingIsHanded(h, k, i - 1, c);
    }
  }

  lemma ResurfacingIsHanded(h: History, k: nat, i: nat, c: string)
    requires ChangeDriven(h, k) && h.start == map[] && i < |h.calls|
    ensures Resurfaces(h, k, i, c) ==> h.HandedAt(k, i, c)
  {
    hide Step, Handed, Find, ObservedSoFar;
    if h.Observed(i, c).Some? { HandedAtChangePoints(h, k, i, c); }
  }

  // So it is for every route that looks at check and status only.
  lemma SteadyRouteFilters(h: History, k: nat, i: nat, c: string)
    requires ChangeDriven(h, k) && h.start == map[] && SteadyRoute(h, k) && i <= |h.calls|
    ensures Received(h, k, i, c) == FilteredChanges(h, k, i, c)
  {
    hide Received, FilteredChanges, Resurfaces, SteadyRoute;
    forall j | 0 <= j < i ensures !Resurfaces(h, k, j, c) { SteadyNeverResurfaces(h, k, j, c); }
    ChangePointsThenFilter(h, k, i, c);
  }

  lemma HandedOnlyObserved(h: History, k: nat, i: nat, c: string)
    requires k < |h.reporters| && i < |h.calls| && h.Observed(i, c).None?
    ensures !h.HandedAt(k, i, c)
  {
  }
}
