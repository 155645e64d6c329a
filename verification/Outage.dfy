/** The heartbeat server end to end: pings and evaluation ticks, through the alert engine
    (internal/heartbeat/heartbeat.go, internal/scheduler/scheduler.go, internal/runner/runner.go). */
module Outage {
  import opened Text
  import opened Check
  import opened Routing
  import opened Sorting
  import opened Heartbeat
  import opened Engine
  import opened EngineFacts
  import opened Histories

  // A tick reads the clock, evaluates every key and reports; Report reads the clock again. The
  // schedule groups of the same daemon report in between.
  datatype Event =
    | Pinged(key: string, timeout: int, at: int)
    | Ticked(at: int, reportedAt: int, results: seq<Result>, deliver: (string, seq<Result>) -> Outcome)
    | Grouped(call: Call)

  function KeysAt(events: seq<Event>, i: nat): Keys
    requires i <= |events|
  {
    if i == 0 then map[]
    else
      match events[i - 1]
      case Pinged(key, timeout, at) => KeysAt(events, i - 1)[key := Beat(at, timeout)]
      case _ => KeysAt(events, i - 1)
  }

  // No check of a schedule group takes a name that heartbeat results use.
  predicate SparesHeartbeats(results: seq<Result>) {
    forall r :: r in results ==> !(RESULT_PREFIX <= r.check)
  }

  // Accepted pings and evaluations, in the order in which they held the registry's lock, and group
  // reports. Nothing is asked of the clock: an evaluation may even have read it before a ping it
  // already sees.
  ghost predicate IsRun(events: seq<Event>) {
    && (forall i :: 0 <= i < |events| && events[i].Pinged? ==> events[i].timeout > 0)
    && (forall i :: 0 <= i < |events| && events[i].Ticked? ==>
         IsEvaluation(KeysAt(events, i), events[i].at, events[i].results))
    && (forall i :: 0 <= i < |events| && events[i].Grouped? ==>
         Distinct(events[i].call.results) && SparesHeartbeats(events[i].call.results))
  }

  // The Report calls of a run: a tick with nothing to report makes none.
  function CallsOf(events: seq<Event>): seq<Call> {
    if events == [] then []
    else
      var last := events[|events| - 1];
      var earlier := CallsOf(events[..|events| - 1]);
      match last
      case Pinged(_, _, _) => earlier
      case Ticked(_, reportedAt, results, deliver) =>
        if results != [] then earlier + [Call(results, reportedAt, deliver)] else earlier
      case Grouped(call) => earlier + [call]
  }

  // --- Detection ----------------------------------------------------------------------------

  // After event a the key is silent until event b.
  predicate SilentBetween(events: seq<Event>, key: string, a: nat, b: nat)
    requires a <= b <= |events|
  {
    forall i :: a < i < b ==> !(events[i].Pinged? && events[i].key == key)
  }

  lemma {:induction false} LastPingStands(events: seq<Event>, p: nat, t: nat)
    requires p < t <= |events| && events[p].Pinged? && SilentBetween(events, events[p].key, p, t)
    ensures var key := events[p].key;
      key in KeysAt(events, t) && KeysAt(events, t)[key] == Beat(events[p].at, events[p].timeout)
  {
    if t > p + 1 { LastPingStands(events, p, t - 1); }
  }

  // The daemon started at `start`, and its clock never goes back. A ping reads it while holding the
  // lock, so after everything already recorded; a tick reads it early, so only pings are ordered.
  predicate ClockForward(events: seq<Event>, start: int) {
    forall j :: 0 <= j < |events| && events[j].Pinged? ==>
      start <= events[j].at && forall i :: 0 <= i < j && !events[i].Grouped? ==> events[i].at <= events[j].at
  }

  // The clock of the last tick before event i, or of the daemon's start. Ticks before the first ping
  // find no key and may be left out: the last of them then counts as the start.
  function LastTickAt(events: seq<Event>, i: nat, start: int): int
    requires i <= |events|
  {
    if i == 0 then start
    else if events[i - 1].Ticked? then events[i - 1].at
    else LastTickAt(events, i - 1, start)
  }

  predicate TicksEvery(events: seq<Event>, start: int, gap: int) {
    forall b :: 0 <= b < |events| && events[b].Ticked? ==> events[b].at <= LastTickAt(events, b, start) + gap
  }

  lemma {:induction false} LastTickBeforePing(events: seq<Event>, start: int, i: nat, p: nat)
    requires ClockForward(events, start) && i <= p < |events| && events[p].Pinged?
    ensures LastTickAt(events, i, start) <= events[p].at
  {
    if i > 0 { LastTickBeforePing(events, start, i - 1, p); }
  }

  lemma {:induction false} LastTickBounded(events: seq<Event>, start: int, p: nat, t: nat, bound: int)
    requires p <= t <= |events| && LastTickAt(events, p, start) <= bound
    requires forall m :: p <= m < t && events[m].Ticked? ==> events[m].at <= bound
    ensures LastTickAt(events, t, start) <= bound
  {
    if p < t { LastTickBounded(events, start, p, t - 1, bound); }
  }

  // The verdict of tick t on a key.
  predicate Says(events: seq<Event>, t: nat, key: string, s: Status)
    requires t < |events|
  {
    && events[t].Ticked?
    && key in KeysAt(events, t)
    && Judge(key, KeysAt(events, t)[key], events[t].at).status == s
  }

  // The first tick in (p, z] after the deadline.
  lemma {:induction false} FirstLateTick(events: seq<Event>, p: nat, z: nat, deadline: int) returns (t: nat)
    requires p < z < |events| && events[z].Ticked? && events[z].at > deadline
    ensures p < t <= z && events[t].Ticked? && events[t].at > deadline
    ensures forall m :: p < m < t && events[m].Ticked? ==> events[m].at <= deadline
    decreases z - p
  {
    if events[p + 1].Ticked? && events[p + 1].at > deadline {
      t := p + 1;
    } else {
      t := FirstLateTick(events, p + 1, z, deadline);
    }
  }

  function Deadline(ping: Event): int
    requires ping.Pinged?
  {
    ping.at + ping.timeout
  }

  // A tick between events p and q finds the ping at p still fresh, or expired.
  predicate TickOnTime(events: seq<Event>, p: nat, q: nat)
    requires p < q <= |events| && events[p].Pinged?
  {
    exists m :: p < m < q && events[m].Ticked? && events[m].at <= Deadline(events[p])
  }

  predicate TickPast(events: seq<Event>, p: nat, q: nat)
    requires p < q <= |events| && events[p].Pinged?
  {
    exists m :: p < m < q && events[m].Ticked? && events[m].at > Deadline(events[p])
  }

  /** Detection bound. A key last pinged at time L with timeout d and silent until a tick past L + d,
      in a daemon that ticks at most `gap` apart, gets its first crit in (L + d, L + d + gap], and
      every earlier evaluation since the ping says ok. */
  lemma OutageDetected(events: seq<Event>, start: int, gap: int, p: nat, z: nat) returns (t: nat)
    requires IsRun(events) && ClockForward(events, start) && TicksEvery(events, start, gap)
    requires p < z < |events| && events[p].Pinged? && SilentBetween(events, events[p].key, p, z)
    requires events[z].Ticked? && events[z].at > Deadline(events[p])
    ensures p < t <= z && Says(events, t, events[p].key, Crit)
    ensures Deadline(events[p]) < events[t].at <= Deadline(events[p]) + gap
    ensures !TickPast(events, p, t)
    ensures forall m :: p < m < t && events[m].Ticked? ==> Says(events, m, events[p].key, OK)
  {
    hide Says, TickPast, ClockForward, TicksEvery, SilentBetween, IsRun;
    TimeoutPositive(events, p);
    t := FirstLateTick(events, p, z, Deadline(events[p]));
    NoTickPast(events, p, t);
    SilentShorter(events, p, t, z);
    DetectedWithin(events, start, gap, p, t);
    SaysByDeadline(events, p, t);
    forall m | p < m < t && events[m].Ticked? ensures Says(events, m, events[p].key, OK) {
      SilentShorter(events, p, m, t);
      SaysByDeadline(events, p, m);
    }
  }

  lemma TimeoutPositive(events: seq<Event>, p: nat)
    requires IsRun(events) && p < |events| && events[p].Pinged?
    ensures events[p].timeout > 0
  {
  }

  lemma NoTickPast(events: seq<Event>, p: nat, t: nat)
    requires p < t <= |events| && events[p].Pinged?
    requires forall m :: p < m < t && events[m].Ticked? ==> events[m].at <= Deadline(events[p])
    ensures !TickPast(events, p, t)
  {
  }

  lemma SilentShorter(events: seq<Event>, p: nat, t: nat, z: nat)
    requires p < t <= z <= |events| && events[p].Pinged? && SilentBetween(events, events[p].key, p, z)
    ensures SilentBetween(events, events[p].key, p, t)
  {
  }

  lemma DetectedWithin(events: seq<Event>, start: int, gap: int, p: nat, t: nat)
    requires ClockForward(events, start) && TicksEvery(events, start, gap)
    requires p < t < |events| && events[p].Pinged? && events[p].timeout > 0 && events[t].Ticked?
    requires forall m :: p < m < t && events[m].Ticked? ==> events[m].at <= Deadline(events[p])
    ensures events[t].at <= Deadline(events[p]) + gap
  {
    LastTickBeforePing(events, start, p, p);
    LastTickBounded(events, start, p, t, Deadline(events[p]));
  }

  lemma JudgedByDeadline(events: seq<Event>, p: nat, t: nat)
    requires p < t < |events| && events[p].Pinged? && events[t].Ticked? && SilentBetween(events, events[p].key, p, t)
    ensures var key := events[p].key;
      && key in KeysAt(events, t)
      && Judge(key, KeysAt(events, t)[key], events[t].at).status
         == if events[t].at > Deadline(events[p]) then Crit else OK
  {
    LastPingStands(events, p, t);
  }

  lemma SaysByDeadline(events: seq<Event>, p: nat, t: nat)
    requires p < t < |events| && events[p].Pinged? && events[t].Ticked? && SilentBetween(events, events[p].key, p, t)
    ensures Says(events, t, events[p].key, if events[t].at > Deadline(events[p]) then Crit else OK)
  {
    JudgedByDeadline(events, p, t);
  }

  // --- Alerts -------------------------------------------------------------------------------

  // The verdicts on a key at each tick that knows it, before event i.
  function Verdicts(events: seq<Event>, i: nat, key: string): seq<Result>
    requires i <= |events|
  {
    if i == 0 then []
    else
      var earlier := Verdicts(events, i - 1, key);
      if events[i - 1].Ticked? && key in KeysAt(events, i - 1)
      then earlier + [Judge(key, KeysAt(events, i - 1)[key], events[i - 1].at)]
      else earlier
  }

  lemma FindJudged(keys: Keys, now: int, out: seq<Result>, key: string)
    requires IsEvaluation(keys, now, out)
    ensures Find(out, RESULT_PREFIX + key) == if key in keys then Some(Judge(key, keys[key], now)) else None
  {
    OrderedDistinct(out);
    var c := RESULT_PREFIX + key;
    FindNone(out, c);
    assert key in keys ==> Judge(key, keys[key], now) in out;
    if Find(out, c).Some? {
      var r := Find(out, c).value;
      var k :| k in keys && r == Judge(k, keys[k], now);
      PrefixInjective(k, key);
    }
  }

  lemma {:induction false} KeysAtPrefix(events: seq<Event>, n: nat, i: nat)
    requires i <= n <= |events|
    ensures KeysAt(events[..n], i) == KeysAt(events, i)
  {
    if i > 0 { KeysAtPrefix(events, n, i - 1); }
  }

  lemma {:induction false} VerdictsPrefix(events: seq<Event>, n: nat, i: nat, key: string)
    requires i <= n <= |events|
    ensures Verdicts(events[..n], i, key) == Verdicts(events, i, key)
  {
    if i > 0 {
      VerdictsPrefix(events, n, i - 1, key);
      KeysAtPrefix(events, n, i - 1);
    }
  }

  lemma RunPrefix(events: seq<Event>, n: nat)
    requires IsRun(events) && n <= |events|
    ensures IsRun(events[..n])
  {
    forall i | 0 <= i < n && events[i].Ticked?
      ensures IsEvaluation(KeysAt(events[..n], i), events[i].at, events[i].results)
    {
      KeysAtPrefix(events, n, i);
    }
  }

  lemma RunEvaluates(events: seq<Event>, i: nat)
    requires IsRun(events) && i < |events| && events[i].Ticked?
    ensures IsEvaluation(KeysAt(events, i), events[i].at, events[i].results)
  {
  }

  lemma EvaluationDistinct(keys: Keys, now: int, out: seq<Result>)
    requires IsEvaluation(keys, now, out)
    ensures Distinct(out)
  {
    OrderedDistinct(out);
  }

  lemma {:induction false} CallsDistinct(events: seq<Event>)
    requires IsRun(events)
    ensures forall i :: 0 <= i < |CallsOf(events)| ==> Distinct(CallsOf(events)[i].results)
  {
    hide IsRun, IsEvaluation, KeysAt, Distinct;
    if events != [] {
      var n := |events| - 1;
      RunPrefix(events, n);
      CallsDistinct(events[..n]);
      if events[n].Ticked? {
        RunEvaluates(events, n);
        EvaluationDistinct(KeysAt(events, n), events[n].at, events[n].results);
      } else if events[n].Grouped? {
        RunGroups(events, n);
      }
    }
  }

  lemma RunGroups(events: seq<Event>, i: nat)
    requires IsRun(events) && i < |events| && events[i].Grouped?
    ensures Distinct(events[i].call.results) && SparesHeartbeats(events[i].call.results)
  {
  }

  lemma {:induction false} ObservedPrefix(h: History, calls: seq<Call>, i: nat, c: string)
    requires i <= |h.calls| && h.calls <= calls
    ensures ObservedSoFar(h.(calls := calls), i, c) == ObservedSoFar(h, i, c)
  {
    if i > 0 { ObservedPrefix(h, calls, i - 1, c); }
  }

  lemma AboutTick(keys: Keys, now: int, out: seq<Result>, key: string)
    requires IsEvaluation(keys, now, out)
    ensures About(out, RESULT_PREFIX + key) == if key in keys then [Judge(key, keys[key], now)] else []
    ensures out == [] ==> key !in keys
  {
    FindJudged(keys, now, out, key);
  }

  lemma AboutGroup(results: seq<Result>, key: string)
    requires SparesHeartbeats(results)
    ensures About(results, RESULT_PREFIX + key) == []
  {
    FindNone(results, RESULT_PREFIX + key);
    assert RESULT_PREFIX <= RESULT_PREFIX + key;
  }

  // What the engine observes about heartbeat:<key> is the sequence of verdicts on the key.
  lemma {:induction false} ObservedVerdicts(h: History, events: seq<Event>, key: string)
    requires IsRun(events) && h.calls == CallsOf(events)
    ensures ObservedSoFar(h, |h.calls|, RESULT_PREFIX + key) == Verdicts(events, |events|, key)
    decreases |events|
  {
    hide IsEvaluation, Judge, About, IsRun, KeysAt, Find;
    if events != [] {
      var n := |events| - 1;
      var c := RESULT_PREFIX + key;
      var g := h.(calls := CallsOf(events[..n]));
      RunPrefix(events, n);
      ObservedVerdicts(g, events[..n], key);
      VerdictsPrefix(events, n, n, key);
      ObservedPrefix(g, h.calls, |g.calls|, c);
      if events[n].Ticked? {
        RunEvaluates(events, n);
        AboutTick(KeysAt(events, n), events[n].at, events[n].results, key);
      } else if events[n].Grouped? {
        RunGroups(events, n);
        AboutGroup(events[n].call.results, key);
      }
    }
  }

  function CountOf(rs: seq<Result>, s: Status): nat {
    if rs == [] then 0
    else CountOf(rs[..|rs| - 1], s) + if rs[|rs| - 1].status == s then 1 else 0
  }

  predicate Alternates(rs: seq<Result>) {
    forall i :: 0 < i < |rs| ==> rs[i].status != rs[i - 1].status
  }

  // A reporter that hears every change and only changes: no filters, no window, never failing.
  ghost predicate HearsAll(h: History, k: nat) {
    && Separated(h.reporters) && k < |h.reporters|
    && !h.reporters[k].route.repeatAlerts && h.reporters[k].route.dedupeWindow <= 0
    && Reliable(h, h.reporters[k].name)
    && forall r :: Accepts(h.reporters[k].route, r)
  }

  lemma Listens(h: History, k: nat)
    requires HearsAll(h, k)
    ensures k < |h.reporters|
  {
  }

  lemma HearsAllIsDriven(h: History, k: nat, events: seq<Event>)
    requires IsRun(events) && h.calls == CallsOf(events) && HearsAll(h, k)
    ensures ChangeDriven(h, k)
  {
    hide IsRun, CallsOf, Distinct;
    CallsDistinct(events);
  }

  // --- What the reporter believes -----------------------------------------------------------------

  // The store the run starts from has the key at this status, and the reporter told so. A restarted
  // server forgets its keys and keeps its store.
  predicate ToldBefore(h: History, k: nat, key: string, s: Status)
    requires k < |h.reporters|
  {
    CellOf(h.start, h.reporters[k].name, RESULT_PREFIX + key).seen == Some(StatusName(s)) &&
    var told := CellOf(h.start, h.reporters[k].name, RESULT_PREFIX + key).told;
    told.Some? && told.value.status == StatusName(s)
  }

  function Telling(h: History, k: nat, key: string): Status -> bool
    requires k < |h.reporters|
  {
    s => ToldBefore(h, k, key, s)
  }

  // After these verdicts the key stands at this status: it was the last verdict or, before any, the
  // status told before.
  predicate Stands(told: Status -> bool, verdicts: seq<Result>, s: Status) {
    if verdicts == [] then told(s) else verdicts[|verdicts| - 1].status == s
  }

  // The verdicts that are news: each differs from where the key stood.
  function News(told: Status -> bool, verdicts: seq<Result>): seq<Result> {
    if verdicts == [] then []
    else
      var last := |verdicts| - 1;
      var earlier := News(told, verdicts[..last]);
      if Stands(told, verdicts[..last], verdicts[last].status) then earlier else earlier + [verdicts[last]]
  }

  lemma NewsGrow(told: Status -> bool, verdicts: seq<Result>, r: Result)
    ensures News(told, verdicts + [r])
      == if Stands(told, verdicts, r.status) then News(told, verdicts) else News(told, verdicts) + [r]
  {
    assert (verdicts + [r])[..|verdicts|] == verdicts;
  }

  lemma {:induction false} NewsAlternates(told: Status -> bool, verdicts: seq<Result>)
    ensures var news := News(told, verdicts);
      news != [] ==> verdicts != [] && news[|news| - 1].status == verdicts[|verdicts| - 1].status
    ensures Alternates(News(told, verdicts))
  {
    if verdicts != [] { NewsAlternates(told, verdicts[..|verdicts| - 1]); }
  }

  // From an empty store nothing was told before, and the news are the change points.
  lemma {:induction false} NewsFromNothing(h: History, k: nat, key: string, verdicts: seq<Result>)
    requires k < |h.reporters| && h.start == map[]
    ensures News(Telling(h, k, key), verdicts) == ChangePoints(verdicts)
  {
    if verdicts != [] { NewsFromNothing(h, k, key, verdicts[..|verdicts| - 1]); }
  }

  lemma {:induction false} AcceptedIsLastObservation(h: History, k: nat, i: nat, c: string)
    requires k < |h.reporters| && i <= |h.calls| && forall r :: Accepts(h.reporters[k].route, r)
    ensures var obs := ObservedSoFar(h, i, c);
      LastAccepted(h, k, i, c) == if obs == [] then None else Some(StatusName(obs[|obs| - 1].status))
  {
    hide Find, Accepts, StatusName, ObservedSoFar;
    if i == 0 {
      NothingObserved(h, c);
    } else {
      AcceptedIsLastObservation(h, k, i - 1, c);
      ObservedGrows(h, i - 1, c);
    }
  }

  // Such a reporter is handed an observation exactly when it is news.
  lemma HandedIsNews(h: History, k: nat, i: nat, key: string)
    requires ChangeDriven(h, k) && (forall r :: Accepts(h.reporters[k].route, r)) && i < |h.calls|
    requires h.Observed(i, RESULT_PREFIX + key).Some?
    ensures var c := RESULT_PREFIX + key;
      h.HandedAt(k, i, c) <==> !Stands(Telling(h, k, key), ObservedSoFar(h, i, c), h.Observed(i, c).value.status)
  {
    hide Step, Handed, Find, ObservedSoFar, ChangeDriven, LastAccepted;
    var c := RESULT_PREFIX + key;
    var obs, r := ObservedSoFar(h, i, c), h.Observed(i, c).value;
    assert r in h.calls[i].results && r.check == c by { FindNone(h.calls[i].results, c); }
    DrivenIsValid(h, k);
    SeenIsLastObservation(h, i, c);
    AcceptedIsLastObservation(h, k, i, c);
    TraceRefinement(h, k, i, r);
    if obs != [] { StatusNamesDiffer(obs[|obs| - 1].status, r.status); }
    assert h.LastSeen(0, c) == CellOf(h.start, h.reporters[k].name, c).seen;
  }

  lemma {:induction false} ReceivedIsNews(h: History, k: nat, i: nat, key: string)
    requires ChangeDriven(h, k) && (forall r :: Accepts(h.reporters[k].route, r)) && i <= |h.calls|
    ensures var c := RESULT_PREFIX + key;
      Received(h, k, i, c) == News(Telling(h, k, key), ObservedSoFar(h, i, c))
  {
    hide News, Received, ObservedSoFar, Stands, ChangeDriven, Accepts, History.HandedAt, History.Observed;
    var c := RESULT_PREFIX + key;
    DrivenIsValid(h, k);
    if i == 0 {
      NoNewsYet(h, k, key);
    } else {
      ReceivedIsNews(h, k, i - 1, key);
      ReceivedGrows(h, k, i - 1, c);
      ObservedGrows(h, i - 1, c);
      var f := h.Observed(i - 1, c);
      if f.Some? {
        HandedIsNews(h, k, i - 1, key);
        NewsGrow(Telling(h, k, key), ObservedSoFar(h, i - 1, c), f.value);
      } else {
        HandedOnlyObserved(h, k, i - 1, c);
      }
    }
  }

  lemma DrivenIsValid(h: History, k: nat)
    requires ChangeDriven(h, k)
    ensures h.Valid() && k < |h.reporters|
  {
  }

  lemma NoNewsYet(h: History, k: nat, key: string)
    requires k < |h.reporters|
    ensures Received(h, k, 0, RESULT_PREFIX + key) == []
    ensures News(Telling(h, k, key), ObservedSoFar(h, 0, RESULT_PREFIX + key)) == []
  {
  }

  // --- Alerts at every moment ----------------------------------------------------------------------

  lemma {:induction false} CallsPrefix(events: seq<Event>, q: nat)
    requires q <= |events|
    ensures CallsOf(events[..q]) <= CallsOf(events)
  {
    if q < |events| {
      var n := |events| - 1;
      CallsPrefix(events[..n], q);
      assert events[..n][..q] == events[..q];
    } else {
      assert events[..q] == events;
    }
  }

  // What reporter k has received about a key before event q.
  function AlertsBefore(h: History, k: nat, events: seq<Event>, q: nat, key: string): seq<Result>
    requires h.calls == CallsOf(events) && k < |h.reporters| && q <= |events|
  {
    CallsPrefix(events, q);
    Received(h, k, |CallsOf(events[..q])|, RESULT_PREFIX + key)
  }

  // The verdicts before event q are what the engine has observed by then.
  lemma ObservedByEvent(h: History, events: seq<Event>, q: nat, key: string)
    requires IsRun(events) && h.calls == CallsOf(events) && q <= |events|
    ensures |CallsOf(events[..q])| <= |h.calls|
    ensures ObservedSoFar(h, |CallsOf(events[..q])|, RESULT_PREFIX + key) == Verdicts(events, q, key)
  {
    hide IsEvaluation, IsRun;
    var g := h.(calls := CallsOf(events[..q]));
    CallsPrefix(events, q);
    RunPrefix(events, q);
    ObservedVerdicts(g, events[..q], key);
    VerdictsPrefix(events, q, q, key);
    ObservedPrefix(g, h.calls, |g.calls|, RESULT_PREFIX + key);
  }

  /** Through such a reporter the alerts about a key are, at every moment of a run from any store,
      the verdicts that are news: those that differ from the verdict before, and the first unless the
      reporter was told that very status before the run. So they strictly alternate. */
  lemma AlertsAlternate(h: History, k: nat, events: seq<Event>, q: nat, key: string)
    requires IsRun(events) && h.calls == CallsOf(events) && HearsAll(h, k) && q <= |events|
    ensures AlertsBefore(h, k, events, q, key) == News(Telling(h, k, key), Verdicts(events, q, key))
    ensures Alternates(AlertsBefore(h, k, events, q, key))
    ensures h.start == map[] ==> AlertsBefore(h, k, events, q, key) == ChangePoints(Verdicts(events, q, key))
  {
    hide IsRun, CallsOf, Received, ChangePoints, News, ChangeDriven, Accepts, Separated, Reliable;
    var verdicts := Verdicts(events, q, key);
    ObservedByEvent(h, events, q, key);
    HearsAllIsDriven(h, k, events);
    ReceivedIsNews(h, k, |CallsOf(events[..q])|, key);
    NewsAlternates(Telling(h, k, key), verdicts);
    if h.start == map[] { NewsFromNothing(h, k, key, verdicts); }
  }

  // --- Alerts, silence by silence ----------------------------------------------------------------

  predicate TicksInOrder(events: seq<Event>, p: nat, q: nat)
    requires p < q <= |events|
  {
    forall m, n :: p < m < n < q && events[m].Ticked? && events[n].Ticked? ==> events[m].at <= events[n].at
  }

  // The verdicts before event q, given those before the silence that began at p.
  predicate ExtendsThrough(told: Status -> bool, events: seq<Event>, p: nat, q: nat, before: seq<Result>, after: seq<Result>)
    requires p < q <= |events| && events[p].Pinged?
  {
    var ok, crit := TickOnTime(events, p, q), TickPast(events, p, q);
    && (crit ==> Stands(told, after, Crit) && !Stands(told, after, OK))
    && (!crit && ok ==> Stands(told, after, OK) && !Stands(told, after, Crit))
    && (!crit && !ok ==> after == before)
    && CountOf(News(told, after), Crit)
       == CountOf(News(told, before), Crit) + (if crit && (ok || !Stands(told, before, Crit)) then 1 else 0)
    && CountOf(News(told, after), OK)
       == CountOf(News(told, before), OK) + (if ok && !Stands(told, before, OK) then 1 else 0)
  }

  lemma NewsCounted(told: Status -> bool, verdicts: seq<Result>, r: Result, s: Status)
    ensures CountOf(News(told, verdicts + [r]), s)
      == CountOf(News(told, verdicts), s) + (if r.status == s && !Stands(told, verdicts, s) then 1 else 0)
    ensures Stands(told, verdicts + [r], s) <==> r.status == s
  {
    NewsGrow(told, verdicts, r);
    var news := News(told, verdicts);
    assert (news + [r])[..|news|] == news;
  }

  // The tick at event q adds its verdict.
  lemma TickExtends(told: Status -> bool, events: seq<Event>, p: nat, q: nat, before: seq<Result>, after: seq<Result>,
                    r: Result)
    requires p < q < |events| && events[p].Pinged? && events[q].Ticked? && TicksInOrder(events, p, q + 1)
    requires r.status == if events[q].at > Deadline(events[p]) then Crit else OK
    requires ExtendsThrough(told, events, p, q, before, after)
    ensures ExtendsThrough(told, events, p, q + 1, before, after + [r])
  {
    hide News, CountOf, Stands;
    NewsCounted(told, after, r, Crit);
    NewsCounted(told, after, r, OK);
    assert TickPast(events, p, q + 1) <==> TickPast(events, p, q) || r.status == Crit;
    assert TickOnTime(events, p, q + 1) <==> TickOnTime(events, p, q) || r.status == OK;
  }

  lemma {:induction false} SilenceExtends(told: Status -> bool, events: seq<Event>, p: nat, q: nat)
    requires p < q <= |events| && events[p].Pinged? && SilentBetween(events, events[p].key, p, q)
    requires TicksInOrder(events, p, q)
    ensures var key := events[p].key;
      ExtendsThrough(told, events, p, q, Verdicts(events, p, key), Verdicts(events, q, key))
    decreases q
  {
    hide Judge, CountOf, News, Stands, ExtendsThrough, KeysAt;
    var key := events[p].key;
    if q == p + 1 {
      SilenceBegins(told, events, p);
    } else {
      SilenceExtends(told, events, p, q - 1);
      if events[q - 1].Ticked? {
        JudgedByDeadline(events, p, q - 1);
        var r := Judge(key, KeysAt(events, q - 1)[key], events[q - 1].at);
        TickExtends(told, events, p, q - 1, Verdicts(events, p, key), Verdicts(events, q - 1, key), r);
      } else {
        NoTickExtends(told, events, p, q - 1, Verdicts(events, p, key), Verdicts(events, q - 1, key));
      }
    }
  }

  lemma SilenceBegins(told: Status -> bool, events: seq<Event>, p: nat)
    requires p < |events| && events[p].Pinged?
    ensures var key := events[p].key;
      ExtendsThrough(told, events, p, p + 1, Verdicts(events, p, key), Verdicts(events, p + 1, key))
  {
    hide Judge, CountOf, News;
  }

  // A ping of another key, or a group's report, adds nothing.
  lemma NoTickExtends(told: Status -> bool, events: seq<Event>, p: nat, q: nat, before: seq<Result>, after: seq<Result>)
    requires p < q < |events| && events[p].Pinged? && !events[q].Ticked?
    requires ExtendsThrough(told, events, p, q, before, after)
    ensures ExtendsThrough(told, events, p, q + 1, before, after)
  {
    hide CountOf, News, Stands;
    assert TickPast(events, p, q + 1) <==> TickPast(events, p, q);
    assert TickOnTime(events, p, q + 1) <==> TickOnTime(events, p, q);
  }

  /** One alert per outage and one per recovery, and when there is none. While a key pinged at p is
      silent until q, its crit alerts grow by one exactly if a tick comes past the deadline and the
      client did not look dead already: a tick came before the deadline, or the key did not stand at
      crit before the ping. Its ok alerts grow by one exactly if a tick comes before the deadline and
      the key did not stand at ok before the ping. */
  lemma OneAlertPerSilence(h: History, k: nat, events: seq<Event>, p: nat, q: nat)
    requires IsRun(events) && h.calls == CallsOf(events) && HearsAll(h, k)
    requires p < q <= |events| && events[p].Pinged? && SilentBetween(events, events[p].key, p, q)
    requires TicksInOrder(events, p, q)
    ensures var key := events[p].key;
      var told, verdicts := Telling(h, k, key), Verdicts(events, p, key);
      var before, after := AlertsBefore(h, k, events, p, key), AlertsBefore(h, k, events, q, key);
      var ok, crit := TickOnTime(events, p, q), TickPast(events, p, q);
      && CountOf(after, Crit) == CountOf(before, Crit) + (if crit && (ok || !Stands(told, verdicts, Crit)) then 1 else 0)
      && CountOf(after, OK) == CountOf(before, OK) + (if ok && !Stands(told, verdicts, OK) then 1 else 0)
  {
    hide IsRun, CallsOf, HearsAll, Received, Verdicts, News, Stands, CountOf, TickOnTime, TickPast, SilentBetween, TicksInOrder;
    hide AlertsBefore;
    AlertsAlternate(h, k, events, p, events[p].key);
    AlertsAlternate(h, k, events, q, events[p].key);
    Listens(h, k);
    SilenceExtends(Telling(h, k, events[p].key), events, p, q);
  }

  // --- The tick that detects ---------------------------------------------------------------------

  // Where the call of tick t stands among the run's calls.
  lemma {:induction false} CallOfTick(events: seq<Event>, n: nat, t: nat)
    requires t < n <= |events| && events[t].Ticked? && events[t].results != []
    ensures var calls := CallsOf(events[..n]);
      && |CallsOf(events[..t])| < |calls|
      && CallsOf(events[..t]) <= calls
      && calls[|CallsOf(events[..t])|] == Call(events[t].results, events[t].reportedAt, events[t].deliver)
    decreases n
  {
    assert events[..n][..n - 1] == events[..n - 1];
    if t < n - 1 { CallOfTick(events, n - 1, t); }
  }

  lemma CallAtTick(h: History, events: seq<Event>, t: nat)
    requires h.calls == CallsOf(events) && t < |events| && events[t].Ticked? && events[t].results != []
    ensures |CallsOf(events[..t])| < |h.calls|
    ensures h.calls[|CallsOf(events[..t])|].results == events[t].results
  {
    assert events[..|events|] == events;
    CallOfTick(events, |events|, t);
  }

  // A tick hands over its verdict on a key exactly when it is news.
  lemma TickAlerts(h: History, k: nat, events: seq<Event>, t: nat, key: string)
    requires IsRun(events) && h.calls == CallsOf(events) && HearsAll(h, k)
    requires t < |events| && events[t].Ticked? && key in KeysAt(events, t)
    ensures var n, c := |CallsOf(events[..t])|, RESULT_PREFIX + key;
      var r := Judge(key, KeysAt(events, t)[key], events[t].at);
      && n < |h.calls| && h.Observed(n, c) == Some(r)
      && (h.HandedAt(k, n, c) <==> !Stands(Telling(h, k, key), Verdicts(events, t, key), r.status))
  {
    hide IsEvaluation, Handed, Step, CallsOf, Judge, Verdicts, ObservedSoFar, Stands, Accepts, Separated, Reliable;
    hide KeysAt, ChangeDriven, Find, History.HandedAt;
    var n, c := |CallsOf(events[..t])|, RESULT_PREFIX + key;
    RunEvaluates(events, t);
    FindJudged(KeysAt(events, t), events[t].at, events[t].results, key);
    TickFindsKeys(KeysAt(events, t), events[t].at, events[t].results, key);
    CallAtTick(h, events, t);
    ObservedByEvent(h, events, t, key);
    HearsAllIsDriven(h, k, events);
    HandedIsNews(h, k, n, key);
  }

  lemma TickFindsKeys(keys: Keys, now: int, out: seq<Result>, key: string)
    requires IsEvaluation(keys, now, out) && key in keys
    ensures out != []
  {
  }

  /** The whole path. The tick that detects an outage comes in (L + d, L + d + gap], and it hands the
      crit to the reporter exactly if a tick came before the deadline or the key did not stand at crit
      before the ping. */
  lemma OutageAlerted(h: History, k: nat, events: seq<Event>, start: int, gap: int, p: nat, z: nat) returns (t: nat)
    requires IsRun(events) && ClockForward(events, start) && TicksEvery(events, start, gap)
    requires h.calls == CallsOf(events) && HearsAll(h, k)
    requires p < z < |events| && events[p].Pinged? && SilentBetween(events, events[p].key, p, z)
    requires events[z].Ticked? && events[z].at > Deadline(events[p])
    ensures p < t <= z && Says(events, t, events[p].key, Crit)
    ensures Deadline(events[p]) < events[t].at <= Deadline(events[p]) + gap
    ensures forall m :: p < m < t && events[m].Ticked? ==> Says(events, m, events[p].key, OK)
    ensures var key := events[p].key;
      var n, c := |CallsOf(events[..t])|, RESULT_PREFIX + key;
      && n < |h.calls| && h.Observed(n, c).Some? && h.Observed(n, c).value.status == Crit
      && (h.HandedAt(k, n, c) <==> TickOnTime(events, p, t) || !Stands(Telling(h, k, key), Verdicts(events, p, key), Crit))
    ensures gap <= events[p].timeout ==> TickOnTime(events, p, t)
  {
    hide IsRun, CallsOf, HearsAll, Judge, Verdicts, Stands, TickOnTime, TickPast, ClockForward, TicksEvery, SilentBetween;
    hide Step, Handed, Find, KeysAt, History.HandedAt;
    t := OutageDetected(events, start, gap, p, z);
    TickAlerts(h, k, events, t, events[p].key);
    SilentShorter(events, p, t, z);
    Listens(h, k);
    VerdictBeforeLate(Telling(h, k, events[p].key), events, p, t);
    if gap <= events[p].timeout { FrequentTicksAreOnTime(events, start, gap, p, t); }
  }

  // As long as every tick is on time, the last verdict is ok, or still the one before the ping.
  lemma {:induction false} VerdictBeforeLate(told: Status -> bool, events: seq<Event>, p: nat, t: nat)
    requires p < t <= |events| && events[p].Pinged? && SilentBetween(events, events[p].key, p, t)
    requires !TickPast(events, p, t)
    ensures var key := events[p].key;
      Stands(told, Verdicts(events, t, key), Crit) <==> !TickOnTime(events, p, t) && Stands(told, Verdicts(events, p, key), Crit)
    decreases t
  {
    hide Judge;
    if t > p + 1 {
      VerdictBeforeLate(told, events, p, t - 1);
      if events[t - 1].Ticked? { JudgedByDeadline(events, p, t - 1); }
    }
  }

  // Ticks at least as frequent as the timeout never miss the time before the deadline.
  lemma FrequentTicksAreOnTime(events: seq<Event>, start: int, gap: int, p: nat, t: nat)
    requires ClockForward(events, start) && TicksEvery(events, start, gap)
    requires p < t < |events| && events[p].Pinged? && events[t].Ticked? && events[t].at > Deadline(events[p])
    requires gap <= events[p].timeout && !TickPast(events, p, t)
    ensures TickOnTime(events, p, t)
  {
    if forall m :: p < m < t ==> !events[m].Ticked? {
      LastTickBeforePing(events, start, p, p);
      LastTickBounded(events, start, p, t, events[p].at);
    }
  }

  // A client with timeout d is dead at the first tick, pings, and is dead again at the second.
  function TwoOutages(key: string, d: int, gap: int): seq<Event> {
    var arrive := (name: string, slice: seq<Result>) => Delivered;
    [Pinged(key, d, 0), Ticked(gap, gap, [Judge(key, Beat(0, d), gap)], arrive),
     Pinged(key, d, gap), Ticked(2 * gap, 2 * gap, [Judge(key, Beat(gap, d), 2 * gap)], arrive)]
  }

  lemma TwoOutagesRun(key: string, d: int, gap: int)
    requires 0 < d < gap
    ensures IsRun(TwoOutages(key, d, gap)) && TicksEvery(TwoOutages(key, d, gap), 0, gap)
  {
    var events := TwoOutages(key, d, gap);
    hide Judge, IsEvaluation;
    assert KeysAt(events, 0) == map[] && LastTickAt(events, 0, 0) == 0;
    assert KeysAt(events, 1) == map[key := Beat(0, d)] && LastTickAt(events, 1, 0) == 0;
    assert KeysAt(events, 2) == map[key := Beat(0, d)] && LastTickAt(events, 2, 0) == gap;
    assert KeysAt(events, 3) == map[key := Beat(gap, d)] && LastTickAt(events, 3, 0) == gap;
    EvaluatesOne(key, Beat(0, d), gap);
    EvaluatesOne(key, Beat(gap, d), 2 * gap);
  }

  lemma EvaluatesOne(key: string, beat: Beat, now: int)
    ensures IsEvaluation(map[key := beat], now, [Judge(key, beat, now)])
  {
    var keys: Keys := map[key := beat];
    assert key in keys && [Judge(key, beat, now)][0] == Judge(key, keys[key], now);
  }

  /** The documentation's "one crit per outage" fails for every timeout below the tick gap: the ping
      between two ticks goes unevaluated and the second outage is no change. */
  lemma SecondOutageUnalerted(key: string, d: int, gap: int, name: string) returns (h: History)
    requires 0 < d < gap
    ensures var events := TwoOutages(key, d, gap);
      && IsRun(events) && ClockForward(events, 0) && TicksEvery(events, 0, gap)
      && |h.reporters| == 1 && h.calls == CallsOf(events) && |h.calls| == 2 && HearsAll(h, 0)
      && Says(events, 1, key, Crit) && h.HandedAt(0, 0, RESULT_PREFIX + key)
      && Says(events, 3, key, Crit) && !h.HandedAt(0, 1, RESULT_PREFIX + key)
  {
    hide Handed, Step, CallsOf, Verdicts, IsEvaluation, Find;
    var events := TwoOutages(key, d, gap);
    var calls := CallsOf(events);
    h := History(map[], [BoundReporter(name, Route(OK, [], [], false, false, 0))], calls);
    TwoOutagesRun(key, d, gap);
    TwoOutagesCalls(key, d, gap);
    TickAlerts(h, 0, events, 1, key);
    TickAlerts(h, 0, events, 3, key);
  }

  lemma TwoOutagesCalls(key: string, d: int, gap: int)
    requires 0 < d < gap
    ensures var events := TwoOutages(key, d, gap);
      && |CallsOf(events[..1])| == 0 && |CallsOf(events[..3])| == 1 && |CallsOf(events)| == 2
      && (forall i, name, slice :: 0 <= i < |CallsOf(events)| ==> CallsOf(events)[i].deliver(name, slice) == Delivered)
      && Verdicts(events, 1, key) == [] && |Verdicts(events, 3, key)| == 1 && Verdicts(events, 3, key)[0].status == Crit
  {
    hide Judge;
    var events := TwoOutages(key, d, gap);
    assert events[..1][..0] == [] && events[..3][..2][..1] == events[..1] && events[..3][..2] == events[..2];
    assert events[..|events| - 1] == events[..3] && events[..2][..1] == events[..1];
    assert KeysAt(events, 0) == map[];
    assert KeysAt(events, 1) == map[key := Beat(0, d)];
    assert KeysAt(events, 2) == map[key := Beat(0, d)];
    assert Verdicts(events, 0, key) == [];
    assert Verdicts(events, 1, key) == [];
    assert Verdicts(events, 2, key) == [Judge(key, Beat(0, d), gap)];
    assert Judge(key, Beat(0, d), gap).status == Crit by { JudgeLate(key, Beat(0, d), gap); }
  }

  lemma JudgeLate(key: string, beat: Beat, now: int)
    ensures Judge(key, beat, now).status == Crit <==> now - beat.lastSeen > beat.timeout
  {
  }
}
