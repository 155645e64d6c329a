/** The daemon end to end: pings, schedule groups and heartbeat evaluations over one store, retold as
    one run (internal/scheduler/scheduler.go, internal/heartbeat/heartbeat.go). */
module Chronicle {
  import opened Text
  import opened Check
  import opened State
  import opened Heartbeat
  import opened Scheduler
  import opened Engine
  import opened EngineFacts
  import opened Histories
  import opened Serializability
  import opened Outage
  import opened Daemon

  // --- The retelling ----------------------------------------------------------------------------

  // The pings a heartbeat job has heard, or the number for a moment outside the schedule.
  function HeardBy(pings: Pings, job: Job): nat
    requires job.HeartbeatJob?
  {
    if job.moment < |pings.heard| then pings.heard[job.moment] else |pings.log|
  }

  // The pings heard by the last heartbeat job of the order.
  function Told(pings: Pings, jobs: seq<Job>, order: seq<nat>): nat
    requires Runs(order, |jobs|)
  {
    if order == [] then 0
    else
      var last := |order| - 1;
      if jobs[order[last]].HeartbeatJob? then HeardBy(pings, jobs[order[last]]) else Told(pings, jobs, order[..last])
  }

  function PingEvents(log: seq<Record>, a: nat, b: nat): seq<Event> {
    if a < b <= |log|
    then PingEvents(log, a, b - 1) + [Pinged(log[b - 1].key, log[b - 1].timeout, log[b - 1].at)]
    else []
  }

  // The reports in this order, every ping before the first evaluation that heard it.
  function Reports(pings: Pings, jobs: seq<Job>, calls: seq<Call>, order: seq<nat>): seq<Event>
    requires Runs(order, |jobs|) && |jobs| == |calls|
  {
    if order == [] then []
    else
      var last := |order| - 1;
      var job, call, earlier := jobs[order[last]], calls[order[last]], Reports(pings, jobs, calls, order[..last]);
      match job
      case GroupJob(_, _) => earlier + [Grouped(call)]
      case HeartbeatJob(_, at) =>
        earlier + PingEvents(pings.log, Told(pings, jobs, order[..last]), HeardBy(pings, job))
          + [Ticked(at, call.now, call.results, call.deliver)]
  }

  // With the pings no evaluation heard.
  function Retold(pings: Pings, jobs: seq<Job>, calls: seq<Call>, order: seq<nat>): seq<Event>
    requires Runs(order, |jobs|) && |jobs| == |calls|
  {
    Reports(pings, jobs, calls, order) + PingEvents(pings.log, Told(pings, jobs, order), |pings.log|)
  }

  function PingsOf(events: seq<Event>): seq<Record> {
    if events == [] then []
    else
      var last := |events| - 1;
      match events[last]
      case Pinged(key, timeout, at) => PingsOf(events[..last]) + [Record(key, timeout, at)]
      case _ => PingsOf(events[..last])
  }

  // --- It is a run ------------------------------------------------------------------------------

  // These events are a run that has made these calls and heard these pings.
  ghost predicate Tells(events: seq<Event>, calls: seq<Call>, log: seq<Record>) {
    && IsRun(events) && CallsOf(events) == calls && PingsOf(events) == log
    && KeysAt(events, |events|) == Recorded(log)
  }

  lemma TellsNothing()
    ensures Tells([], [], [])
  {
  }

  lemma RunGrows(events: seq<Event>, e: Event)
    requires IsRun(events)
    requires e.Pinged? ==> e.timeout > 0
    requires e.Ticked? ==> IsEvaluation(KeysAt(events, |events|), e.at, e.results)
    requires e.Grouped? ==> Distinct(e.call.results) && SparesHeartbeats(e.call.results)
    ensures IsRun(events + [e])
    ensures KeysAt(events + [e], |events|) == KeysAt(events, |events|)
  {
    hide IsEvaluation, Distinct, SparesHeartbeats;
    var more := events + [e];
    assert more[..|events|] == events;
    forall i: nat | i <= |events| ensures KeysAt(more, i) == KeysAt(events, i) {
      KeysAtPrefix(more, |events|, i);
    }
  }

  lemma TellsPing(events: seq<Event>, calls: seq<Call>, log: seq<Record>, r: Record)
    requires Tells(events, calls, log) && r.timeout > 0
    ensures Tells(events + [Pinged(r.key, r.timeout, r.at)], calls, log + [r])
  {
    hide IsRun;
    var e := Pinged(r.key, r.timeout, r.at);
    RunGrows(events, e);
    assert (events + [e])[..|events|] == events && (log + [r])[..|log|] == log;
  }

  lemma TellsTick(events: seq<Event>, calls: seq<Call>, log: seq<Record>, at: int, call: Call)
    requires Tells(events, calls, log) && call.results != [] && IsEvaluation(Recorded(log), at, call.results)
    ensures Tells(events + [Ticked(at, call.now, call.results, call.deliver)], calls + [call], log)
  {
    hide IsRun, IsEvaluation;
    var e := Ticked(at, call.now, call.results, call.deliver);
    RunGrows(events, e);
    assert (events + [e])[..|events|] == events;
  }

  lemma TellsGroup(events: seq<Event>, calls: seq<Call>, log: seq<Record>, call: Call)
    requires Tells(events, calls, log) && Distinct(call.results) && SparesHeartbeats(call.results)
    ensures Tells(events + [Grouped(call)], calls + [call], log)
  {
    hide IsRun, Distinct, SparesHeartbeats;
    var e := Grouped(call);
    RunGrows(events, e);
    assert (events + [e])[..|events|] == events;
  }

  lemma {:induction false} TellsPings(events: seq<Event>, calls: seq<Call>, log: seq<Record>, a: nat, b: nat)
    requires a <= b <= |log| && Tells(events, calls, log[..a])
    requires forall i :: 0 <= i < |log| ==> log[i].timeout > 0
    ensures Tells(events + PingEvents(log, a, b), calls, log[..b])
  {
    hide Tells;
    if a < b {
      TellsPings(events, calls, log, a, b - 1);
      TellsPing(events + PingEvents(log, a, b - 1), calls, log[..b - 1], log[b - 1]);
      assert log[..b - 1] + [log[b - 1]] == log[..b];
      assert events + PingEvents(log, a, b)
        == events + PingEvents(log, a, b - 1) + [Pinged(log[b - 1].key, log[b - 1].timeout, log[b - 1].at)];
    } else {
      assert events + PingEvents(log, a, b) == events;
    }
  }

  // Later evaluations have heard at least what earlier ones have.
  predicate HeardInTurn(pings: Pings, jobs: seq<Job>, order: seq<nat>)
    requires Runs(order, |jobs|)
  {
    && (forall p :: 0 <= p < |order| && jobs[order[p]].HeartbeatJob? ==>
         jobs[order[p]].moment < |pings.heard| && HeardBy(pings, jobs[order[p]]) <= |pings.log|)
    && (forall p, q :: 0 <= p < q < |order| && jobs[order[p]].HeartbeatJob? && jobs[order[q]].HeartbeatJob? ==>
         HeardBy(pings, jobs[order[p]]) <= HeardBy(pings, jobs[order[q]]))
  }

  lemma {:induction false} ToldEarlier(pings: Pings, jobs: seq<Job>, order: seq<nat>, n: nat, m: nat)
    requires Runs(order, |jobs|) && HeardInTurn(pings, jobs, order) && n <= m <= |order|
    ensures Told(pings, jobs, order[..n]) <= |pings.log|
    ensures m < |order| && jobs[order[m]].HeartbeatJob? ==> Told(pings, jobs, order[..n]) <= HeardBy(pings, jobs[order[m]])
    decreases n
  {
    hide HeardBy;
    if n > 0 {
      assert order[..n][..n - 1] == order[..n - 1];
      ToldEarlier(pings, jobs, order, n - 1, m);
    }
  }

  // The calls of the reports made so far.
  function CallsInOrder(calls: seq<Call>, order: seq<nat>): seq<Call>
    requires Runs(order, |calls|)
  {
    seq(|order|, p requires 0 <= p < |order| => calls[order[p]])
  }

  // The reports so far, with the pings they heard, are a run.
  ghost predicate ToldSoFar(pings: Pings, jobs: seq<Job>, calls: seq<Call>, order: seq<nat>)
    requires Runs(order, |jobs|) && |jobs| == |calls|
  {
    var told := Told(pings, jobs, order);
    told <= |pings.log| && Tells(Reports(pings, jobs, calls, order), CallsInOrder(calls, order), pings.log[..told])
  }

  lemma GroupTold(pings: Pings, jobs: seq<Job>, calls: seq<Call>, order: seq<nat>, t: nat)
    requires Runs(order, |jobs|) && |jobs| == |calls| && t < |jobs| && jobs[t].GroupJob?
    requires ToldSoFar(pings, jobs, calls, order)
    requires Distinct(calls[t].results) && SparesHeartbeats(calls[t].results)
    ensures ToldSoFar(pings, jobs, calls, order + [t])
  {
    hide Tells, Recorded, Distinct, SparesHeartbeats;
    assert (order + [t])[..|order|] == order;
    assert CallsInOrder(calls, order + [t]) == CallsInOrder(calls, order) + [calls[t]];
    TellsGroup(Reports(pings, jobs, calls, order), CallsInOrder(calls, order), pings.log[..Told(pings, jobs, order)], calls[t]);
  }

  lemma ReportsGrow(pings: Pings, jobs: seq<Job>, calls: seq<Call>, order: seq<nat>, t: nat)
    requires Runs(order, |jobs|) && |jobs| == |calls| && t < |jobs| && jobs[t].HeartbeatJob?
    ensures Told(pings, jobs, order + [t]) == HeardBy(pings, jobs[t])
    ensures Reports(pings, jobs, calls, order + [t])
      == Reports(pings, jobs, calls, order) + PingEvents(pings.log, Told(pings, jobs, order), HeardBy(pings, jobs[t]))
         + [Ticked(jobs[t].at, calls[t].now, calls[t].results, calls[t].deliver)]
  {
    hide HeardBy, PingEvents;
    assert (order + [t])[..|order|] == order;
  }

  lemma HeartbeatTold(pings: Pings, jobs: seq<Job>, calls: seq<Call>, order: seq<nat>, t: nat)
    requires Runs(order, |jobs|) && |jobs| == |calls| && t < |jobs| && jobs[t].HeartbeatJob?
    requires ToldSoFar(pings, jobs, calls, order)
    requires Told(pings, jobs, order) <= HeardBy(pings, jobs[t]) <= |pings.log|
    requires forall i :: 0 <= i < |pings.log| ==> pings.log[i].timeout > 0
    requires calls[t].results != []
    requires IsEvaluation(Recorded(pings.log[..HeardBy(pings, jobs[t])]), jobs[t].at, calls[t].results)
    ensures ToldSoFar(pings, jobs, calls, order + [t])
  {
    hide Tells, Recorded, IsEvaluation, HeardBy, Reports, Told;
    ReportsGrow(pings, jobs, calls, order, t);
    var told, heard := Told(pings, jobs, order), HeardBy(pings, jobs[t]);
    var events, made := Reports(pings, jobs, calls, order), CallsInOrder(calls, order);
    assert CallsInOrder(calls, order + [t]) == made + [calls[t]];
    TellsPings(events, made, pings.log, told, heard);
    TellsTick(events + PingEvents(pings.log, told, heard), made, pings.log[..heard], jobs[t].at, calls[t]);
  }

  lemma JobEvaluates(checks: seq<BoundCheck>, groups: map<string, seq<string>>, pings: Pings, jobs: seq<Job>,
                     calls: seq<Call>, t: nat)
    requires DaemonCalls(checks, groups, pings, jobs, calls) && t < |jobs| && jobs[t].HeartbeatJob?
    ensures HeardBy(pings, jobs[t]) <= |pings.log| && calls[t].results != []
    ensures IsEvaluation(Recorded(pings.log[..HeardBy(pings, jobs[t])]), jobs[t].at, calls[t].results)
    ensures forall i :: 0 <= i < |pings.log| ==> pings.log[i].timeout > 0
  {
    hide IsEvaluation, Recorded;
    assert IsReportOf(checks, groups, pings, jobs[t], calls[t].results);
  }

  lemma {:induction false} AllTold(checks: seq<BoundCheck>, groups: map<string, seq<string>>, pings: Pings,
                                   jobs: seq<Job>, calls: seq<Call>, order: seq<nat>, n: nat)
    requires DaemonCalls(checks, groups, pings, jobs, calls) && |jobs| == |calls|
    requires Runs(order, |jobs|) && HeardInTurn(pings, jobs, order) && n <= |order|
    ensures ToldSoFar(pings, jobs, calls, order[..n])
  {
    hide HeardInTurn, DaemonCalls, ToldSoFar, IsEvaluation, Recorded, HeardBy, Told, Distinct, SparesHeartbeats;
    if n == 0 {
      NothingTold(pings, jobs, calls);
    } else {
      var t := order[n - 1];
      AllTold(checks, groups, pings, jobs, calls, order, n - 1);
      assert order[..n] == order[..n - 1] + [t];
      JobsDistinct(checks, groups, pings, jobs, calls, t);
      if jobs[t].GroupJob? {
        GroupTold(pings, jobs, calls, order[..n - 1], t);
      } else {
        ToldEarlier(pings, jobs, order, n - 1, n - 1);
        JobEvaluates(checks, groups, pings, jobs, calls, t);
        HeartbeatTold(pings, jobs, calls, order[..n - 1], t);
      }
    }
  }

  lemma NothingTold(pings: Pings, jobs: seq<Job>, calls: seq<Call>)
    requires |jobs| == |calls|
    ensures ToldSoFar(pings, jobs, calls, [])
  {
    TellsNothing();
    assert CallsInOrder(calls, []) == [] && pings.log[..0] == [];
  }

  lemma RetoldTells(checks: seq<BoundCheck>, groups: map<string, seq<string>>, pings: Pings, jobs: seq<Job>,
                    calls: seq<Call>, order: seq<nat>)
    requires DaemonCalls(checks, groups, pings, jobs, calls) && |jobs| == |calls|
    requires Runs(order, |jobs|) && HeardInTurn(pings, jobs, order)
    ensures Tells(Retold(pings, jobs, calls, order), CallsInOrder(calls, order), pings.log)
  {
    hide HeardInTurn, Tells, IsReportOf, IsGrouping, UniqueNames;
    AllTold(checks, groups, pings, jobs, calls, order, |order|);
    assert order[..|order|] == order && pings.log[..|pings.log|] == pings.log;
    TellsPings(Reports(pings, jobs, calls, order), CallsInOrder(calls, order), pings.log, Told(pings, jobs, order), |pings.log|);
  }

  // --- The daemon is such a run -------------------------------------------------------------------

  // Evaluations that take turns have heard the pings in the order in which their reports finish.
  lemma EvaluationsInTurn(checks: seq<BoundCheck>, groups: map<string, seq<string>>, pings: Pings, jobs: seq<Job>,
                          calls: seq<Call>, reps: seq<BoundReporter>, mem: Entries, schedule: seq<nat>)
    requires DaemonCalls(checks, groups, pings, jobs, calls) && Runs(schedule, |calls|)
    requires EvaluatesInTurn(jobs, reps, calls, mem, mem, schedule)
    ensures HeardInTurn(pings, jobs, Completions(reps, calls, mem, mem, schedule))
  {
    hide Exec, Completions, IsGrouping, UniqueNames, NamesReserved, GroupRun, IsEvaluation;
    var order := Completions(reps, calls, mem, mem, schedule);
    CompletionsAreDone(reps, calls, mem, mem, schedule);
    forall p | 0 <= p < |order| && jobs[order[p]].HeartbeatJob?
      ensures jobs[order[p]].moment < |pings.heard| && HeardBy(pings, jobs[order[p]]) <= |pings.log|
    {
      assert IsReportOf(checks, groups, pings, jobs[order[p]], calls[order[p]].results);
    }
    forall p, q | 0 <= p < q < |order| && jobs[order[p]].HeartbeatJob? && jobs[order[q]].HeartbeatJob?
      ensures HeardBy(pings, jobs[order[p]]) <= HeardBy(pings, jobs[order[q]])
    {
      var t, u := order[p], order[q];
      NotBefore(order, p, q);
      if jobs[u].moment <= jobs[t].moment {
        DoneBefore(reps, calls, mem, mem, schedule, jobs[t].moment, u, t);
      }
    }
  }

  lemma NotBefore(order: seq<nat>, p: nat, q: nat)
    requires p < q < |order| && forall i, j :: 0 <= i < j < |order| ==> order[i] != order[j]
    ensures !Before(order, order[q], order[p])
  {
    forall i | 0 <= i < |order| && order[i] == order[q] ensures order[p] in order[..i + 1] {
      assert i == q && order[..i + 1][p] == order[p];
    }
  }

  // A daemon from its start to the end of its last job.
  ghost predicate DaemonLife(checks: seq<BoundCheck>, groups: map<string, seq<string>>, pings: Pings, jobs: seq<Job>,
                             calls: seq<Call>, reps: seq<BoundReporter>, mem: Entries, schedule: seq<nat>)
  {
    && DaemonCalls(checks, groups, pings, jobs, calls) && Separated(reps) && Runs(schedule, |calls|)
    && NoJobOverlapsItself(jobs, reps, calls, mem, mem, schedule)
    && EvaluatesInTurn(jobs, reps, calls, mem, mem, schedule)
    && AllDone(Exec(reps, calls, mem, mem, schedule))
  }

  /** A daemon's whole life is a run: schedule groups, heartbeat evaluations and pings, interleaved in
      any way, no job overlapping itself. Read in the order of completion its reports are the calls of
      a run that heard exactly these pings, and every slice handed out is that run's. So whatever
      holds of runs, of detection, alternation and alerts, holds of the daemon. */
  lemma DaemonIsRun(checks: seq<BoundCheck>, groups: map<string, seq<string>>, pings: Pings, jobs: seq<Job>,
                    calls: seq<Call>, reps: seq<BoundReporter>, mem: Entries, schedule: seq<nat>)
    requires DaemonLife(checks, groups, pings, jobs, calls, reps, mem, schedule)
    ensures var s, order := Exec(reps, calls, mem, mem, schedule), Completions(reps, calls, mem, mem, schedule);
      var h, events := InOrder(mem, reps, calls, order), Retold(pings, jobs, calls, order);
      && IsOrder(order, |calls|) && (forall t: nat :: t < |calls| ==> t in order)
      && Tells(events, h.calls, pings.log)
      && h.Valid() && s.mem == h.At(|h.calls|) && s.disk == s.mem && HandsOut(h, s, order)
  {
    hide DaemonCalls, NoJobOverlapsItself, EvaluatesInTurn, Exec, Completions, Separated, Tells, HandsOut, History.At, HeardInTurn, AllDone;
    DaemonIsHistory(checks, groups, pings, jobs, calls, reps, mem, schedule);
    SameSize(checks, groups, pings, jobs, calls);
    EvaluationsInTurn(checks, groups, pings, jobs, calls, reps, mem, schedule);
    RetoldTells(checks, groups, pings, jobs, calls, Completions(reps, calls, mem, mem, schedule));
  }

  // A goroutine's slices, found in the history and in the execution.
  lemma SlicesMeet(h: History, s: System, calls: seq<Call>, order: seq<nat>, n: nat, k: nat, c: string)
    requires Runs(order, |calls|) && h.calls == CallsInOrder(calls, order) && HandsOut(h, s, order)
    requires n < |h.calls| && k < |h.reporters|
    ensures var g, found := order[n], Find(calls[order[n]].results, c);
      && g < |s.locals| && |s.locals[g].handed| == |h.reporters| && h.Observed(n, c) == found
      && (h.HandedAt(k, n, c) <==> found.Some? && found.value in s.locals[g].handed[k])
  {
    hide Handed, Find, Step;
    assert h.calls[n] == calls[order[n]];
  }

  /** The same with the outage theorem applied: in a daemon that ticks at most `gap` apart, whatever its
      groups do meanwhile, a key pinged at L with timeout d and then silent is reported crit to a
      reporter that hears everything by the evaluation in (L + d, L + d + gap], exactly if a tick came
      before the deadline or the key did not stand at crit before the ping. */
  lemma DaemonAlertsOutage(checks: seq<BoundCheck>, groups: map<string, seq<string>>, pings: Pings, jobs: seq<Job>,
                           calls: seq<Call>, reps: seq<BoundReporter>, mem: Entries, schedule: seq<nat>,
                           h: History, events: seq<Event>, k: nat, start: int, gap: int, p: nat, z: nat)
    returns (t: nat, g: nat)
    requires DaemonLife(checks, groups, pings, jobs, calls, reps, mem, schedule) && |jobs| == |calls| && Runs(schedule, |calls|)
    requires var order := Completions(reps, calls, mem, mem, schedule);
      h == InOrder(mem, reps, calls, order) && events == Retold(pings, jobs, calls, order)
    requires HearsAll(h, k) && ClockForward(events, start) && TicksEvery(events, start, gap)
    requires p < z < |events| && events[p].Pinged? && SilentBetween(events, events[p].key, p, z)
    requires events[z].Ticked? && events[z].at > Deadline(events[p])
    ensures p < t <= z && Says(events, t, events[p].key, Crit)
    ensures Deadline(events[p]) < events[t].at <= Deadline(events[p]) + gap
    ensures g < |calls| && k < |reps| && |Exec(reps, calls, mem, mem, schedule).locals[g].handed| == |reps|
    ensures var key := events[p].key;
      var alert, handed := Find(calls[g].results, RESULT_PREFIX + key), Exec(reps, calls, mem, mem, schedule).locals[g].handed;
      && alert.Some? && alert.value.status == Crit
      && (alert.value in handed[k]
          <==> TickOnTime(events, p, t) || !Stands(Telling(h, k, key), Verdicts(events, p, key), Crit))
  {
    hide DaemonLife, Exec, Completions, IsRun, CallsOf, HearsAll, ClockForward, HandsOut, History.Valid, History.At;
    hide TicksEvery, SilentBetween, Says, Stands, Verdicts, TickOnTime, Find, Retold, History.HandedAt, History.Observed;
    DaemonIsRun(checks, groups, pings, jobs, calls, reps, mem, schedule);
    var s, order := Exec(reps, calls, mem, mem, schedule), Completions(reps, calls, mem, mem, schedule);
    Listens(h, k);
    t := OutageAlerted(h, k, events, start, gap, p, z);
    var n := |CallsOf(events[..t])|;
    g := order[n];
    SlicesMeet(h, s, calls, order, n, k, RESULT_PREFIX + events[p].key);
  }
}
