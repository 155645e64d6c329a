/** The daemon's reports, schedule groups and heartbeat evaluation together, over one store
    (internal/scheduler/scheduler.go). */
module Daemon {
  import opened Text
  import Selection
  import opened Check
  import opened State
  import opened Sorting
  import opened Heartbeat
  import opened Scheduler
  import opened Engine
  import opened EngineFacts
  import opened Histories
  import opened Serializability
  import opened Outage
  import opened Routing
  import opened Runner

  /** The jobs of the daemon over one runner and one registry. */
  class Service {
    const checks: seq<BoundCheck>
    const runner: Reporting
    const registry: Registry
    var lastRun: int
    var lastErrs: seq<ReportError>
    var runCount: nat

    constructor (checks: seq<BoundCheck>, runner: Reporting, registry: Registry)
      ensures this.checks == checks && this.runner == runner && this.registry == registry && runCount == 0
    {
      this.checks, this.runner, this.registry := checks, runner, registry;
      lastRun, lastErrs, runCount := 0, [], 0;
    }

    // Runs the checks of one group and reports their results in one engine step.
    method RunGroup(names: seq<string>, raw: BoundCheck -> Option<Result>, order: seq<nat>, now: int, done: int,
                    deliver: (string, seq<Result>) -> Outcome, diskOk: bool)
      returns (handed: seq<seq<Result>>)
      requires AllFinish(order, |Selection.Keep(checks, Named(names))|)
      modifies this`lastRun, this`lastErrs, this`runCount, runner.store`entries
      modifies (if runner.store.file == null then {} else {runner.store.file})`content
      ensures var call := Call(GroupRun(checks, names, Running(raw)), now, deliver);
        && handed == Handed(old(runner.store.entries), runner.reporters, call)
        && Reports(old(runner.store.entries), runner.store.entries, call)
        && (runner.store.file != null ==> FileAfter(
              old(runner.store.file.content), runner.store.file.content, old(runner.store.entries), call, diskOk))
        && lastErrs == Errors(old(runner.store.entries), runner.reporters, call, runner.store.file == null || diskOk)
      ensures lastRun == done && runCount == old(runCount) + 1
    {
      var results := RunSelected(checks, names, raw, order);
      var errs;
      handed, errs := runner.Report(results, now, deliver, diskOk);
      lastRun, lastErrs, runCount := done, errs, runCount + 1;
    }

    // Evaluates every client and reports the verdicts, unless no client has pinged yet.
    method ReportHeartbeats(evaluatedAt: int, now: int, deliver: (string, seq<Result>) -> Outcome, diskOk: bool)
      returns (results: seq<Result>, handed: seq<seq<Result>>)
      modifies runner.store`entries
      modifies (if runner.store.file == null then {} else {runner.store.file})`content
      ensures IsEvaluation(registry.keys, evaluatedAt, results)
      ensures var call := Call(results, now, deliver);
        if registry.keys == map[] then
          && handed == [] && runner.store.entries == old(runner.store.entries)
          && (runner.store.file != null ==> runner.store.file.content == old(runner.store.file.content))
        else
          && handed == Handed(old(runner.store.entries), runner.reporters, call)
          && Reports(old(runner.store.entries), runner.store.entries, call)
          && (runner.store.file != null ==> FileAfter(
                old(runner.store.file.content), runner.store.file.content, old(runner.store.entries), call, diskOk))
    {
      results := registry.Results(evaluatedAt);
      if |results| == 0 { return results, []; }
      var errs;
      handed, errs := runner.Report(results, now, deliver, diskOk);
    }

    predicate Reports(before: Entries, after: Entries, call: Call) {
      after == Step(before, runner.reporters, call)
    }

    // The file holds the whole new store if the report wrote anything and the save works.
    predicate FileAfter(before: FileContent, after: FileContent, entries: Entries, call: Call, diskOk: bool) {
      after == if Dirty(entries, runner.reporters, call) && diskOk
               then Saved(Step(entries, runner.reporters, call)) else before
    }
  }

  // No configured check takes a name that heartbeat results use.
  predicate NamesReserved(checks: seq<BoundCheck>) {
    forall c :: c in checks ==> !(RESULT_PREFIX <= c.name)
  }

  // The accepted pings, and how many of them had been recorded after each step of the reports.
  datatype Pings = Pings(log: seq<Record>, heard: seq<nat>)

  // One report of the daemon: a run of a schedule group, or a heartbeat evaluation, which holds the
  // registry's lock after `moment` steps and has read its clock `at`.
  datatype Job = GroupJob(schedule: string, raw: BoundCheck -> Option<Result>) | HeartbeatJob(moment: nat, at: int)

  // The jobs that cron starts by the same timer.
  predicate SameTimer(j1: Job, j2: Job) {
    match (j1, j2)
    case (GroupJob(s, _), GroupJob(t, _)) => s == t
    case (HeartbeatJob(_, _), HeartbeatJob(_, _)) => true
    case _ => false
  }

  predicate Recording(pings: Pings) {
    && (forall i :: 0 <= i < |pings.heard| ==> pings.heard[i] <= |pings.log|)
    && (forall i, j :: 0 <= i < j < |pings.heard| ==> pings.heard[i] <= pings.heard[j])
    && (forall i :: 0 <= i < |pings.log| ==> pings.log[i].timeout > 0)
  }

  function KeysThen(pings: Pings, moment: nat): Keys
    requires Recording(pings) && moment < |pings.heard|
  {
    Recorded(pings.log[..pings.heard[moment]])
  }

  // An evaluation with nothing to say makes no report.
  ghost predicate IsReportOf(checks: seq<BoundCheck>, groups: map<string, seq<string>>, pings: Pings, job: Job,
                             results: seq<Result>)
    requires Recording(pings)
  {
    match job
    case GroupJob(s, raw) =>
      s in groups && NamesItself(Running(raw)) && results == GroupRun(checks, groups[s], Running(raw))
    case HeartbeatJob(moment, at) =>
      moment < |pings.heard| && results != [] && IsEvaluation(KeysThen(pings, moment), at, results)
  }

  ghost predicate DaemonCalls(checks: seq<BoundCheck>, groups: map<string, seq<string>>, pings: Pings, jobs: seq<Job>,
                              calls: seq<Call>)
  {
    && UniqueNames(checks) && IsGrouping(checks, groups) && NamesReserved(checks) && Recording(pings)
    && |jobs| == |calls|
    && forall i :: 0 <= i < |calls| ==> IsReportOf(checks, groups, pings, jobs[i], calls[i].results)
  }

  // A job is not started again before its last run has finished: no two runs of one timer are in
  // progress together.
  ghost predicate NoJobOverlapsItself(jobs: seq<Job>, reps: seq<BoundReporter>, calls: seq<Call>, mem: Entries,
                                      disk: Entries, schedule: seq<nat>)
    requires Runs(schedule, |calls|) && |jobs| == |calls|
  {
    forall i, t, u :: 0 <= i <= |schedule| && t != u
      && t in Active(Exec(reps, calls, mem, disk, schedule[..i]), schedule[..i])
      && u in Active(Exec(reps, calls, mem, disk, schedule[..i]), schedule[..i])
      ==> !SameTimer(jobs[t], jobs[u])
  }

  // The same for evaluations, which belong to their jobs: each comes before its own report starts
  // and after the report of every earlier evaluation has finished.
  ghost predicate EvaluatesInTurn(jobs: seq<Job>, reps: seq<BoundReporter>, calls: seq<Call>, mem: Entries,
                                  disk: Entries, schedule: seq<nat>)
    requires Runs(schedule, |calls|) && |jobs| == |calls|
  {
    forall u :: 0 <= u < |jobs| && jobs[u].HeartbeatJob? ==>
      && jobs[u].moment <= |schedule| && u !in schedule[..jobs[u].moment]
      && forall t :: 0 <= t < |jobs| && t != u && jobs[t].HeartbeatJob? && jobs[t].moment <= jobs[u].moment ==>
           Exec(reps, calls, mem, disk, schedule[..jobs[u].moment]).locals[t].pc.Done?
  }

  lemma HeartbeatsApart(checks: seq<BoundCheck>, groups: map<string, seq<string>>, s: string, run: BoundCheck -> Result,
                        keys: Keys, now: int, beats: seq<Result>)
    requires UniqueNames(checks) && NamesItself(run) && IsGrouping(checks, groups) && NamesReserved(checks)
    requires s in groups && IsEvaluation(keys, now, beats)
    ensures forall r, q :: r in GroupRun(checks, groups[s], run) && q in beats ==> r.check != q.check
  {
    hide GroupRun, UniqueNames, IsGrouping, NamesReserved;
    GroupSparesHeartbeats(checks, groups, s, run);
    forall q | q in beats ensures RESULT_PREFIX <= q.check {
      var key :| key in keys && q == Judge(key, keys[key], now);
    }
  }

  lemma GroupSparesHeartbeats(checks: seq<BoundCheck>, groups: map<string, seq<string>>, s: string, run: BoundCheck -> Result)
    requires UniqueNames(checks) && NamesItself(run) && IsGrouping(checks, groups) && NamesReserved(checks)
    requires s in groups
    ensures SparesHeartbeats(GroupRun(checks, groups[s], run))
  {
    hide GroupRun, UniqueNames, IsGrouping;
    GroupRunListed(checks, groups, s, run);
    forall r | r in GroupRun(checks, groups[s], run) ensures !(RESULT_PREFIX <= r.check) {
      assert Ran(checks, [s], run, r);
      var c :| c in checks && Effective(c) in [s] && r == run(c);
    }
  }

  // Jobs of different timers are about different checks.
  lemma JobsDisjoint(checks: seq<BoundCheck>, groups: map<string, seq<string>>, pings: Pings, jobs: seq<Job>,
                     calls: seq<Call>, i: nat, j: nat)
    requires DaemonCalls(checks, groups, pings, jobs, calls) && i < |calls| && j < |calls| && !SameTimer(jobs[i], jobs[j])
    ensures DisjointChecks(calls[i], calls[j])
  {
    hide GroupRun, IsEvaluation, IsGrouping, UniqueNames, NamesItself, NamesReserved, Recording, KeysThen;
    assert IsReportOf(checks, groups, pings, jobs[i], calls[i].results);
    assert IsReportOf(checks, groups, pings, jobs[j], calls[j].results);
    match (jobs[i], jobs[j])
    case (GroupJob(s, raw1), GroupJob(t, raw2)) =>
      GroupsAreDisjoint(checks, groups, s, Running(raw1), t, Running(raw2));
    case (GroupJob(s, raw), HeartbeatJob(moment, at)) =>
      HeartbeatsApart(checks, groups, s, Running(raw), KeysThen(pings, moment), at, calls[j].results);
    case (HeartbeatJob(moment, at), GroupJob(s, raw)) =>
      HeartbeatsApart(checks, groups, s, Running(raw), KeysThen(pings, moment), at, calls[i].results);
  }

  lemma JobsDistinct(checks: seq<BoundCheck>, groups: map<string, seq<string>>, pings: Pings, jobs: seq<Job>,
                     calls: seq<Call>, i: nat)
    requires DaemonCalls(checks, groups, pings, jobs, calls) && i < |calls|
    ensures Distinct(calls[i].results)
    ensures jobs[i].GroupJob? ==> SparesHeartbeats(calls[i].results)
  {
    hide GroupRun, IsGrouping, UniqueNames, NamesItself, NamesReserved, Recording, KeysThen;
    assert IsReportOf(checks, groups, pings, jobs[i], calls[i].results);
    if jobs[i].GroupJob? {
      GroupRunListed(checks, groups, jobs[i].schedule, Running(jobs[i].raw));
      GroupSparesHeartbeats(checks, groups, jobs[i].schedule, Running(jobs[i].raw));
    }
    OrderedDistinct(calls[i].results);
  }

  /** A daemon's whole life is a history. Let its schedule groups and heartbeat evaluations report any
      number of times, interleaved in any way, no job overlapping itself; once all have finished, the
      store, the file and every slice handed out are those of one run in the order of completion. */
  lemma DaemonIsHistory(checks: seq<BoundCheck>, groups: map<string, seq<string>>, pings: Pings, jobs: seq<Job>,
                        calls: seq<Call>, reps: seq<BoundReporter>, mem: Entries, schedule: seq<nat>)
    requires DaemonCalls(checks, groups, pings, jobs, calls) && Separated(reps) && Runs(schedule, |calls|)
    requires NoJobOverlapsItself(jobs, reps, calls, mem, mem, schedule)
    requires AllDone(Exec(reps, calls, mem, mem, schedule))
    ensures var s, order := Exec(reps, calls, mem, mem, schedule), Completions(reps, calls, mem, mem, schedule);
      && IsOrder(order, |calls|) && (forall t: nat :: t < |calls| ==> t in order)
      && var h := InOrder(mem, reps, calls, order);
         h.Valid() && s.mem == h.At(|h.calls|) && s.disk == s.mem && HandsOut(h, s, order)
  {
    hide DaemonCalls, Exec, HandsOut, Distinct, History.At, Completions, Active, DisjointChecks, Separated, SameTimer;
    forall i | 0 <= i <= |schedule|
      ensures ActiveDisjoint(calls, Active(Exec(reps, calls, mem, mem, schedule[..i]), schedule[..i]))
    {
      var active := Active(Exec(reps, calls, mem, mem, schedule[..i]), schedule[..i]);
      forall t: nat, u: nat | t in active && u in active && t != u && t < |calls| && u < |calls|
        ensures DisjointChecks(calls[t], calls[u])
      {
        JobsDisjoint(checks, groups, pings, jobs, calls, t, u);
      }
    }
    ConcurrentRunIsHistory(reps, calls, mem, mem, schedule);
    DiskCatchesUp(reps, calls, mem, schedule);
    forall i: nat | i < |calls| ensures Distinct(calls[i].results) {
      JobsDistinct(checks, groups, pings, jobs, calls, i);
    }
    var order := Completions(reps, calls, mem, mem, schedule);
    var h := InOrder(mem, reps, calls, order);
    assert h.reporters == reps && forall p :: 0 <= p < |h.calls| ==> h.calls[p] == calls[order[p]];
    assert h.Valid();
  }

  // One round, each job at most once: the outcome is that of reporting them in any order.
  lemma DaemonSerializable(checks: seq<BoundCheck>, groups: map<string, seq<string>>, pings: Pings, jobs: seq<Job>,
                           calls: seq<Call>, reps: seq<BoundReporter>, mem: Entries, schedule: seq<nat>, order: seq<nat>)
    requires DaemonCalls(checks, groups, pings, jobs, calls) && Separated(reps) && Runs(schedule, |calls|)
    requires forall i, j :: 0 <= i < |calls| && 0 <= j < |calls| && i != j ==> !SameTimer(jobs[i], jobs[j])
    requires AllDone(Exec(reps, calls, mem, mem, schedule))
    requires IsOrder(order, |calls|) && forall t: nat :: t < |calls| ==> t in order
    ensures var s := Exec(reps, calls, mem, mem, schedule);
      s.mem == Serial(mem, reps, calls, order) && s.disk == s.mem && HandedSerially(reps, calls, mem, s, order)
  {
    hide DaemonCalls, Exec, Serial, Handed, HandedSerially, SameTimer;
    forall i: nat, j: nat | i < |calls| && j < |calls| && i != j ensures DisjointChecks(calls[i], calls[j]) {
      JobsDisjoint(checks, groups, pings, jobs, calls, i, j);
    }
    assert PairwiseDisjoint(calls);
    Serializable(reps, calls, mem, mem, schedule, order);
    DiskCatchesUp(reps, calls, mem, schedule);
  }

  // --- Tags ----------------------------------------------------------------------------------------

  // A check that returns leaves tags to the configuration, as every built-in check does.
  ghost predicate Untagged(job: Job) {
    job.GroupJob? ==> forall c :: job.raw(c).Some? ==> job.raw(c).value.tags == []
  }

  lemma JobTags(checks: seq<BoundCheck>, groups: map<string, seq<string>>, pings: Pings, jobs: seq<Job>,
                calls: seq<Call>, i: nat, r: Result)
    requires DaemonCalls(checks, groups, pings, jobs, calls) && i < |calls| && Untagged(jobs[i])
    requires r in calls[i].results
    ensures if RESULT_PREFIX <= r.check then r.tags == ["heartbeat"]
            else exists c :: c in checks && c.name == r.check && r.tags == MergedTags([], c.tags)
  {
    hide GroupRun, IsGrouping, UniqueNames, NamesReserved, Recording, KeysThen, MergedTags;
    assert IsReportOf(checks, groups, pings, jobs[i], calls[i].results);
    match jobs[i]
    case GroupJob(s, raw) =>
      GroupRunListed(checks, groups, s, Running(raw));
      GroupSparesHeartbeats(checks, groups, s, Running(raw));
      assert Ran(checks, [s], Running(raw), r);
      var c :| c in checks && Effective(c) in [s] && r == Running(raw)(c);
      assert c.name == r.check && r.tags == MergedTags([], c.tags);
    case HeartbeatJob(moment, at) =>
      var keys := KeysThen(pings, moment);
      var key :| key in keys && r == Judge(key, keys[key], at);
  }

  /** In one process of the daemon no tags vary, so every route judges by check and status alone and
      nothing resurfaces. */
  lemma DaemonRoutesAreSteady(checks: seq<BoundCheck>, groups: map<string, seq<string>>, pings: Pings, jobs: seq<Job>,
                              calls: seq<Call>, h: History, k: nat)
    requires DaemonCalls(checks, groups, pings, jobs, calls) && forall i :: 0 <= i < |jobs| ==> Untagged(jobs[i])
    requires (forall call :: call in h.calls ==> call in calls) && k < |h.reporters|
    ensures SteadyRoute(h, k)
  {
    hide DaemonCalls, Untagged, MergedTags, SteadyRoute;
    forall i, j, r, q | 0 <= i < |h.calls| && 0 <= j < |h.calls| && r in h.calls[i].results && q in h.calls[j].results
        && r.check == q.check
      ensures r.tags == q.tags
    {
      assert h.calls[i] in h.calls && h.calls[j] in h.calls;
      var a :| 0 <= a < |calls| && calls[a] == h.calls[i];
      var b :| 0 <= b < |calls| && calls[b] == h.calls[j];
      SameSize(checks, groups, pings, jobs, calls);
      JobTags(checks, groups, pings, jobs, calls, a, r);
      JobTags(checks, groups, pings, jobs, calls, b, q);
      if !(RESULT_PREFIX <= r.check) {
        var c :| c in checks && c.name == r.check && r.tags == MergedTags([], c.tags);
        var d :| d in checks && d.name == q.check && q.tags == MergedTags([], d.tags);
        SameCheck(checks, c, d);
      }
    }
    SteadyTagsSuffice(h, k);
  }

  lemma SameSize(checks: seq<BoundCheck>, groups: map<string, seq<string>>, pings: Pings, jobs: seq<Job>, calls: seq<Call>)
    requires DaemonCalls(checks, groups, pings, jobs, calls)
    ensures |jobs| == |calls| && UniqueNames(checks)
  {
  }
}
