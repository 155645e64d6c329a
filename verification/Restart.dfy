/** Restarts between Reports (internal/state/state.go, internal/runner/runner.go): a run that keeps
    closing and reopening its store behaves like one that never stops. */
module Restart {
  import opened Text
  import opened Check
  import opened State
  import opened Routing
  import opened Engine
  import opened Runner
  import opened Sorting
  import opened Scheduler
  import opened Histories

  // A process's memory and the file it would reopen.
  datatype Disk = Disk(mem: Entries, file: FileContent)

  // One stage of a daemon's or a cron job's life; diskOk says whether a save would succeed.
  datatype Stage = Reported(call: Call, diskOk: bool) | Restarted

  predicate Synced(d: Disk) {
    Loaded(d.file) == Some(d.mem)
  }

  function Live(d: Disk, reps: seq<BoundReporter>, stage: Stage): Disk {
    match stage
    case Reported(call, diskOk) =>
      var mem := Step(d.mem, reps, call);
      Disk(mem, SavedAfter(d.file, Dirty(d.mem, reps, call) && diskOk, mem))
    case Restarted =>
      // an unreadable file stops the new process; it then has no memory to act on
      Disk(if Loaded(d.file).Some? then Loaded(d.file).value else map[], d.file)
  }

  function LiveAll(d: Disk, reps: seq<BoundReporter>, stages: seq<Stage>): Disk {
    if stages == [] then d
    else Live(LiveAll(d, reps, stages[..|stages| - 1]), reps, stages[|stages| - 1])
  }

  // The slices handed out at each Report of a life.
  function Deliveries(d: Disk, reps: seq<BoundReporter>, stages: seq<Stage>): seq<seq<seq<Result>>> {
    if stages == [] then []
    else
      var last := |stages| - 1;
      var earlier := Deliveries(d, reps, stages[..last]);
      if stages[last].Reported?
      then earlier + [Handed(LiveAll(d, reps, stages[..last]).mem, reps, stages[last].call)]
      else earlier
  }

  function WithoutRestarts(stages: seq<Stage>): seq<Stage> {
    if stages == [] then []
    else
      var last := |stages| - 1;
      var earlier := WithoutRestarts(stages[..last]);
      if stages[last].Reported? then earlier + [stages[last]] else earlier
  }

  lemma {:induction false} NothingRecorded(entries: Entries, reps: seq<BoundReporter>, changed: map<string, bool>, call: Call)
    requires !AnyRecords(reps, Slices(entries, reps, changed, call), call)
    ensures Notify(entries, reps, changed, call) == entries
    decreases |reps|
  {
    if reps != [] {
      var slices := Slices(entries, reps, changed, call);
      AnyRecordsAt(reps, slices, call, 0);
      NoMarks(entries, reps[0], changed, call);
      NoneRecordsTail(reps, slices, call);
      NothingRecorded(entries, reps[1..], changed, call);
    }
  }

  lemma {:induction false} AnyRecordsAt(reps: seq<BoundReporter>, slices: seq<seq<Result>>, call: Call, k: nat)
    requires k < |reps| == |slices| && !AnyRecords(reps, slices, call)
    ensures !Records(reps[k], slices[k], call)
  {
    var last := |reps| - 1;
    if k < last { AnyRecordsAt(reps[..last], slices[..last], call, k); }
  }

  lemma {:induction false} NoneRecordsTail(reps: seq<BoundReporter>, slices: seq<seq<Result>>, call: Call)
    requires 0 < |reps| == |slices| && !AnyRecords(reps, slices, call)
    ensures !AnyRecords(reps[1..], slices[1..], call)
  {
    var last := |reps| - 1;
    if last > 0 {
      NoneRecordsTail(reps[..last], slices[..last], call);
      assert reps[1..][..last - 1] == reps[..last][1..] && slices[1..][..last - 1] == slices[..last][1..];
    }
  }

  lemma NoMarks(entries: Entries, rep: BoundReporter, changed: map<string, bool>, call: Call)
    requires !Records(rep, Slice(entries, rep, changed, call), call)
    ensures After(entries, rep, changed, call) == entries
  {
    var slice := Slice(entries, rep, changed, call);
    if !rep.route.repeatAlerts {
      NoneLand(rep.name, slice, call.deliver(rep.name, slice), call.now);
    }
  }

  lemma {:induction false} NoneLand(name: string, slice: seq<Result>, o: Outcome, now: int)
    requires forall r :: r in slice ==> !Lands(o, r.check)
    ensures Marks(name, slice, o, now) == map[]
  {
    if slice != [] { NoneLand(name, slice[1..], o, now); }
  }

  lemma {:induction false} NoneMoved(results: seq<Result>, changed: map<string, bool>, now: int)
    requires forall r :: r in results ==> !On(changed, r.check)
    ensures Observations(results, changed, now) == map[]
  {
    if results != [] { NoneMoved(results[1..], changed, now); }
  }

  // The dirty flag never misses a write.
  lemma CleanReportWritesNothing(entries: Entries, reps: seq<BoundReporter>, call: Call)
    requires !Dirty(entries, reps, call)
    ensures Step(entries, reps, call) == entries
  {
    var changed := Snapshot(entries, call.results);
    NothingRecorded(entries, reps, changed, call);
    NoneMoved(call.results, changed, call.now);
  }

  lemma LiveKeepsSync(d: Disk, reps: seq<BoundReporter>, stage: Stage)
    requires Synced(d) && (stage.Reported? ==> stage.diskOk)
    ensures Synced(Live(d, reps, stage))
    ensures stage.Restarted? ==> Live(d, reps, stage) == d
    ensures stage.Reported? ==> Live(d, reps, stage).mem == Step(d.mem, reps, stage.call)
  {
    hide Step, Dirty;
    if stage.Reported? && !Dirty(d.mem, reps, stage.call) {
      CleanReportWritesNothing(d.mem, reps, stage.call);
    }
  }

  /** If every save succeeds, restarting between any Reports changes no delivery and no state. */
  lemma {:induction false} RestartTransparency(d: Disk, reps: seq<BoundReporter>, stages: seq<Stage>)
    requires Synced(d)
    requires forall i :: 0 <= i < |stages| && stages[i].Reported? ==> stages[i].diskOk
    ensures Synced(LiveAll(d, reps, stages))
    ensures LiveAll(d, reps, stages) == LiveAll(d, reps, WithoutRestarts(stages))
    ensures Deliveries(d, reps, stages) == Deliveries(d, reps, WithoutRestarts(stages))
  {
    hide Live, Handed, Synced;
    if stages != [] {
      var last := |stages| - 1;
      var init := stages[..last];
      RestartTransparency(d, reps, init);
      LiveKeepsSync(LiveAll(d, reps, init), reps, stages[last]);
      if stages[last].Reported? {
        assert WithoutRestarts(stages)[..|WithoutRestarts(init)|] == WithoutRestarts(init);
      }
    }
  }

  // The stage either wrote nothing or could not save.
  predicate SavesNothing(mem: Entries, reps: seq<BoundReporter>, stage: Stage) {
    stage.Reported? && stage.diskOk ==> Step(mem, reps, stage.call) == mem
  }

  /** Saves may fail and processes may restart: the file always holds, whole, the memory of some
      earlier moment, and every write since then belongs to a report whose save failed. */
  lemma {:induction false} FileHoldsAPastMemory(d: Disk, reps: seq<BoundReporter>, stages: seq<Stage>) returns (j: nat)
    requires Synced(d)
    ensures j <= |stages|
    ensures Loaded(LiveAll(d, reps, stages).file) == Some(LiveAll(d, reps, stages[..j]).mem)
    ensures forall m :: j <= m < |stages| ==> SavesNothing(LiveAll(d, reps, stages[..m]).mem, reps, stages[m])
  {
    hide Step, Dirty, Loaded;
    if stages == [] {
      j := 0;
    } else {
      var last := |stages| - 1;
      var init := stages[..last];
      var before := LiveAll(d, reps, init);
      j := FileHoldsAPastMemory(d, reps, init);
      assert init[..j] == stages[..j];
      assert stages[..|stages|] == stages;
      forall m | 0 <= m < last ensures init[..m] == stages[..m] {}
      FileAfterStage(before, reps, stages[last]);
      hide Live, SavesNothing;
      if stages[last].Reported? && stages[last].diskOk && Dirty(before.mem, reps, stages[last].call) { j := |stages|; }
    }
  }

  // A stage either saves its whole memory or leaves the file and saves nothing.
  lemma FileAfterStage(d: Disk, reps: seq<BoundReporter>, stage: Stage)
    ensures if stage.Reported? && stage.diskOk && Dirty(d.mem, reps, stage.call)
            then Loaded(Live(d, reps, stage).file) == Some(Live(d, reps, stage).mem)
            else Live(d, reps, stage).file == d.file && SavesNothing(d.mem, reps, stage)
  {
    hide Step, Dirty;
    if stage.Reported? && !Dirty(d.mem, reps, stage.call) { CleanReportWritesNothing(d.mem, reps, stage.call); }
  }

  function CallsOf(stages: seq<Stage>): seq<Call> {
    if stages == [] then []
    else
      var last := |stages| - 1;
      if stages[last].Reported? then CallsOf(stages[..last]) + [stages[last].call] else CallsOf(stages[..last])
  }

  // The store and the deliveries are those of the history.
  predicate Follows(h: History, mem: Entries, deliveries: seq<seq<seq<Result>>>) {
    && mem == h.At(|h.calls|) && |deliveries| == |h.calls|
    && forall i :: 0 <= i < |h.calls| ==> deliveries[i] == Handed(h.At(i), h.reporters, h.calls[i])
  }

  lemma {:induction false} HistoryPrefix(h: History, g: History, i: nat)
    requires h.start == g.start && h.reporters == g.reporters
    requires i <= |h.calls| <= |g.calls| && h.calls == g.calls[..|h.calls|]
    ensures h.At(i) == g.At(i)
  {
    hide Step;
    if i > 0 { HistoryPrefix(h, g, i - 1); }
  }

  lemma FollowsOn(h: History, mem: Entries, deliveries: seq<seq<seq<Result>>>, call: Call)
    requires Follows(h, mem, deliveries)
    ensures Follows(h.(calls := h.calls + [call]), Step(mem, h.reporters, call),
                    deliveries + [Handed(mem, h.reporters, call)])
  {
    hide Handed, Step;
    var g := h.(calls := h.calls + [call]);
    forall i: nat | i <= |h.calls| ensures h.At(i) == g.At(i) { HistoryPrefix(h, g, i); }
  }

  // So every theorem about histories holds across restarts: a life with restarts is a history.
  lemma {:induction false} RestartsAreHistory(d: Disk, reps: seq<BoundReporter>, stages: seq<Stage>)
    requires Synced(d)
    requires forall i :: 0 <= i < |stages| && stages[i].Reported? ==> stages[i].diskOk
    ensures Follows(History(d.mem, reps, CallsOf(stages)), LiveAll(d, reps, stages).mem, Deliveries(d, reps, stages))
  {
    hide Handed, Step, Live, Synced;
    if stages != [] {
      var last := |stages| - 1;
      var init := stages[..last];
      hide Follows;
      RestartsAreHistory(d, reps, init);
      RestartTransparency(d, reps, init);
      LiveKeepsSync(LiveAll(d, reps, init), reps, stages[last]);
      if stages[last].Reported? {
        FollowsOn(History(d.mem, reps, CallsOf(init)), LiveAll(d, reps, init).mem, Deliveries(d, reps, init), stages[last].call);
      }
    }
  }

  predicate Present(results: seq<Result>, s: Status) {
    exists r :: r in results && r.status == s
  }

  method WorstStatus(results: seq<Result>) returns (worst: Status)
    ensures results == [] ==> worst == OK
    ensures worst == OK || exists r :: r in results && r.status == worst
    ensures forall r :: r in results ==> Severity(r.status) <= Severity(worst)
    ensures worst == if Present(results, Unknown) then Unknown else if Present(results, Crit) then Crit
                     else if Present(results, Warn) then Warn else OK
  {
    worst := OK;
    for i := 0 to |results|
      invariant worst == OK || exists r :: r in results && r.status == worst
      invariant forall r :: r in results[..i] ==> Severity(r.status) <= Severity(worst)
    {
      if Severity(results[i].status) > Severity(worst) { worst := results[i].status; }
    }
  }

  /** A one-shot `syscheckr run` under cron: open, run every check, report, exit. The file carries the
      memory from one process to the next, so a chain of such runs is a chain of engine steps. */
  method CronRun(file: StateFile, checks: seq<BoundCheck>, reporters: seq<BoundReporter>,
                 raw: BoundCheck -> Option<Result>, order: seq<nat>, now: int,
                 deliver: (string, seq<Result>) -> Outcome, diskOk: bool)
    returns (handed: Option<seq<seq<Result>>>, exit: nat)
    requires AllFinish(order, |checks|)
    modifies file
    ensures handed.None? <==> old(file.content).Unreadable?
    ensures handed.None? ==> file.content == old(file.content) && exit == 1
    ensures var results := SortByCheck(Outcomes(checks, Running(raw)));
      var call := Call(results, now, deliver);
      handed.Some? ==>
        && handed.value == Handed(Loaded(old(file.content)).value, reporters, call)
        && Loaded(file.content)
          == (if diskOk then Some(Step(Loaded(old(file.content)).value, reporters, call))
              else Loaded(old(file.content)))
        && exit == (if Present(results, Crit) || Present(results, Unknown) then 2 else 0)
  {
    var store := Store.Open(file);
    if store.None? { return None, 1; }
    var runner := new Reporting(reporters, store.value);
    ghost var before := store.value.entries;
    var results := RunAll(checks, raw, order);
    var slices, errs := runner.Report(results, now, deliver, diskOk);
    ghost var call := Call(results, now, deliver);
    hide Step, Dirty, Handed, Outcomes, SortByCheck, Running, Errors;
    if !Dirty(before, reporters, call) { CleanReportWritesNothing(before, reporters, call); }
    var worst := WorstStatus(results);
    handed, exit := Some(slices), if worst == Crit || worst == Unknown then 2 else 0;
  }
}
