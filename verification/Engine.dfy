/** One Runner.Report call as a function of the store, the reporters and what the world answers
    (internal/runner/runner.go). */
module Engine {
  import opened Selection
  import opened Check
  import opened State
  import opened Routing

  function StatusKey(check: string): string {
    "status:" + check
  }

  function NotifyKey(reporter: string, check: string): string {
    "notify:" + reporter + ":" + check
  }

  datatype BoundReporter = BoundReporter(name: string, route: Route)

  /** One call of Report. `deliver` is the outside world: how the named reporter's delivery of a
      given slice ends. Every theorem quantifies over it. */
  datatype Call = Call(results: seq<Result>, now: int, deliver: (string, seq<Result>) -> Outcome)

  predicate On(m: map<string, bool>, key: string) {
    key in m && m[key]
  }

  // The status is not the one last observed for this check.
  predicate Moved(entries: Entries, r: Result) {
    StatusKey(r.check) !in entries || entries[StatusKey(r.check)].status != StatusName(r.status)
  }

  function Snapshot(entries: Entries, results: seq<Result>): map<string, bool> {
    if results == [] then map[]
    else map[results[0].check := Moved(entries, results[0])] + Snapshot(entries, results[1..])
  }

  predicate Wants(entries: Entries, rep: BoundReporter, changed: map<string, bool>, now: int, r: Result) {
    var key := NotifyKey(rep.name, r.check);
    || On(changed, r.check)
    || key !in entries
    || entries[key].status != StatusName(r.status)
    || (rep.route.dedupeWindow > 0 && now - entries[key].time >= rep.route.dedupeWindow)
  }

  function Wanting(entries: Entries, rep: BoundReporter, changed: map<string, bool>, now: int): Result -> bool {
    r => Wants(entries, rep, changed, now, r)
  }

  // What a reporter is handed when its turn comes.
  function Slice(entries: Entries, rep: BoundReporter, changed: map<string, bool>, call: Call): seq<Result> {
    var filtered := Keep(call.results, Accepting(rep.route));
    if rep.route.repeatAlerts then filtered
    else Keep(filtered, Wanting(entries, rep, changed, call.now))
  }

  // The notify entries written for a slice after its delivery.
  function Marks(name: string, slice: seq<Result>, o: Outcome, now: int): Entries {
    if slice == [] then map[]
    else
      (if Lands(o, slice[0].check)
       then map[NotifyKey(name, slice[0].check) := Entry(now, StatusName(slice[0].status))]
       else map[])
      + Marks(name, slice[1..], o, now)
  }

  function After(entries: Entries, rep: BoundReporter, changed: map<string, bool>, call: Call): Entries {
    if rep.route.repeatAlerts then entries
    else
      var slice := Slice(entries, rep, changed, call);
      entries + Marks(rep.name, slice, call.deliver(rep.name, slice), call.now)
  }

  // Reporters take their turns in order, each on the store its predecessors left.
  function Notify(entries: Entries, reps: seq<BoundReporter>, changed: map<string, bool>, call: Call): Entries
    decreases |reps|
  {
    if reps == [] then entries
    else Notify(After(entries, reps[0], changed, call), reps[1..], changed, call)
  }

  function Slices(entries: Entries, reps: seq<BoundReporter>, changed: map<string, bool>, call: Call):
    (slices: seq<seq<Result>>)
    ensures |slices| == |reps|
    decreases |reps|
  {
    if reps == [] then []
    else
      var rest := Slices(After(entries, reps[0], changed, call), reps[1..], changed, call);
      [Slice(entries, reps[0], changed, call)] + rest
  }

  function Observations(results: seq<Result>, changed: map<string, bool>, now: int): Entries {
    if results == [] then map[]
    else
      (if On(changed, results[0].check)
       then map[StatusKey(results[0].check) := Entry(now, StatusName(results[0].status))]
       else map[])
      + Observations(results[1..], changed, now)
  }

  // The store after one Report, and the slice each reporter was handed (empty: not called).
  function Step(entries: Entries, reps: seq<BoundReporter>, call: Call): Entries {
    var changed := Snapshot(entries, call.results);
    Notify(entries, reps, changed, call) + Observations(call.results, changed, call.now)
  }

  function Handed(entries: Entries, reps: seq<BoundReporter>, call: Call): (slices: seq<seq<Result>>)
    ensures |slices| == |reps|
  {
    Slices(entries, reps, Snapshot(entries, call.results), call)
  }

  // Whether a turn writes a notify entry.
  predicate Records(rep: BoundReporter, slice: seq<Result>, call: Call) {
    && !rep.route.repeatAlerts
    && exists r :: r in slice && Lands(call.deliver(rep.name, slice), r.check)
  }

  predicate AnyRecords(reps: seq<BoundReporter>, slices: seq<seq<Result>>, call: Call)
    requires |reps| == |slices|
  {
    reps != [] &&
    var last := |reps| - 1;
    AnyRecords(reps[..last], slices[..last], call) || Records(reps[last], slices[last], call)
  }

  // Whether the call writes the store at all; only then is it saved.
  predicate Dirty(entries: Entries, reps: seq<BoundReporter>, call: Call) {
    || AnyRecords(reps, Handed(entries, reps, call), call)
    || (exists r :: r in call.results && On(Snapshot(entries, call.results), r.check))
  }

  datatype ReportError = DeliveryFailed(reporter: string) | PersistFailed

  function Failures(reps: seq<BoundReporter>, slices: seq<seq<Result>>, call: Call): seq<ReportError>
    requires |reps| == |slices|
  {
    if reps == [] then []
    else
      var last := |reps| - 1;
      var earlier := Failures(reps[..last], slices[..last], call);
      if slices[last] != [] && call.deliver(reps[last].name, slices[last]) != Delivered
      then earlier + [DeliveryFailed(reps[last].name)]
      else earlier
  }

  // Everything a Report complains about; `saves` says whether the store can be saved.
  function Errors(entries: Entries, reps: seq<BoundReporter>, call: Call, saves: bool): seq<ReportError> {
    Failures(reps, Handed(entries, reps, call), call)
      + (if Dirty(entries, reps, call) && !saves then [PersistFailed] else [])
  }
}
