/** Configuration: defaults, validation and the routes built from it (internal/config/config.go,
    internal/runner/runner.go). */
module Configuration {
  import opened Text
  import opened Selection
  import opened Check
  import opened State
  import opened Routing
  import opened Engine

  const SECOND: int := 1_000_000_000
  const DAY: int := 86_400 * SECOND

  // `kind` is the `type` setting.
  datatype CheckConfig = CheckConfig(name: string, kind: string, timeout: int)

  datatype ReporterConfig = ReporterConfig(
    name: string, kind: string, minSeverity: string, checks: seq<string>, tags: seq<string>,
    onlyFailing: bool, repeatAlerts: Option<bool>, dedupeWindow: Option<int>)

  datatype ServerConfig = ServerConfig(listen: string, schedule: string)

  predicate Enabled(server: ServerConfig) {
    server.listen != ""
  }

  predicate ValidSeverity(s: string) {
    ToLower(s) in ["ok", "warn", "warning", "crit", "critical", "unknown"]
  }

  datatype Fault =
    | NoChecks
    | CheckUnnamed(i: nat)
    | CheckDuplicate(i: nat)
    | CheckUntyped(i: nat)
    | ReporterUnnamed(i: nat)
    | ReporterDuplicate(i: nat)
    | ReporterUntyped(i: nat)
    | SeverityInvalid(i: nat)
    | WindowNegative(i: nat)
    | HeartbeatOnlyFailing(i: nat)
    | HeartbeatSeverity(i: nat)
    | HeartbeatQuiet(i: nat)
    | UnknownCheck(i: nat, name: string)

  predicate AboutLiveness(f: Fault) {
    f.HeartbeatOnlyFailing? || f.HeartbeatSeverity? || f.HeartbeatQuiet?
  }

  predicate AboutItself(f: Fault) {
    f.ReporterUnnamed? || f.ReporterDuplicate? || f.ReporterUntyped? || f.SeverityInvalid? || f.WindowNegative?
  }

  // Which entry of the document a fault is about.
  datatype Subject = Document | OfCheck(i: nat) | OfReporter(i: nat)

  function SubjectOf(f: Fault): Subject {
    match f
    case NoChecks => Document
    case CheckUnnamed(i) => OfCheck(i)
    case CheckDuplicate(i) => OfCheck(i)
    case CheckUntyped(i) => OfCheck(i)
    case UnknownCheck(i, _) => OfReporter(i)
    case _ => OfReporter(f.i)
  }

  predicate FaultyCheck(checks: seq<CheckConfig>, f: Fault, i: nat) {
    i < |checks| &&
    match f
    case CheckUnnamed(_) => checks[i].name == ""
    case CheckDuplicate(_) => checks[i].name != "" && exists j :: 0 <= j < i && checks[j].name == checks[i].name
    case CheckUntyped(_) => checks[i].kind == ""
    case _ => false
  }

  predicate FaultyReporter(checks: seq<CheckConfig>, reporters: seq<ReporterConfig>, f: Fault, i: nat) {
    i < |reporters| &&
    var rp := reporters[i];
    match f
    case ReporterUnnamed(_) => rp.name == ""
    case ReporterDuplicate(_) => rp.name != "" && exists j :: 0 <= j < i && reporters[j].name == rp.name
    case ReporterUntyped(_) => rp.kind == ""
    case SeverityInvalid(_) => rp.minSeverity != "" && !ValidSeverity(rp.minSeverity)
    case WindowNegative(_) => rp.dedupeWindow.Some? && rp.dedupeWindow.value < 0
    case HeartbeatOnlyFailing(_) => rp.kind == "heartbeat" && rp.onlyFailing
    case HeartbeatSeverity(_) => rp.kind == "heartbeat" && rp.minSeverity != "" && ToLower(rp.minSeverity) != "ok"
    case HeartbeatQuiet(_) => rp.kind == "heartbeat" && rp.repeatAlerts == Some(false)
    case UnknownCheck(_, name) => name in rp.checks && forall c :: c in checks ==> c.name != name
    case _ => false
  }

  // Everything validation objects to, stated rule by rule.
  predicate Faulty(checks: seq<CheckConfig>, reporters: seq<ReporterConfig>, server: ServerConfig, f: Fault) {
    match SubjectOf(f)
    case Document => checks == [] && !Enabled(server)
    case OfCheck(i) => FaultyCheck(checks, f, i)
    case OfReporter(i) => FaultyReporter(checks, reporters, f, i)
  }

  ghost predicate Accepted(checks: seq<CheckConfig>, reporters: seq<ReporterConfig>, server: ServerConfig) {
    forall f :: !Faulty(checks, reporters, server, f)
  }

  class Config {
    var defaultTimeout: int
    var statePath: string
    var checks: seq<CheckConfig>
    var reporters: seq<ReporterConfig>
    var server: ServerConfig

    constructor (defaultTimeout: int, statePath: string, checks: seq<CheckConfig>,
                 reporters: seq<ReporterConfig>, server: ServerConfig)
      ensures this.defaultTimeout == defaultTimeout && this.statePath == statePath && this.checks == checks
      ensures this.reporters == reporters && this.server == server
    {
      this.defaultTimeout, this.statePath := defaultTimeout, statePath;
      this.checks, this.reporters, this.server := checks, reporters, server;
    }

    // Nothing a run depends on is left unset, and nothing that was set changes.
    method ApplyDefaults()
      modifies this
      ensures defaultTimeout == if old(defaultTimeout) == 0 then 10_000_000_000 else old(defaultTimeout)
      ensures statePath == if old(statePath) == "" then "syscheckr-state.json" else old(statePath)
      ensures server == if old(server).listen != "" && old(server).schedule == ""
                        then old(server).(schedule := "@every 30s") else old(server)
      ensures reporters == old(reporters) && |checks| == |old(checks)|
      ensures forall i :: 0 <= i < |checks| ==>
        checks[i] == if old(checks)[i].timeout == 0 then old(checks)[i].(timeout := defaultTimeout) else old(checks)[i]
      ensures statePath != "" && forall i :: 0 <= i < |checks| ==> checks[i].timeout != 0
    {
      if defaultTimeout == 0 { defaultTimeout := 10 * SECOND; }
      if statePath == "" { statePath := "syscheckr-state.json"; }
      if Enabled(server) && server.schedule == "" { server := server.(schedule := "@every 30s"); }
      for i := 0 to |checks|
        invariant |checks| == |old(checks)|
        invariant reporters == old(reporters) && statePath == old(if statePath == "" then "syscheckr-state.json" else statePath)
        invariant defaultTimeout == old(if defaultTimeout == 0 then 10 * SECOND else defaultTimeout)
        invariant server == old(if Enabled(server) && server.schedule == "" then server.(schedule := "@every 30s") else server)
        invariant forall j :: 0 <= j < |checks| ==>
          checks[j] == if j < i && old(checks)[j].timeout == 0 then old(checks)[j].(timeout := defaultTimeout)
                       else old(checks)[j]
      {
        if checks[i].timeout == 0 {
          checks := checks[i := checks[i].(timeout := defaultTimeout)];
        }
      }
    }

    /** The faults reported are exactly the rules broken. */
    method Validate() returns (errs: seq<Fault>)
      ensures forall f :: f in errs <==> Faulty(checks, reporters, server, f)
      ensures errs == [] <==> Accepted(checks, reporters, server)
    {
      errs := [];
      if |checks| == 0 && !Enabled(server) { errs := errs + [NoChecks]; }
      var seenCheck: set<string> := {};
      for i := 0 to |checks|
        invariant forall n :: n in seenCheck <==> exists j :: 0 <= j < i && checks[j].name == n
        invariant forall f :: f in errs <==> Faulty(checks, reporters, server, f) && Covered(f, i, 0)
      {
        var found := ValidateCheck(i, seenCheck);
        errs := errs + found;
        seenCheck := seenCheck + {checks[i].name};
      }
      var seenRep: set<string> := {};
      for i := 0 to |reporters|
        invariant forall n :: n in seenRep <==> exists j :: 0 <= j < i && reporters[j].name == n
        invariant forall f :: f in errs <==> Faulty(checks, reporters, server, f) && Covered(f, |checks|, i)
      {
        var found := ValidateReporter(i, seenRep, seenCheck);
        errs := errs + found;
        seenRep := seenRep + {reporters[i].name};
      }
      assert errs != [] ==> errs[0] in errs;
    }

    // The body of the loop over checks.
    method ValidateCheck(i: nat, seenCheck: set<string>) returns (errs: seq<Fault>)
      requires i < |checks|
      requires forall n :: n in seenCheck <==> exists j :: 0 <= j < i && checks[j].name == n
      ensures forall f :: f in errs <==> Faulty(checks, reporters, server, f) && SubjectOf(f) == OfCheck(i)
    {
      errs := [];
      var ch := checks[i];
      if ch.name == "" {
        errs := errs + [CheckUnnamed(i)];
      } else if ch.name in seenCheck {
        errs := errs + [CheckDuplicate(i)];
      }
      if ch.kind == "" { errs := errs + [CheckUntyped(i)]; }
    }

    // The body of the loop over reporters.
    method ValidateReporter(i: nat, seenRep: set<string>, seenCheck: set<string>) returns (errs: seq<Fault>)
      requires i < |reporters|
      requires forall n :: n in seenRep <==> exists j :: 0 <= j < i && reporters[j].name == n
      requires forall n :: n in seenCheck <==> exists j :: 0 <= j < |checks| && checks[j].name == n
      ensures forall f :: f in errs <==> Faulty(checks, reporters, server, f) && SubjectOf(f) == OfReporter(i)
    {
      hide ToLower, ValidSeverity;
      errs := OwnRules(i, seenRep);
      var quiet := HeartbeatRules(i);
      var unknown := UnknownChecks(i, seenCheck);
      errs := errs + quiet + unknown;
    }

    // What a reporter says about itself.
    method OwnRules(i: nat, seenRep: set<string>) returns (errs: seq<Fault>)
      requires i < |reporters|
      requires forall n :: n in seenRep <==> exists j :: 0 <= j < i && reporters[j].name == n
      ensures forall f :: f in errs <==> AboutItself(f) && f.i == i && FaultyReporter(checks, reporters, f, i)
    {
      hide ToLower, ValidSeverity;
      var rp := reporters[i];
      errs := [];
      if rp.name == "" {
        errs := errs + [ReporterUnnamed(i)];
      } else if rp.name in seenRep {
        errs := errs + [ReporterDuplicate(i)];
      }
      if rp.kind == "" { errs := errs + [ReporterUntyped(i)]; }
      if rp.minSeverity != "" {
        if !ValidSeverity(rp.minSeverity) { errs := errs + [SeverityInvalid(i)]; }
      }
      if rp.dedupeWindow.Some? && rp.dedupeWindow.value < 0 { errs := errs + [WindowNegative(i)]; }
    }

    // Settings that would silently stop a heartbeat.
    method HeartbeatRules(i: nat) returns (errs: seq<Fault>)
      requires i < |reporters|
      ensures forall f :: f in errs <==> AboutLiveness(f) && f.i == i && FaultyReporter(checks, reporters, f, i)
    {
      var rp := reporters[i];
      errs := [];
      if rp.kind == "heartbeat" {
        if rp.onlyFailing { errs := errs + [HeartbeatOnlyFailing(i)]; }
        if rp.minSeverity != "" && ToLower(rp.minSeverity) != "ok" { errs := errs + [HeartbeatSeverity(i)]; }
        if rp.repeatAlerts.Some? && !rp.repeatAlerts.value { errs := errs + [HeartbeatQuiet(i)]; }
      }
    }

    // Check names a reporter mentions that no check has.
    method UnknownChecks(i: nat, seenCheck: set<string>) returns (errs: seq<Fault>)
      requires i < |reporters|
      requires forall n :: n in seenCheck <==> exists j :: 0 <= j < |checks| && checks[j].name == n
      ensures forall f :: f in errs <==> f.UnknownCheck? && f.i == i && FaultyReporter(checks, reporters, f, i)
    {
      var mentioned := reporters[i].checks;
      errs := [];
      for m := 0 to |mentioned|
        invariant forall f :: f in errs <==> f.UnknownCheck? && f.i == i && f.name in mentioned[..m] && f.name !in seenCheck
      {
        assert mentioned[..m + 1] == mentioned[..m] + [mentioned[m]];
        if mentioned[m] !in seenCheck { errs := errs + [UnknownCheck(i, mentioned[m])]; }
      }
      assert mentioned[..|mentioned|] == mentioned;
    }
  }

  // Faults about the document and the entries already visited.
  predicate Covered(f: Fault, checksDone: nat, reportersDone: nat) {
    match SubjectOf(f)
    case Document => true
    case OfCheck(i) => i < checksDone
    case OfReporter(i) => i < reportersDone
  }

  // --- Routes ---------------------------------------------------------------------------------

  /** Fails on a severity that is no status word, and otherwise sets everything the reporter sets,
      leaving the type's defaults for the rest. */
  method BuildRoute(rc: ReporterConfig) returns (route: Option<Route>)
    ensures route == RouteOf(rc)
    ensures route.None? <==> rc.minSeverity != "" && forall s :: ToLower(TrimSpace(rc.minSeverity)) !in Words(s)
    ensures route.Some? ==> SetsRoute(rc, route.value)
  {
    hide ParseStatus;
    forall s ensures ParseStatus(rc.minSeverity) == Some(s) <==> ToLower(TrimSpace(rc.minSeverity)) in Words(s) {
      ParsesItsWords(rc.minSeverity, s);
    }
    hide Words, ToLower, TrimSpace;
    var r := Route(OK, rc.checks, rc.tags, rc.onlyFailing, false, 0);
    if rc.kind == "log" {
      r := r.(repeatAlerts := true);
    } else if rc.kind == "heartbeat" {
      r := r.(repeatAlerts := true);
    } else if rc.kind == "linear" {
      r := r.(dedupeWindow := DAY);
    }
    if rc.repeatAlerts.Some? { r := r.(repeatAlerts := rc.repeatAlerts.value); }
    if rc.dedupeWindow.Some? { r := r.(dedupeWindow := rc.dedupeWindow.value); }
    if rc.minSeverity != "" {
      var s := ParseStatus(rc.minSeverity);
      if s.None? { return None; }
      r := r.(minSeverity := s.value);
    }
    return Some(r);
  }

  predicate SetsRoute(rc: ReporterConfig, route: Route) {
    && route.checks == rc.checks && route.tags == rc.tags && route.onlyFailing == rc.onlyFailing
    && (rc.minSeverity == "" ==> route.minSeverity == OK)
    && (rc.minSeverity != "" ==> ToLower(TrimSpace(rc.minSeverity)) in Words(route.minSeverity))
    && (rc.repeatAlerts.Some? ==> route.repeatAlerts == rc.repeatAlerts.value)
    && (rc.repeatAlerts.None? ==> (route.repeatAlerts <==> rc.kind in {"log", "heartbeat"}))
    && (rc.dedupeWindow.Some? ==> route.dedupeWindow == rc.dedupeWindow.value)
    && (rc.dedupeWindow.None? && rc.kind == "linear" ==> route.dedupeWindow == 86_400_000_000_000)
    && (rc.dedupeWindow.None? && rc.kind != "linear" ==> route.dedupeWindow == 0)
  }

  function RouteOf(rc: ReporterConfig): Option<Route> {
    var repeat := if rc.repeatAlerts.Some? then rc.repeatAlerts.value else rc.kind == "log" || rc.kind == "heartbeat";
    var window := if rc.dedupeWindow.Some? then rc.dedupeWindow.value else if rc.kind == "linear" then DAY else 0;
    var severity := if rc.minSeverity == "" then Some(OK) else ParseStatus(rc.minSeverity);
    if severity.None? then None
    else Some(Route(severity.value, rc.checks, rc.tags, rc.onlyFailing, repeat, window))
  }

  lemma LowerKeepsSpaces(s: string)
    requires s != []
    ensures IsSpace(s[0]) ==> IsSpace(ToLower(s)[0])
    ensures IsSpace(s[|s| - 1]) ==> IsSpace(ToLower(s)[|s| - 1])
  {
  }

  // Severities that validate are those that parse and have no space around them.
  lemma ValidSeverityParses(s: string)
    ensures ValidSeverity(s) <==> ParseStatus(s).Some? && TrimSpace(s) == s
    ensures ToLower(s) == "ok" ==> ParseStatus(s) == Some(OK)
  {
    if ValidSeverity(s) {
      assert |ToLower(s)| > 0;
      LowerKeepsSpaces(s);
      assert TrimLeft(s) == s && TrimRight(s) == s;
    }
  }

  // The reporter with the one setting cleared that the fault names.
  function Repaired(rp: ReporterConfig, f: Fault): ReporterConfig {
    match f
    case ReporterUnnamed(_) => rp.(name := "named")
    case ReporterDuplicate(_) => rp.(name := "")
    case ReporterUntyped(_) => rp.(kind := "typed")
    case SeverityInvalid(_) => rp.(minSeverity := "")
    case WindowNegative(_) => rp.(dedupeWindow := None)
    case HeartbeatOnlyFailing(_) => rp.(onlyFailing := false)
    case HeartbeatSeverity(_) => rp.(minSeverity := "")
    case HeartbeatQuiet(_) => rp.(repeatAlerts := None)
    case UnknownCheck(_, name) => rp.(checks := Keep(rp.checks, n => n != name))
    case _ => rp
  }

  // Every fault blames the setting at fault: clearing that one removes it.
  lemma FaultsBlameTheirSetting(checks: seq<CheckConfig>, reporters: seq<ReporterConfig>, server: ServerConfig, f: Fault)
    requires SubjectOf(f).OfReporter? && Faulty(checks, reporters, server, f)
    ensures !Faulty(checks, reporters[f.i := Repaired(reporters[f.i], f)], server, f)
  {
    if f.UnknownCheck? { KeepMember(reporters[f.i].checks, n => n != f.name, f.name); }
  }

  // The same for checks: naming, renaming or typing it.
  lemma CheckFaultsBlameTheirSetting(checks: seq<CheckConfig>, reporters: seq<ReporterConfig>, server: ServerConfig, i: nat)
    requires i < |checks|
    ensures !Faulty(checks[i := checks[i].(name := "named")], reporters, server, CheckUnnamed(i))
    ensures !Faulty(checks[i := checks[i].(name := "")], reporters, server, CheckDuplicate(i))
    ensures !Faulty(checks[i := checks[i].(kind := "typed")], reporters, server, CheckUntyped(i))
  {
  }

  /** An accepted configuration in words: something to do, checks and reporters with distinct names and
      with types, known severities, windows that are not negative, heartbeats that nothing silences,
      and no mention of a check that does not exist. */
  lemma AcceptedInWords(checks: seq<CheckConfig>, reporters: seq<ReporterConfig>, server: ServerConfig)
    ensures Accepted(checks, reporters, server) <==> Sound(checks, reporters, server)
  {
    hide SoundReporter;
    if Accepted(checks, reporters, server) {
      ValidatedConfig(checks, reporters, server);
      assert !Faulty(checks, reporters, server, NoChecks);
      forall i: nat | i < |checks| ensures checks[i].name != "" && checks[i].kind != "" {
        assert !Faulty(checks, reporters, server, CheckUnnamed(i)) && !Faulty(checks, reporters, server, CheckUntyped(i));
      }
      forall i: nat | i < |reporters| ensures SoundReporter(checks, reporters[i]) {
        FaultlessIsSound(checks, reporters, server, i);
      }
    } else {
      var f :| Faulty(checks, reporters, server, f);
      FaultyIsUnsound(checks, reporters, server, f);
    }
  }

  predicate Sound(checks: seq<CheckConfig>, reporters: seq<ReporterConfig>, server: ServerConfig) {
    && (|checks| > 0 || server.listen != "")
    && (forall i :: 0 <= i < |checks| ==> checks[i].name != "" && checks[i].kind != "")
    && (forall i, j :: 0 <= i < j < |checks| ==> checks[i].name != checks[j].name)
    && (forall i :: 0 <= i < |reporters| ==> SoundReporter(checks, reporters[i]))
    && (forall i, j :: 0 <= i < j < |reporters| ==> reporters[i].name != reporters[j].name)
  }

  predicate SoundReporter(checks: seq<CheckConfig>, rp: ReporterConfig) {
    && rp.name != "" && rp.kind != ""
    && (rp.minSeverity != "" ==> TrimSpace(rp.minSeverity) == rp.minSeverity && ParseStatus(rp.minSeverity).Some?)
    && (rp.dedupeWindow.Some? ==> rp.dedupeWindow.value >= 0)
    && (rp.kind == "heartbeat" ==>
         && !rp.onlyFailing && rp.repeatAlerts != Some(false)
         && (rp.minSeverity == "" || ToLower(rp.minSeverity) == "ok"))
    && (forall name :: name in rp.checks ==> exists c :: c in checks && c.name == name)
  }

  lemma FaultlessIsSound(checks: seq<CheckConfig>, reporters: seq<ReporterConfig>, server: ServerConfig, i: nat)
    requires Accepted(checks, reporters, server) && i < |reporters|
    ensures SoundReporter(checks, reporters[i])
  {
    hide ToLower, TrimSpace, ParseStatus, ValidSeverity;
    var rp := reporters[i];
    ValidSeverityParses(rp.minSeverity);
    assert !Faulty(checks, reporters, server, ReporterUnnamed(i)) && !Faulty(checks, reporters, server, ReporterUntyped(i));
    assert !Faulty(checks, reporters, server, SeverityInvalid(i)) && !Faulty(checks, reporters, server, WindowNegative(i));
    assert !Faulty(checks, reporters, server, HeartbeatOnlyFailing(i)) && !Faulty(checks, reporters, server, HeartbeatQuiet(i));
    assert !Faulty(checks, reporters, server, HeartbeatSeverity(i));
    forall name | name in rp.checks ensures exists c :: c in checks && c.name == name {
      assert !Faulty(checks, reporters, server, UnknownCheck(i, name));
    }
  }

  lemma FaultyIsUnsound(checks: seq<CheckConfig>, reporters: seq<ReporterConfig>, server: ServerConfig, f: Fault)
    requires Faulty(checks, reporters, server, f)
    ensures !Sound(checks, reporters, server)
  {
    hide ToLower, TrimSpace, ParseStatus, ValidSeverity;
    if SubjectOf(f).OfReporter? && f.i < |reporters| { ValidSeverityParses(reporters[f.i].minSeverity); }
  }

  // What the runner may rely on after validation: names are unique and every route can be built.
  lemma ValidatedConfig(checks: seq<CheckConfig>, reporters: seq<ReporterConfig>, server: ServerConfig)
    requires Accepted(checks, reporters, server)
    ensures forall i, j :: 0 <= i < j < |checks| ==> checks[i].name != checks[j].name
    ensures forall i, j :: 0 <= i < j < |reporters| ==> reporters[i].name != reporters[j].name
    ensures forall i :: 0 <= i < |reporters| ==> RouteOf(reporters[i]).Some? && RouteOf(reporters[i]).value.dedupeWindow >= 0
  {
    forall i, j | 0 <= i < j < |checks| ensures checks[i].name != checks[j].name {
      assert !Faulty(checks, reporters, server, CheckUnnamed(j)) && !Faulty(checks, reporters, server, CheckDuplicate(j));
    }
    forall i, j | 0 <= i < j < |reporters| ensures reporters[i].name != reporters[j].name {
      assert !Faulty(checks, reporters, server, ReporterUnnamed(j)) && !Faulty(checks, reporters, server, ReporterDuplicate(j));
    }
    forall i | 0 <= i < |reporters|
      ensures RouteOf(reporters[i]).Some? && RouteOf(reporters[i]).value.dedupeWindow >= 0
    {
      assert !Faulty(checks, reporters, server, SeverityInvalid(i)) && !Faulty(checks, reporters, server, WindowNegative(i));
      if reporters[i].minSeverity != "" { ValidSeverityParses(reporters[i].minSeverity); }
    }
  }

  // --- Liveness ---------------------------------------------------------------------------------

  // A route that repeats its alerts is handed all it accepts, whatever the store holds.
  lemma {:induction false} RepeatingRouteHandsAll(entries: Entries, reps: seq<BoundReporter>, k: nat,
                                                  changed: map<string, bool>, call: Call)
    requires k < |reps| && reps[k].route.repeatAlerts
    ensures Slices(entries, reps, changed, call)[k] == Keep(call.results, Accepting(reps[k].route))
    decreases |reps|
  {
    if k > 0 { RepeatingRouteHandsAll(After(entries, reps[0], changed, call), reps[1..], k - 1, changed, call); }
  }

  /** A heartbeat reporter of an accepted configuration with no checks and tags lists is handed the
      complete results of every Report, for every store and every set of colleagues. */
  lemma HeartbeatNeverStarved(checks: seq<CheckConfig>, reporters: seq<ReporterConfig>, server: ServerConfig, i: nat,
                              entries: Entries, reps: seq<BoundReporter>, k: nat, call: Call)
    requires Accepted(checks, reporters, server) && i < |reporters| && reporters[i].kind == "heartbeat"
    requires reporters[i].checks == [] && reporters[i].tags == []
    requires k < |reps| && Some(reps[k].route) == RouteOf(reporters[i])
    ensures Handed(entries, reps, call)[k] == call.results
  {
    hide Slices, Keep;
    var rp := reporters[i];
    assert !Faulty(checks, reporters, server, HeartbeatOnlyFailing(i));
    assert !Faulty(checks, reporters, server, HeartbeatQuiet(i));
    assert !Faulty(checks, reporters, server, HeartbeatSeverity(i));
    assert !Faulty(checks, reporters, server, SeverityInvalid(i));
    if rp.minSeverity != "" { ValidSeverityParses(rp.minSeverity); }
    RepeatingRouteHandsAll(entries, reps, k, Snapshot(entries, call.results), call);
    KeepAll(call.results, Accepting(reps[k].route));
  }

  function Joined(names: seq<string>): string {
    if names == [] then "x" else names[0] + Joined(names[1..])
  }

  lemma {:induction false} JoinedIsFresh(names: seq<string>)
    ensures forall n :: n in names ==> |n| < |Joined(names)|
    ensures |Joined(names)| > 0
  {
    if names != [] { JoinedIsFresh(names[1..]); }
  }

  // With a checks or tags list it can be starved: the two lists are the exact condition.
  lemma FilteredHeartbeatStarves(rp: ReporterConfig, entries: Entries, reps: seq<BoundReporter>, k: nat,
                                 now: int, deliver: (string, seq<Result>) -> Outcome)
    returns (call: Call)
    requires rp.kind == "heartbeat" && rp.repeatAlerts != Some(false)
    requires rp.checks != [] || rp.tags != []
    requires k < |reps| && Some(reps[k].route) == RouteOf(rp)
    ensures call.results != [] && Handed(entries, reps, call)[k] == []
  {
    JoinedIsFresh(rp.checks);
    call := Call([Result(Joined(rp.checks), Unknown, "", [])], now, deliver);
    RepeatingRouteHandsAll(entries, reps, k, Snapshot(entries, call.results), call);
    assert !Accepts(reps[k].route, call.results[0]);
    assert call.results[1..] == [];
  }
}
