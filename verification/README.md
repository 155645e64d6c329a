# syscheckr: alert on change, verified

syscheckr runs health checks, and tells each reporter about a check only when there is something
new to say. This project models that alert engine in Dafny and proves what it promises over whole
runs: any sequence of reports, any clock readings, any pattern of failed deliveries, any restarts,
any interleaving of schedule groups. Around the engine it models the heartbeat server, the schedule
groups, configuration validation, and three small self-contained routines (the `.env` reader, byte
scaling, unique names in the init wizard).

`dafny verify dfyconfig.toml` checks everything.

## How the model is organised

- `State.dfy`, `Routing.dfy`, `Linear.dfy`, `Runner.dfy`, `Heartbeat.dfy`, `Scheduler.dfy`,
  `Config.dfy`, `Dotenv.dfy`, `HumanBytes.dfy`, `Wizard.dfy` hold the imperative code: classes with the
  fields the sources mutate, methods with the loops the sources have. `Check.dfy`, `Selection.dfy`,
  `Sorting.dfy` and `Text.dfy` hold values.
- `Engine.dfy` says what one `Report` does as a function of the store: `Step` (the next store) and
  `Handed` (the slice each reporter is called with). `Runner.Reporting.Report` is proved to compute
  exactly these. What a delivery answers is an arbitrary function `deliver` of the reporter and the
  slice; what the disk answers is an arbitrary boolean.
- `EngineFacts.dfy` projects a step onto one reporter and one check: a cell with two fields, the
  status last observed and the last delivery. `History.dfy` proves the single-run theorems on that,
  `Complaints.dfy` when a report writes and what it complains about,
  `TwoRuns.dfy` the comparisons of two runs, `Tickets.dfy` the reporter that files result by result,
  `Restart.dfy` restarts, and `Outage.dfy` the heartbeat server end to end.
- `Interleaving.dfy`, `Serializability.dfy` and `Daemon.dfy` hold the concurrency, `Overlap.dfy` why
  reports that share a check must take turns, and `Chronicle.dfy` the whole daemon: pings, groups and
  evaluations over one store.

A theorem speaks about a `History`: a starting store, the reporters in order, and the calls.
`h.SliceAt(k, i)` is what reporter `k` is handed by call `i`; `LastSeen`, `LastTold`, `LandedAt` are
facts about the calls before, so a theorem in those terms does not mention the store at all.

## Hypotheses the code does not enforce

- Reporter names are `Apart`: different, and neither continues the other after a colon. Names
  without a colon are. `EngineFacts.NotifyKeysMeet` shows this is exactly when two reporters cannot
  share a notify key, and `TwoRuns.SharedKeysInterfere` that sharing one does lose alerts.
- One report has at most one result per check (`Distinct`), and in `Daemon.dfy` no configured check
  is called `heartbeat:...`. A heartbeat evaluation is `Distinct` by proof (`Outage.CallsDistinct`).
- A check that returns labels its result with its own name (`Scheduler.RunningNamesItself`; the result
  of a panic is labelled by the runner).
- Reports that share a check take turns (`Serializability.NeverMeet`): a schedule group or the
  heartbeat evaluation is not started again before its last run has finished. The cron library starts
  jobs regardless. `Overlap.OverlapAlertsTwice` shows that without this any two reports of one status
  have an interleaving that alerts twice; then only `Serializability.DiskCatchesUp` and
  `Serializability.CanAlwaysFinish` hold.
- The detection bound asks for a clock that never goes back and a daemon that ticks at most `gap`
  after its start and after each tick (`Outage.ClockForward`, `Outage.TicksEvery`). `ClockForward`
  orders pings only; the count of alerts asks for evaluations whose clock readings are in order
  (`Outage.TicksInOrder`), which holds when they take turns.
- A heartbeat evaluation starts after the report of the one before has finished
  (`Daemon.EvaluatesInTurn`), the same condition as above seen from the registry.

## Where code and documentation differ

- README.md:180-181 says a failed delivery is retried by the next run. That is not unconditional:
  `Histories.RetryIsNotUnconditional` gives the run, `Histories.RetryExactly` the exact condition.
- internal/state/state.go:59-61 counts at most one duplicate alert per check after losing the state;
  it is one per reporter and check: `TwoRuns.TwoReportersRepeat` gives the run,
  `TwoRuns.ColdStartExtras` the exact condition.
- README.md:229-230 promises one crit when a client goes dark and one ok when it comes back. That is
  not unconditional: a ping between two ticks goes unevaluated, so a client that comes back and goes
  dark again within one tick gets neither (`Outage.SecondOutageUnalerted`, for every timeout below the
  tick gap). `Outage.OneAlertPerSilence` says exactly when each alert comes. Nor does a restart start
  afresh: the keys are forgotten and the store is kept, so a key's first verdict after a restart
  alerts unless the reporter had been told that very status before (`Outage.ToldBefore`).

## Model

| member | source | states |
|---|---|---|
| Runner.Reporting.Report | internal/runner/runner.go:224-289 | the new store, the slice of every reporter, the errors in order and the saved file are those of one engine step; the file changes only if something was written and the save works |
| Complaints.WritesWhenNews | internal/runner/runner.go:226-280 | a report writes, and so saves, iff it observed a check at a new status or something got through to a reporter that keeps count |
| Complaints.ComplaintsExplained | internal/runner/runner.go:225-288 | its errors are the undelivered reporters, exactly and in order, and last, whatever else failed, the save if there was news and it failed |
| Runner.Reporting.NotifyAll | internal/runner/runner.go:238-272 | the reporters' turns in sequence, each on the store its predecessors left |
| Runner.Reporting.Turn | internal/runner/runner.go:240-271 | one reporter's filtering, suppression, delivery and marking, for success, total and partial failure |
| Runner.Reporting.Unnotified | internal/runner/runner.go:293-308 | keeps, in order, the results that moved, were never told, were told at another status, or whose window elapsed |
| Runner.Reporting.TakeSnapshot | internal/runner/runner.go:232-236 | which checks differ from their last observed status, before any delivery |
| Runner.Reporting.Observe | internal/runner/runner.go:274-279 | records the status of every check that moved, and says whether it wrote |
| State.Store.Open | internal/state/state.go:45-68 | fails only on an unreadable file; otherwise starts with the entries of a saved file, and empty when it is absent, blank or damaged |
| State.Store.Flush | internal/state/state.go:87-123 | replaces the whole file or leaves it as it was; after success the file and the store agree |
| Routing.Filter | internal/report/report.go:81-101 | keeps, in order, all but the successes where only failures are wanted, what is milder than the minimum, the checks not named and the results without a wanted tag |
| Check.SeverityIsRank | internal/check/check.go:43-58 | severities rank ok, warn, crit, unknown |
| Routing.HasAnyTag | internal/report/report.go:153-160 | true iff some tag is wanted |
| Linear.Report | internal/report/linear.go:76-94 | files, in order, an issue for each result that can be filed; no error iff all were created, and otherwise the failed checks are exactly those of results whose issue was refused |
| Linear.LandsIffCreated | internal/report/linear.go:80-92 | with one result per check, a check lands iff its own issue was created |
| EngineFacts.NotifyKeysMeet | internal/runner/runner.go:314-316 | two reporters share a notify key for some checks iff their names are equal or one continues the other after a colon |
| EngineFacts.KeysSpelled | internal/runner/runner.go:312-316 | the keys of the state file, part by part |
| EngineFacts.ColonFreeNamesSeparate | internal/runner/runner.go:314-316 | distinct names without a colon never share a key |
| EngineFacts.TurnOf | internal/runner/runner.go:239-272 | taking turns over the shared store comes out, for every reporter, as if it had gone first |
| EngineFacts.HandedProjects | internal/runner/runner.go:239-246 | whether a reporter is handed a result depends only on its route, the time, and its cell for that check |
| EngineFacts.StepProjects | internal/runner/runner.go:224-289 | a whole Report over all reporters and checks, seen from one reporter and one check, is one step of a two-field cell |
| Histories.MemoryIsHistory | internal/runner/runner.go:259-279 | in every reachable state the two memories are the status last observed and the time and status of the last successful delivery |
| Histories.QuietMeansAgreed | internal/runner/runner.go:293-308 | an accepted result is withheld iff the reporter was last told that very status, the check did not just change, and no positive window has elapsed |
| Histories.RepeatersHearEverything | internal/runner/runner.go:242-266 | a reporter that repeats its alerts is handed every result it accepts, and the store keeps nothing for it |
| Histories.StatusEntryIsLastChange | internal/runner/runner.go:274-279 | a check's status entry holds the time and status of the last observation that changed it |
| Histories.RetryExactly | internal/runner/runner.go:247-303 | after a failed delivery, a later unchanged observation is attempted iff the last success before it is absent, at another status, or older than a positive window |
| Histories.RetryIsNotUnconditional | internal/runner/runner.go:247-303 | the documented retry fails: warn lands, ok is filtered, warn fails, and the next warn is quiet |
| Histories.AlertsAreSpaced | internal/runner/runner.go:297-302 | while a check keeps its status, successful deliveries are a positive window apart, and without a window there is at most one, under any failures |
| Histories.AlertRateBound | internal/runner/runner.go:297-302 | at most 1 + T/W deliveries over a stable stretch of length T |
| Histories.TraceRefinement | internal/runner/runner.go:232-308 | from any store a reliable windowless reporter gets exactly the accepted results that changed the status or differ from the status it was last told; from an empty store, from the status it last accepted |
| Histories.ChangePointsThenFilter | internal/runner/runner.go:232-308 | what a reporter receives about a check is the route's selection from the check's change points, recoveries it never sees included, if and only if no accepted observation repeats the last status while differing from the last accepted one; otherwise it receives more |
| Histories.SteadyRouteFilters | internal/report/report.go:81-101 | so it is for every route that judges by check and status |
| Histories.SteadyTagsSuffice | internal/report/report.go:95-97 | a route without tags, or checks whose tags never vary, make acceptance a matter of status |
| Histories.ChangingTagsAlertUnchanged | internal/report/report.go:95-97 | a check whose tags vary, by its own doing or by an edited configuration, is handed over at an observation that changed nothing |
| TwoRuns.NonInterference | internal/runner/runner.go:228-272 | a reporter's whole trace is the same whatever other reporters exist, in whatever order, failing or not |
| TwoRuns.SharedKeysInterfere | internal/runner/runner.go:314-316 | for any two different names that share a key, one reporter's presence silences an alert of the other |
| TwoRuns.ColdStartExtras | internal/state/state.go:57-66 | replaying a run from an emptied store delivers everything the original did, and more exactly where an accepted result is still at the status last observed, the reporter was told that status before the run, and nothing was accepted since |
| TwoRuns.ColdStartAddsAtMostOne | internal/state/state.go:57-66 | two additional alerts of one reporter are about two checks |
| TwoRuns.ColdStartAddsTheFirst | internal/state/state.go:57-66 | the additional alert is at the first observation of the check if and only if nothing resurfaces there, so always with a steady route |
| TwoRuns.ExtraAtSecondObservation | internal/report/report.go:95-97 | a check first seen without its tag is repeated at the second observation |
| TwoRuns.TheToldIsToldAgain | internal/state/state.go:57-66 | every reporter a report has reached is told again after the store is lost |
| TwoRuns.TwoReportersRepeat | internal/state/state.go:57-66 | so one check can be repeated to two reporters |
| Tickets.EntryMovesWithItsTicket | internal/report/linear.go:76-94 | composed with the engine, a check's notify entry moves in a call iff its own issue was created there |
| Tickets.NoSecondTicket | internal/report/report.go:103-113 | with no window a check that keeps its status gets no second ticket, whatever failed beside it |
| Tickets.FailedTicketRetries | internal/report/linear.go:88-91 | a sibling whose issue failed stays under the exact retry condition |
| Restart.CleanReportWritesNothing | internal/runner/runner.go:226-284 | the dirty flag is unset only if the step left the store as it was |
| Restart.RestartTransparency | internal/state/state.go:45-123 | if saves succeed, restarting between any Reports changes no delivery and no state |
| Restart.RestartsAreHistory | internal/state/state.go:45-123 | a life with restarts is a history, so every theorem on histories holds across restarts |
| Restart.FileHoldsAPastMemory | internal/state/state.go:87-123 | whatever saves fail and wherever the process restarts, the file holds whole the memory of some earlier moment, and every report since then wrote nothing or could not save |
| Restart.CronRun | internal/cli/cli.go:81-106 | open, run every check, report, exit: the file carries one engine step from each process to the next, and the exit code is 2 exactly if a check is crit or unknown |
| Restart.WorstStatus | internal/runner/runner.go:345-354 | unknown if there is one, otherwise crit, otherwise warn, otherwise ok |
| Interleaving.SoloFinish | internal/runner/runner.go:224-289 | the access-by-access machine of Report, run alone, hands out and leaves what one engine step does |
| Interleaving.SoloEnds | internal/runner/runner.go:224-289 | and it comes to its end |
| Interleaving.OneAccess | internal/state/state.go:71-84 | a step of the machine reads or writes one store key at most |
| Serializability.StepFrame | internal/runner/runner.go:224-289 | a Report touches only its own checks' keys |
| Serializability.StepAgrees | internal/runner/runner.go:224-289 | and what it hands out and writes depends only on those keys |
| Serializability.StrictlySerializable | internal/scheduler/scheduler.go:100-117 | any number of Reports, interleaved access by access in any way as long as those that share a check take turns, hand out the same slices and leave the same store as running them one after the other in the order in which they finished, which respects real time |
| Serializability.ConcurrentRunIsHistory | internal/scheduler/scheduler.go:100-117 | so every theorem on histories holds of concurrent reports |
| Serializability.Serializable | internal/scheduler/scheduler.go:100-117 | over pairwise disjoint checks they even commute: any serial order gives the same |
| Serializability.DiskCatchesUp | internal/state/state.go:91-123 | once all reports have finished, the file equals the store, whoever saved last |
| Serializability.CanAlwaysFinish | internal/runner/runner.go:224-289 | from any point of any interleaving all reports can still be finished |
| Overlap.BothActAsFirst | internal/runner/runner.go:224-289 | of any two reports over any store some interleaving hands a given reporter, in each, what it would be handed if the other did not exist |
| Overlap.OverlapAlertsTwice | internal/runner/runner.go:224-289 | taking turns is necessary: any two reports that each owe a reporter the same status of a check have an interleaving that hands it over twice, while one after the other the second hands it over iff a positive window has elapsed between them |
| Daemon.Service.RunGroup | internal/scheduler/scheduler.go:101-117 | the group's own results go through one engine step; the slices, the file, and the run's time, errors and count are as that step says |
| Daemon.Service.ReportHeartbeats | internal/scheduler/scheduler.go:88-98 | the evaluation of every client goes through one engine step, with its slices and its file; before the first ping nothing happens |
| Complaints.NoErrorsMeansDelivered | internal/runner/runner.go:251-288 | Report returns no error iff every slice handed out was delivered whole and what was written was saved |
| Daemon.DaemonIsHistory | internal/scheduler/scheduler.go:55-98 | a daemon's whole life, its groups and heartbeat evaluations reporting any number of times and interleaved in any way, is one history in completion order, provided no job overlaps itself; the file ends equal to the store |
| Daemon.DaemonSerializable | internal/scheduler/scheduler.go:55-98 | one round of the jobs may be reported in any order |
| Daemon.DaemonRoutesAreSteady | internal/runner/runner.go:193-194 | within one process tags come from the configuration alone, so every route judges by check and status |
| Chronicle.DaemonIsRun | internal/scheduler/scheduler.go:55-117 | a daemon with groups, pings and evaluations over one store, interleaved in any way and no job overlapping itself, is one run: its reports in completion order are the calls of a run that heard exactly these pings, with the same slices, store and file |
| Chronicle.DaemonAlertsOutage | internal/scheduler/scheduler.go:86-98 | in that daemon, whatever its groups report meanwhile, the evaluation in (L+d, L+d+P] detects the outage, and its goroutine hands over the crit iff a tick came before the deadline or the key did not stand at crit before the ping |
| Sorting.ListingUnique | internal/heartbeat/heartbeat.go:167-167 | a set of results has only one strictly ordered listing |
| Sorting.SortSorts | internal/runner/runner.go:142-142 | sorting results of distinct checks yields strict name order and loses nothing |
| Text.BelowIsDictionary | internal/runner/runner.go:142-142 | that order is the byte-wise dictionary order: a proper prefix first, otherwise the first difference decides |
| Heartbeat.Registry.ServePing | internal/heartbeat/heartbeat.go:87-134 | unauthorized iff a token is set and the header is not exactly the bearer of it; accepted iff authorized, with 1 to 128 allowed characters and a timeout above 0 and at most 24h; the registry changed only by an accepted ping |
| Heartbeat.Registry.Results | internal/heartbeat/heartbeat.go:138-169 | one result per key, named and tagged as a heartbeat, crit iff the timeout has passed, in dictionary order, whatever the map order |
| Heartbeat.EvaluationUnique | internal/heartbeat/heartbeat.go:145-168 | that listing is determined by the registry and the clock |
| Heartbeat.CritMeansSilence | internal/heartbeat/heartbeat.go:138-163 | although the clock is read before the lock, crit iff no recorded ping of the key is at or after now minus its latest timeout |
| Heartbeat.GapPingForcesOk | internal/heartbeat/heartbeat.go:119-142 | a ping landing between clock read and lock forces ok |
| Outage.OutageDetected | internal/scheduler/scheduler.go:86-98 | in a daemon that ticks at most P apart a key last pinged at L with timeout d gets its first crit in (L+d, L+d+P], and ok at every tick before |
| Outage.AlertsAlternate | internal/scheduler/scheduler.go:86-98 | from any store and among any group reports, at every moment the alerts of a reporter that hears everything are the verdicts that differ from where the key stood: the verdict before, or the status told before the run; so they alternate |
| Outage.OneAlertPerSilence | internal/heartbeat/heartbeat.go:119-168 | while a client is silent the crit alerts grow by one iff a tick passes the deadline and either a tick came before the deadline or the key did not stand at crit before the ping; the ok alerts by one iff a tick came before the deadline and the key did not stand at ok before the ping; otherwise neither grows |
| Outage.OutageAlerted | internal/scheduler/scheduler.go:86-98 | the tick that detects the outage comes in (L+d, L+d+P] and hands over the crit iff a tick came before the deadline or the key did not stand at crit before the ping; ticks at least as frequent as the timeout ensure the first |
| Outage.SecondOutageUnalerted | internal/heartbeat/heartbeat.go:119-168 | for every timeout below the tick gap a run has an outage that is detected and never alerted |
| Scheduler.MergeTags | internal/runner/runner.go:199-212 | both lists, each tag once; without configured tags the result's own list as it is |
| Scheduler.FirstOccurrencesInOrder | internal/runner/runner.go:205-211 | the tags stand in the order in which they first occur |
| Scheduler.RunOne | internal/runner/runner.go:176-197 | a panic becomes an unknown result named after the check, any other result is kept, and its tags are its own and the configured ones |
| Scheduler.RunningNamesItself | internal/runner/runner.go:181-194 | every result carries its check's name iff the checks that return label theirs so |
| Scheduler.RunAll | internal/runner/runner.go:130-144 | for every completion order of the goroutines the same results, one of each check, in dictionary order of names |
| Scheduler.RunSelected | internal/runner/runner.go:149-172 | the same for the checks named and no others, unknown names ignored |
| Scheduler.GroupBySchedule | internal/scheduler/scheduler.go:55-62 | one group per effective schedule, every minute where none is set |
| Scheduler.NamesOnInOrder | internal/scheduler/scheduler.go:55-62 | a group lists its checks' names in declaration order |
| Scheduler.GroupsCoverOnce | internal/scheduler/scheduler.go:55-69 | every check is in exactly one group, once |
| Scheduler.GroupsPartitionTheWork | internal/scheduler/scheduler.go:55-69 | merging all groups' runs in any order gives what running everything at once gives |
| Scheduler.GroupsAreDisjoint | internal/scheduler/scheduler.go:55-69 | results of different groups are about different checks |
| Configuration.Config.ApplyDefaults | internal/config/config.go:123-140 | fills what is unset, keeps what is set, and leaves no empty state path or zero timeout |
| Configuration.Config.Validate | internal/config/config.go:144-215 | the faults reported are exactly the rules broken |
| Configuration.AcceptedInWords | internal/config/config.go:144-224 | a configuration is accepted iff there is something to do, checks and reporters have distinct names and types, severities are known, windows not negative, heartbeats not silenced and mentioned checks exist |
| Configuration.FaultsBlameTheirSetting | internal/config/config.go:164-209 | clearing the one setting a fault names removes the fault |
| Configuration.CheckFaultsBlameTheirSetting | internal/config/config.go:152-163 | the same for the faults of a check |
| Configuration.BuildRoute | internal/runner/runner.go:85-117 | fails iff the severity is no status word; log and heartbeat repeat, linear waits 24 hours, and everything set explicitly wins |
| Check.ParsesItsWords | internal/check/check.go:66-79 | a text is read as a status iff it is one of that status's words, in any letter case and with any space around it |
| Check.NamesAreWords | internal/check/check.go:28-42 | every status's name reads back as the status |
| Configuration.ValidSeverityParses | internal/config/config.go:217-224 | the severities that validate are those that parse and have no space around them |
| Configuration.ValidatedConfig | internal/config/config.go:152-187 | an accepted configuration has unique names, and every route can be built with a window that is not negative |
| Configuration.HeartbeatNeverStarved | internal/config/config.go:188-201 | an accepted heartbeat reporter without checks and tags lists is handed every complete result slice, for every store and company |
| Configuration.FilteredHeartbeatStarves | internal/report/report.go:92-97 | with either list some non-empty results leave it with nothing |
| Dotenv.Parse | internal/dotenv/dotenv.go:27-57 | the variables of all lines with later ones winning, or the first line that cannot be read and why |
| Dotenv.ReadsAssignments | internal/dotenv/dotenv.go:33-52 | exactly these lines are assignments: space, perhaps "export " and more space, a valid name, space, an equals sign, space, a value, space; a variable named export before a blank is not one |
| Dotenv.ReadsTheRest | internal/dotenv/dotenv.go:33-42 | blank lines and comments are ignored, and of the others those without an equals sign are rejected as such |
| Dotenv.LinesOfJoined | internal/dotenv/dotenv.go:29-32 | lines may end in a newline or a carriage return and newline, and the last need not end |
| Dotenv.Unquote | internal/dotenv/dotenv.go:106-136 | between single quotes all is literal, between double quotes escapes are read, and anything else is verbatim |
| Dotenv.EscapesMean | internal/dotenv/dotenv.go:113-132 | the four escapes stand for themselves, and a backslash before anything else or at the end stays |
| Dotenv.ValidKey | internal/dotenv/dotenv.go:88-102 | letters, digits and underscores, not starting with a digit |
| Dotenv.UnescapeEscape | internal/dotenv/dotenv.go:113-132 | the unquoting loop inverts the escaper on every value |
| Dotenv.RoundTrip | internal/dotenv/dotenv.go:27-57 | printed bindings of valid names to any values are read back, a repeated name keeping its last value |
| Dotenv.LastWins | internal/dotenv/dotenv.go:51-51 | a repeated name keeps its last value, and no other name appears |
| Dotenv.ParsePrinted | internal/dotenv/dotenv.go:27-57 | any map, printed in any order with or without export, parses back to exactly that map |
| HumanBytes.Scale | internal/check/helpers.go:21-32 | for every 64-bit size of at least 1024 the divisor is the power of 1024 with mantissa in [1, 1024), without overflow, and the unit index is in range |
| HumanBytes.UnitUnique | internal/check/helpers.go:26-31 | no other unit fits |
| HumanBytes.Print | internal/check/helpers.go:21-32 | plain bytes below 1024, otherwise one decimal in the only unit that fits |
| HumanBytes.PrintedReads | internal/check/helpers.go:31-31 | the text reads as the number of tenths, followed by KiB, MiB, GiB, TiB, PiB or EiB |
| HumanBytes.DoubleRepresents | internal/check/helpers.go:31-31 | the double of a size is at most 2^53 times a power of two and half a step from it at most |
| HumanBytes.TiesToEven | internal/check/helpers.go:31-31 | a tie is rounded to the even neighbour |
| HumanBytes.TenthsAccurate | internal/check/helpers.go:31-31 | the printed number is the nearest tenth for sizes a double holds, less than a tenth off for all, and between 1.0 and 1024.0 |
| HumanBytes.RoundsUpToTheNextUnit | internal/check/helpers.go:31-31 | a size prints as 1024.0 of its unit iff it is at least 20479 twentieths of it, below 2^53; in general iff its double is |
| Text.DecimalValue | internal/cli/init.go:164-164 | decimal digits read back as the number, without leading zeros |
| Text.DecimalInjective | internal/cli/init.go:164-164 | so printing is injective and the candidate names are pairwise different |
| Text.TrimSpaceTrims | internal/cli/init.go:277-277 | trimming removes exactly the space at both ends |
| Text.LowersCapitals | internal/check/check.go:67-67 | lower-casing maps the 26 capitals onto their small letters and nothing else |
| Wizard.Names.Default | internal/cli/init.go:162-165 | the type if it is free, otherwise the type with the smallest number from 2 on that is; found within as many steps as there are names in use |
| Wizard.Names.UniqueName | internal/cli/init.go:161-178 | every rejected answer was taken; a blank answer takes the first free candidate; the recorded name is new and not empty; it fails only when the input ends |
| Wizard.Names.NameAll | internal/cli/init.go:161-178 | over any sequence of calls the recorded names are new, not empty and pairwise different |

## Left out

- Serializability.StrictlySerializable: takes every save as successful and atomic, because a failed save is not repeated before the next report that writes; the same holds for the restart theorems.
- Scheduler.RunAll: sorting is a pure function here, because the library's in-place sort has only one possible outcome for distinct names.
- Heartbeat.Registry.ServePing: takes the decoded body and the Authorization header as values, because HTTP, JSON and duration parsing are libraries; constant-time comparison is plain equality.
- Routing.Filter: result details, timestamps and durations are not modelled, because the alert engine never reads them; redaction for external reporters goes with them.
- Dotenv.Parse: whitespace is the ASCII kind, characters stand for bytes, and the scanner's line length limit is absent.
- Configuration.Config.Validate: letter case is folded over ASCII only, and faults carry no message text.
- Time is an integer that only moves as a theorem says; the saturation of very long time differences is absent.
- A state file is the identity on entries, including those of older releases that carry no status; a file holding the JSON value null is absent.
- Crashes between a delivery and its save, and what overlapping reports on one check do beyond `Overlap.dfy`: the code promises nothing there.
- The concrete checks, the Slack, webhook, log and heartbeat reporters' payloads, cron expressions, the HTTP servers, self-update and the rest of the command line: libraries, input and output, or members that add only easy claims.
