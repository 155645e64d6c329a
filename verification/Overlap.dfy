/** What taking turns is for: two overlapping reports about the same check can both alert, where one
    after the other the second is quiet (internal/runner/runner.go). */
module Overlap {
  import opened Selection
  import opened Check
  import opened State
  import opened Routing
  import opened Engine
  import opened EngineFacts
  import opened TwoRuns
  import opened Interleaving
  import opened Serializability

  // --- Where a report stands among the reporters ------------------------------------------------

  // One slice handed out for each reporter passed, and the rest still to come.
  predicate Placed(reps: seq<BoundReporter>, l: Local) {
    var passed := |l.handed|;
    passed <= |reps| &&
    match l.pc
    case Snap(_) => passed == 0
    case Turn(rs) => rs == reps[passed..]
    case Gate(rs, _, _) => rs != [] && rs == reps[passed..]
    case Marking(rs, name, _, _) => 0 < passed && rs == reps[passed..] && name == reps[passed - 1].name
    case _ => passed == |reps|
  }

  lemma AdvancePlaced(reps: seq<BoundReporter>, call: Call, l: Local, mem: Entries)
    requires Placed(reps, l)
    ensures var l1 := Advance(reps, call, l, mem).0;
      Placed(reps, l1) && l.handed <= l1.handed && |l1.handed| <= |l.handed| + 1
  {
    hide Keep, Wants, Moved, Lands, On, StatusKey, NotifyKey, Accepting;
    if l.pc.Gate? { GatePlaced(reps, call, l, mem); return; }
  }

  lemma GatePlaced(reps: seq<BoundReporter>, call: Call, l: Local, mem: Entries)
    requires Placed(reps, l) && l.pc.Gate?
    ensures var l1 := Advance(reps, call, l, mem).0;
      Placed(reps, l1) && l.handed <= l1.handed && |l1.handed| <= |l.handed| + 1
  {
    hide Keep, Wants, Moved, Lands, On, StatusKey, NotifyKey, Accepting;
    var rs, passed := l.pc.reps, |l.handed|;
    assert rs[0] == reps[passed] && rs[1..] == reps[passed + 1..];
  }

  // Until reporter k has been called, a report writes nothing that matters to it.
  lemma EarlyWritesElsewhere(reps: seq<BoundReporter>, call: Call, l: Local, mem: Entries, k: nat)
    requires Separated(reps) && k < |reps| && Placed(reps, l) && |l.handed| <= k
    ensures SameView(mem, Advance(reps, call, l, mem).1, reps[k].name)
  {
    hide Keep, Wants, Moved, Lands, On, StatusKey, NotifyKey;
    var name, mem1 := reps[k].name, Advance(reps, call, l, mem).1;
    if l.pc.Marking? && l.pc.todo != [] {
      assert Apart(reps[|l.handed| - 1].name, name);
      forall c ensures CellOf(mem, name, c) == CellOf(mem1, name, c) {
        ApartKeys(l.pc.name, l.pc.todo[0].check, name, c);
        KindsDiffer(c, l.pc.name, l.pc.todo[0].check);
      }
    }
  }

  lemma {:induction false} SoloPlaced(reps: seq<BoundReporter>, call: Call, mem: Entries, n: nat)
    ensures Placed(reps, Solo(reps, call, mem, n).0)
  {
    hide Advance;
    if n > 0 {
      var (l, m) := Solo(reps, call, mem, n - 1);
      SoloPlaced(reps, call, mem, n - 1);
      AdvancePlaced(reps, call, l, m);
    }
  }

  lemma SameViewChain(e1: Entries, e2: Entries, e3: Entries, name: string)
    requires SameView(e1, e2, name) && SameView(e2, e3, name)
    ensures SameView(e1, e3, name)
  {
    forall c ensures CellOf(e1, name, c) == CellOf(e3, name, c) {
      assert CellOf(e1, name, c) == CellOf(e2, name, c);
    }
  }

  // Left alone, a report comes to the point where reporter k has just been called.
  lemma {:induction false} ReachesReporter(reps: seq<BoundReporter>, call: Call, mem: Entries, k: nat, n: nat) returns (m: nat)
    requires Separated(reps) && k < |reps| && |Solo(reps, call, mem, n).0.handed| <= k
    requires SameView(mem, Solo(reps, call, mem, n).1, reps[k].name)
    ensures |Solo(reps, call, mem, m).0.handed| == k + 1
    ensures SameView(mem, Solo(reps, call, mem, m).1, reps[k].name)
    decreases Phase(Solo(reps, call, mem, n).0.pc), Ahead(Solo(reps, call, mem, n).0.pc),
      Part(Solo(reps, call, mem, n).0.pc), Todo(Solo(reps, call, mem, n).0.pc)
  {
    hide Finish, Step, Handed, Advance, SameView, Separated;
    var (l, e) := Solo(reps, call, mem, n);
    SoloFinish(reps, call, mem, n);
    SoloPlaced(reps, call, mem, n);
    AdvanceShrinks(reps, call, l, e);
    AdvancePlaced(reps, call, l, e);
    EarlyWritesElsewhere(reps, call, l, e, k);
    assert Solo(reps, call, mem, n + 1) == Advance(reps, call, l, e);
    SameViewChain(mem, e, Solo(reps, call, mem, n + 1).1, reps[k].name);
    if |Solo(reps, call, mem, n + 1).0.handed| == k + 1 {
      m := n + 1;
    } else {
      m := ReachesReporter(reps, call, mem, k, n + 1);
    }
  }

  // The slices handed out so far are the first of its engine step.
  lemma SoloHands(reps: seq<BoundReporter>, call: Call, mem: Entries, n: nat)
    ensures var l := Solo(reps, call, mem, n).0;
      && l.handed <= Handed(mem, reps, call)
      && (l.pc.Done? ==> l.handed == Handed(mem, reps, call))
  {
    hide Advance, Step, Handed;
    SoloFinish(reps, call, mem, n);
  }

  // --- Two reports, the second inside the first ---------------------------------------------------

  // Goroutine 0 makes n steps, then goroutine 1 makes m.
  function Nested(n: nat, m: nat): seq<nat> {
    seq(n + m, i requires 0 <= i < n + m => if i < n then 0 else 1)
  }

  lemma {:induction false} ExecNested(reps: seq<BoundReporter>, c1: Call, c2: Call, mem: Entries, n: nat, m: nat)
    ensures var s, (l, e) := Exec(reps, [c1, c2], mem, mem, Nested(n, m)), Solo(reps, c1, mem, n);
      s.locals == [l, Solo(reps, c2, e, m).0] && s.mem == Solo(reps, c2, e, m).1
    decreases n + m
  {
    hide Advance;
    if m > 0 {
      ExecNested(reps, c1, c2, mem, n, m - 1);
      assert Nested(n, m)[..n + m - 1] == Nested(n, m - 1);
    } else if n > 0 {
      ExecNested(reps, c1, c2, mem, n - 1, 0);
      assert Nested(n, 0)[..n - 1] == Nested(n - 1, 0);
    }
  }

  lemma {:induction false} ExecPlaced(reps: seq<BoundReporter>, calls: seq<Call>, mem: Entries, disk: Entries,
                                      schedule: seq<nat>, t: nat)
    requires Runs(schedule, |calls|) && t < |calls|
    ensures Placed(reps, Exec(reps, calls, mem, disk, schedule).locals[t])
    decreases |schedule|
  {
    hide Advance, Placed;
    if schedule == [] {
      SoloPlaced(reps, calls[t], mem, 0);
    } else {
      var last := |schedule| - 1;
      var s := Exec(reps, calls, mem, disk, schedule[..last]);
      ExecPlaced(reps, calls, mem, disk, schedule[..last], t);
      if schedule[last] == t { AdvancePlaced(reps, calls[t], s.locals[t], s.mem); }
    }
  }

  // What has been handed out stays handed out.
  lemma {:induction false} HandedStays(reps: seq<BoundReporter>, calls: seq<Call>, mem: Entries, disk: Entries,
                                       early: seq<nat>, schedule: seq<nat>, t: nat)
    requires Runs(schedule, |calls|) && early <= schedule && t < |calls|
    ensures Exec(reps, calls, mem, disk, early).locals[t].handed <= Exec(reps, calls, mem, disk, schedule).locals[t].handed
    decreases |schedule|
  {
    hide Advance, Placed;
    if early != schedule {
      var last := |schedule| - 1;
      var s := Exec(reps, calls, mem, disk, schedule[..last]);
      HandedStays(reps, calls, mem, disk, early, schedule[..last], t);
      if schedule[last] == t {
        ExecPlaced(reps, calls, mem, disk, schedule[..last], t);
        AdvancePlaced(reps, calls[t], s.locals[t], s.mem);
      }
    }
  }

  /** Of any two reports and any store there is an interleaving in which a given reporter is handed
      by each report what it would be handed if the other did not exist. */
  lemma BothActAsFirst(reps: seq<BoundReporter>, k: nat, c1: Call, c2: Call, mem: Entries) returns (schedule: seq<nat>)
    requires Separated(reps) && k < |reps|
    ensures Runs(schedule, 2)
    ensures var s := Exec(reps, [c1, c2], mem, mem, schedule);
      && AllDone(s) && |s.locals[0].handed| == |reps| && |s.locals[1].handed| == |reps|
      && s.locals[0].handed[k] == Handed(mem, reps, c1)[k]
      && s.locals[1].handed[k] == Handed(mem, reps, c2)[k]
  {
    hide Advance, Step, Handed, Exec, Separated, Placed;
    var calls := [c1, c2];
    var n := ReachesReporter(reps, c1, mem, k, 0);
    var mem1 := Solo(reps, c1, mem, n).1;
    var m := SoloEnds(reps, c2, mem1, 0);
    ExecNested(reps, c1, c2, mem, n, m);
    SoloHands(reps, c1, mem, n);
    SoloHands(reps, c2, mem1, m);
    SameStep(mem1, mem, reps, k, reps, k, c2, c2);
    schedule := CanAlwaysFinish(reps, calls, mem, mem, Nested(n, m), 2);
    forall t: nat | t < 2
      ensures Exec(reps, calls, mem, mem, Nested(n, m)).locals[t].handed
        <= Exec(reps, calls, mem, mem, schedule).locals[t].handed
      ensures |Exec(reps, calls, mem, mem, schedule).locals[t].handed| == |reps|
    {
      HandedStays(reps, calls, mem, mem, Nested(n, m), schedule, t);
      ExecPlaced(reps, calls, mem, mem, schedule, t);
      DoneHandedAll(reps, Exec(reps, calls, mem, mem, schedule).locals[t]);
    }
  }

  lemma DoneHandedAll(reps: seq<BoundReporter>, l: Local)
    requires Placed(reps, l) && l.pc.Done?
    ensures |l.handed| == |reps|
  {
  }

  // --- One after the other -------------------------------------------------------------------------

  // What got through in the first report is told again by the second only after a positive window.
  lemma SecondIsQuiet(reps: seq<BoundReporter>, k: nat, c1: Call, c2: Call, mem: Entries, r: Result, q: Result)
    requires Separated(reps) && k < |reps| && !reps[k].route.repeatAlerts
    requires Distinct(c1.results) && Distinct(c2.results)
    requires r in Handed(mem, reps, c1)[k] && Lands(c1.deliver(reps[k].name, Handed(mem, reps, c1)[k]), r.check)
    requires q in c2.results && Accepts(reps[k].route, q) && q.check == r.check && q.status == r.status
    ensures q in Handed(Step(mem, reps, c1), reps, c2)[k]
      <==> reps[k].route.dedupeWindow > 0 && c2.now - c1.now >= reps[k].route.dedupeWindow
  {
    hide Step, Handed;
    HandedProjects(mem, reps, k, c1, r);
    FindMember(c1.results, r);
    StepProjects(mem, reps, k, c1, r.check);
    HandedProjects(Step(mem, reps, c1), reps, k, c2, q);
  }

  /** Taking turns is necessary. Let any two reports, from any store, each have a reporter due the
      same status of the same check, both deliveries getting through. Some interleaving of the two
      hands it over twice; one after the other, in either order, the second hands it over only
      after a positive window. */
  lemma OverlapAlertsTwice(reps: seq<BoundReporter>, k: nat, c1: Call, c2: Call, mem: Entries, r: Result, q: Result)
    returns (schedule: seq<nat>)
    requires Separated(reps) && k < |reps| && !reps[k].route.repeatAlerts
    requires Distinct(c1.results) && Distinct(c2.results)
    requires r in Handed(mem, reps, c1)[k] && Lands(c1.deliver(reps[k].name, Handed(mem, reps, c1)[k]), r.check)
    requires q in Handed(mem, reps, c2)[k] && Lands(c2.deliver(reps[k].name, Handed(mem, reps, c2)[k]), q.check)
    requires r.check == q.check && r.status == q.status
    ensures Runs(schedule, 2)
    ensures var s := Exec(reps, [c1, c2], mem, mem, schedule);
      && AllDone(s) && |s.locals[0].handed| == |reps| && |s.locals[1].handed| == |reps|
      && r in s.locals[0].handed[k] && q in s.locals[1].handed[k]
    ensures var window := reps[k].route.dedupeWindow;
      && (q in Handed(Step(mem, reps, c1), reps, c2)[k] <==> window > 0 && c2.now - c1.now >= window)
      && (r in Handed(Step(mem, reps, c2), reps, c1)[k] <==> window > 0 && c1.now - c2.now >= window)
  {
    hide Step, Handed, Exec;
    schedule := BothActAsFirst(reps, k, c1, c2, mem);
    HandedProjects(mem, reps, k, c1, r);
    HandedProjects(mem, reps, k, c2, q);
    SecondIsQuiet(reps, k, c1, c2, mem, r, q);
    SecondIsQuiet(reps, k, c2, c1, mem, q, r);
  }
}
