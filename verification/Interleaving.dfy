/** Reports of concurrent schedule groups over one store, interleaved at every single store access
    (internal/runner/runner.go, internal/scheduler/scheduler.go). Each Get, Set and Flush holds the
    store's mutex, so one access is one step. */
module Interleaving {
  import opened Selection
  import opened Check
  import opened State
  import opened Routing
  import opened Engine
  import opened Runner

  // Where a goroutine stands inside Report.
  datatype Pc =
    | Snap(todo: seq<Result>)                                        // reading last statuses
    | Turn(reps: seq<BoundReporter>)                                 // before the next reporter
    | Gate(reps: seq<BoundReporter>, todo: seq<Result>, kept: seq<Result>)  // reading notify entries
    | Marking(reps: seq<BoundReporter>, name: string, outcome: Outcome, todo: seq<Result>)
    | Noting(todo: seq<Result>)                                      // writing statuses
    | Saving
    | Done

  // Its local variables.
  datatype Local = Local(pc: Pc, changed: map<string, bool>, handed: seq<seq<Result>>, dirty: bool)

  function Start(call: Call): Local {
    Local(Snap(call.results), map[], [], false)
  }

  // One step: at most one store access.
  function Advance(reps: seq<BoundReporter>, call: Call, l: Local, mem: Entries): (Local, Entries) {
    match l.pc
    case Snap(todo) =>
      if todo == [] then (l.(pc := Turn(reps)), mem)
      else (l.(pc := Snap(todo[1..]), changed := l.changed[todo[0].check := Moved(mem, todo[0])]), mem)
    case Turn(rs) =>
      if rs == [] then (l.(pc := Noting(call.results)), mem)
      else
        var filtered := Keep(call.results, Accepting(rs[0].route));
        (l.(pc := if rs[0].route.repeatAlerts then Gate(rs, [], filtered) else Gate(rs, filtered, [])), mem)
    case Gate(rs, todo, kept) =>
      if rs == [] then (l, mem)
      else if todo != [] then
        var send := Wants(mem, rs[0], l.changed, call.now, todo[0]);
        (l.(pc := Gate(rs, todo[1..], if send then kept + [todo[0]] else kept)), mem)
      else if kept == [] || rs[0].route.repeatAlerts then
        (l.(pc := Turn(rs[1..]), handed := l.handed + [kept]), mem)
      else
        (l.(pc := Marking(rs[1..], rs[0].name, call.deliver(rs[0].name, kept), kept),
            handed := l.handed + [kept]), mem)
    case Marking(rs, name, outcome, todo) =>
      if todo == [] then (l.(pc := Turn(rs)), mem)
      else if Lands(outcome, todo[0].check) then
        (l.(pc := Marking(rs, name, outcome, todo[1..]), dirty := true),
         mem[NotifyKey(name, todo[0].check) := Entry(call.now, StatusName(todo[0].status))])
      else (l.(pc := Marking(rs, name, outcome, todo[1..])), mem)
    case Noting(todo) =>
      if todo == [] then (l.(pc := Saving), mem)
      else if On(l.changed, todo[0].check) then
        (l.(pc := Noting(todo[1..]), dirty := true),
         mem[StatusKey(todo[0].check) := Entry(call.now, StatusName(todo[0].status))])
      else (l.(pc := Noting(todo[1..])), mem)
    case Saving => (l.(pc := Done), mem)
    case Done => (l, mem)
  }

  /** A step touches one store key at most: all it learns of the store is one entry, and no other
      entry changes. */
  lemma OneAccess(reps: seq<BoundReporter>, call: Call, l: Local, m1: Entries, m2: Entries) returns (key: string)
    ensures forall other :: other != key ==> Lookup(Advance(reps, call, l, m1).1, other) == Lookup(m1, other)
    ensures Lookup(m1, key) == Lookup(m2, key) ==>
      && Advance(reps, call, l, m1).0 == Advance(reps, call, l, m2).0
      && Lookup(Advance(reps, call, l, m1).1, key) == Lookup(Advance(reps, call, l, m2).1, key)
  {
    hide Keep, Lands, On, StatusKey, NotifyKey;
    match l.pc
    case Snap(todo) => key := if todo == [] then "" else StatusKey(todo[0].check);
    case Gate(rs, todo, _) => key := if rs == [] || todo == [] then "" else NotifyKey(rs[0].name, todo[0].check);
    case Marking(_, name, _, todo) => key := if todo == [] then "" else NotifyKey(name, todo[0].check);
    case Noting(todo) => key := if todo == [] then "" else StatusKey(todo[0].check);
    case _ => key := "";
  }

  // --- A report that runs alone is one engine step -----------------------------------------

  predicate Shaped(l: Local) {
    l.pc.Gate? ==> l.pc.reps != [] && (l.pc.reps[0].route.repeatAlerts ==> l.pc.todo == [])
  }

  // The rest of a report, had it the store to itself.
  function Finish(reps: seq<BoundReporter>, call: Call, l: Local, mem: Entries): (Entries, seq<seq<Result>>)
    requires Shaped(l)
  {
    match l.pc
    case Snap(todo) => Rest(reps, call, l.changed + Snapshot(mem, todo), l.handed, mem)
    case Turn(rs) => Rest(rs, call, l.changed, l.handed, mem)
    case Gate(rs, todo, kept) =>
      var slice := kept + Keep(todo, Wanting(mem, rs[0], l.changed, call.now));
      var mem1 := if rs[0].route.repeatAlerts then mem
                  else mem + Marks(rs[0].name, slice, call.deliver(rs[0].name, slice), call.now);
      Rest(rs[1..], call, l.changed, l.handed + [slice], mem1)
    case Marking(rs, name, outcome, todo) =>
      Rest(rs, call, l.changed, l.handed, mem + Marks(name, todo, outcome, call.now))
    case Noting(todo) => (mem + Observations(todo, l.changed, call.now), l.handed)
    case Saving => (mem, l.handed)
    case Done => (mem, l.handed)
  }

  function Rest(rs: seq<BoundReporter>, call: Call, changed: map<string, bool>, handed: seq<seq<Result>>, mem: Entries):
    (Entries, seq<seq<Result>>)
  {
    (Notify(mem, rs, changed, call) + Observations(call.results, changed, call.now),
     handed + Slices(mem, rs, changed, call))
  }

  lemma FinishSnap(reps: seq<BoundReporter>, call: Call, l: Local, mem: Entries)
    requires l.pc.Snap?
    ensures var (l1, mem1) := Advance(reps, call, l, mem);
      Shaped(l1) && Finish(reps, call, l1, mem1) == Finish(reps, call, l, mem)
  {
    hide Rest, Keep, Moved, StatusKey;
    var todo := l.pc.todo;
    if todo != [] {
      SnapshotUnrolls(mem, todo, 0, l.changed);
      assert todo[0..] == todo;
    } else {
      assert l.changed + Snapshot(mem, todo) == l.changed;
    }
  }

  lemma FinishTurn(reps: seq<BoundReporter>, call: Call, l: Local, mem: Entries)
    requires l.pc.Turn?
    ensures var (l1, mem1) := Advance(reps, call, l, mem);
      Shaped(l1) && Finish(reps, call, l1, mem1) == Finish(reps, call, l, mem)
  {
    hide Wants, Moved, Observations, Marks, Accepting, Wanting;
    var rs := l.pc.reps;
    if rs == [] {
      assert l.handed + Slices(mem, rs, l.changed, call) == l.handed;
    } else {
      var slice := Slice(mem, rs[0], l.changed, call);
      assert l.handed + Slices(mem, rs, l.changed, call)
        == l.handed + [slice] + Slices(After(mem, rs[0], l.changed, call), rs[1..], l.changed, call);
      var filtered := Keep(call.results, Accepting(rs[0].route));
      var wanting := Wanting(mem, rs[0], l.changed, call.now);
      assert filtered + Keep([], wanting) == filtered;
      assert [] + Keep(filtered, wanting) == Keep(filtered, wanting);
    }
  }

  lemma FinishGate(reps: seq<BoundReporter>, call: Call, l: Local, mem: Entries)
    requires Shaped(l) && l.pc.Gate?
    ensures var (l1, mem1) := Advance(reps, call, l, mem);
      Shaped(l1) && Finish(reps, call, l1, mem1) == Finish(reps, call, l, mem)
  {
    var Gate(rs, todo, kept) := l.pc;
    var wanting := Wanting(mem, rs[0], l.changed, call.now);
    if todo != [] {
      var kept1 := if wanting(todo[0]) then kept + [todo[0]] else kept;
      assert kept + Keep(todo, wanting) == kept1 + Keep(todo[1..], wanting);
    } else {
      assert kept + Keep(todo, wanting) == kept;
      if kept == [] { assert mem + Marks(rs[0].name, kept, call.deliver(rs[0].name, kept), call.now) == mem; }
    }
  }

  lemma FinishMarks(reps: seq<BoundReporter>, call: Call, l: Local, mem: Entries)
    requires l.pc.Marking?
    ensures var (l1, mem1) := Advance(reps, call, l, mem);
      Shaped(l1) && Finish(reps, call, l1, mem1) == Finish(reps, call, l, mem)
  {
    hide Rest, Keep, Lands, NotifyKey;
    var todo := l.pc.todo;
    if todo == [] {
      assert mem + Marks(l.pc.name, todo, l.pc.outcome, call.now) == mem;
    } else {
      MarksUnroll(mem, l.pc.name, todo, 0, l.pc.outcome, call.now);
      assert todo[0..] == todo;
    }
  }

  lemma FinishNotes(reps: seq<BoundReporter>, call: Call, l: Local, mem: Entries)
    requires l.pc.Noting?
    ensures var (l1, mem1) := Advance(reps, call, l, mem);
      Shaped(l1) && Finish(reps, call, l1, mem1) == Finish(reps, call, l, mem)
  {
    hide Rest, Keep, On, StatusKey;
    var todo := l.pc.todo;
    if todo == [] {
      assert mem + Observations(todo, l.changed, call.now) == mem;
    } else {
      ObservationsUnroll(mem, todo, 0, l.changed, call.now);
      assert todo[0..] == todo;
    }
  }

  lemma FinishInvariant(reps: seq<BoundReporter>, call: Call, l: Local, mem: Entries)
    requires Shaped(l)
    ensures var (l1, mem1) := Advance(reps, call, l, mem);
      Shaped(l1) && Finish(reps, call, l1, mem1) == Finish(reps, call, l, mem)
  {
    hide Rest;
    match l.pc
    case Gate(_, _, _) => FinishGate(reps, call, l, mem);
    case Saving =>
    case Done =>
    case Snap(_) => FinishSnap(reps, call, l, mem);
    case Turn(_) => FinishTurn(reps, call, l, mem);
    case Marking(_, _, _, _) => FinishMarks(reps, call, l, mem);
    case Noting(_) => FinishNotes(reps, call, l, mem);
  }

  // n steps of one report with no one else around.
  function Solo(reps: seq<BoundReporter>, call: Call, mem: Entries, n: nat): (Local, Entries) {
    if n == 0 then (Start(call), mem)
    else
      var (l, m) := Solo(reps, call, mem, n - 1);
      Advance(reps, call, l, m)
  }

  lemma {:induction false} SoloFinish(reps: seq<BoundReporter>, call: Call, mem: Entries, n: nat)
    ensures var (l, m) := Solo(reps, call, mem, n);
      Shaped(l) && Finish(reps, call, l, m) == (Step(mem, reps, call), Handed(mem, reps, call))
  {
    if n == 0 {
      assert map[] + Snapshot(mem, call.results) == Snapshot(mem, call.results);
      assert [] + Handed(mem, reps, call) == Handed(mem, reps, call);
    } else {
      var (l, m) := Solo(reps, call, mem, n - 1);
      SoloFinish(reps, call, mem, n - 1);
      FinishInvariant(reps, call, l, m);
    }
  }

  function Phase(pc: Pc): nat {
    match pc
    case Snap(_) => 4
    case Noting(_) => 2
    case Saving => 1
    case Done => 0
    case _ => 3
  }

  function Ahead(pc: Pc): nat {
    match pc
    case Turn(rs) => |rs|
    case Gate(rs, _, _) => |rs|
    case Marking(rs, _, _, _) => |rs|
    case _ => 0
  }

  function Part(pc: Pc): nat {
    match pc
    case Turn(_) => 2
    case Gate(_, _, _) => 1
    case _ => 3
  }

  function Todo(pc: Pc): nat {
    match pc
    case Snap(todo) => |todo|
    case Gate(_, todo, _) => |todo|
    case Marking(_, _, _, todo) => |todo|
    case Noting(todo) => |todo|
    case _ => 0
  }

  predicate Shrinks(pc1: Pc, pc: Pc) {
    || Phase(pc1) < Phase(pc)
    || (Phase(pc1) == Phase(pc) &&
         (|| Ahead(pc1) < Ahead(pc)
          || (Ahead(pc1) == Ahead(pc) &&
               (Part(pc1) < Part(pc) || (Part(pc1) == Part(pc) && Todo(pc1) < Todo(pc))))))
  }

  lemma AdvanceShrinks(reps: seq<BoundReporter>, call: Call, l: Local, mem: Entries)
    requires Shaped(l) && !l.pc.Done?
    ensures Shrinks(Advance(reps, call, l, mem).0.pc, l.pc)
  {
    hide Keep, Wants, Moved, Lands, On, StatusKey, NotifyKey, Accepting;
    if l.pc.Gate? { GateShrinks(reps, call, l, mem); return; }
  }

  lemma GateShrinks(reps: seq<BoundReporter>, call: Call, l: Local, mem: Entries)
    requires Shaped(l) && l.pc.Gate?
    ensures Shrinks(Advance(reps, call, l, mem).0.pc, l.pc)
  {
    hide Keep, Wants, Moved, Lands, On, StatusKey, NotifyKey, Accepting;
  }

  // A report left alone comes to its end, having made one engine step.
  lemma {:induction false} SoloEnds(reps: seq<BoundReporter>, call: Call, mem: Entries, n: nat) returns (m: nat)
    ensures Solo(reps, call, mem, m).0.pc.Done?
    decreases Phase(Solo(reps, call, mem, n).0.pc), Ahead(Solo(reps, call, mem, n).0.pc),
      Part(Solo(reps, call, mem, n).0.pc), Todo(Solo(reps, call, mem, n).0.pc)
  {
    hide Finish, Step, Handed, Advance;
    var (l, e) := Solo(reps, call, mem, n);
    SoloFinish(reps, call, mem, n);
    if l.pc.Done? {
      m := n;
    } else {
      AdvanceShrinks(reps, call, l, e);
      assert Solo(reps, call, mem, n + 1) == Advance(reps, call, l, e);
      m := SoloEnds(reps, call, mem, n + 1);
    }
  }
}
